/**
  Repository content envelopes: a CBOR prefix describing one object or filesystem file,
  followed by exactly the payload bytes the prefix announces.
 */
module Content {
  import opened Wrappers
  import opened Text
  import opened Cbor
  import opened CborCodec

  const MAX_ENCODED_CONTENT_BYTES := 1024 * 1024 * 1024 * 1024
  const MAX_DECODED_CONTENT_BYTES := 1024 * 1024 * 1024 * 1024
  const MAX_METADATA_TEXT := 128
  const MAX_MODE := 4095

  type U32 = x: int | 0 <= x < 0x1_0000_0000
  type Mode = x: int | 0 <= x <= 4095

  datatype Compression = Identity | Zstd

  datatype ObjectKind = File(executable: bool) | Directory

  /** Fields every envelope ends its metadata with, and the announced payload length. */
  datatype Common = Common(compression: Compression, decodedSize: U64, encodedSize: U64)

  datatype ObjectHeader = ObjectHeader(kind: ObjectKind, common: Common)

  datatype FsFileHeader = FsFileHeader(gid: U32, uid: U32, mode: Mode, common: Common)

  datatype Envelope<+H> = Envelope(header: H, payloadOffset: nat)

  // ----- Wire form -----

  function CompressionName(c: Compression): string {
    match c
    case Identity => "identity"
    case Zstd => "zstd"
  }

  function CommonThen(c: Common, rest: Bytes): Bytes {
    TextItem(Ascii("compression")) + (TextItem(Ascii(CompressionName(c.compression))) +
    (TextItem(Ascii("decoded_size")) + (HeadBytes(UINT, c.decodedSize) +
    (HeadBytes(BYTE_STRING, c.encodedSize) + rest))))
  }

  function BooleanByte(b: bool): Byte {
    if b then 0xf5 else 0xf4
  }

  function KindThen(kind: ObjectKind, rest: Bytes): Bytes {
    match kind
    case File(executable) =>
      TextItem(Ascii("file")) + (TextItem(Ascii("executable")) + ([BooleanByte(executable)] + rest))
    case Directory =>
      TextItem(Ascii("directory")) + (TextItem(Ascii("archive")) + (TextItem(Ascii("tar")) + rest))
  }

  function ObjectThen(h: ObjectHeader, rest: Bytes): Bytes {
    HeadBytes(ARRAY, 2) + (HeadBytes(MAP, 4) +
    (TextItem(Ascii("kind")) + KindThen(h.kind, CommonThen(h.common, rest))))
  }

  function FsFileThen(h: FsFileHeader, rest: Bytes): Bytes {
    HeadBytes(ARRAY, 2) + (HeadBytes(MAP, 5) +
    (TextItem(Ascii("gid")) + (HeadBytes(UINT, h.gid) +
    (TextItem(Ascii("uid")) + (HeadBytes(UINT, h.uid) +
    (TextItem(Ascii("mode")) + (HeadBytes(UINT, h.mode) + CommonThen(h.common, rest))))))))
  }

  // ----- Parsing -----

  /** Metadata text is bounded before it is read. */
  function ParseShortText(s: Bytes): Result<Parsed<Bytes>, RepositoryError> {
    var head :- ParseHead(TEXT_STRING, s);
    if head.value > MAX_METADATA_TEXT then Failure(TextTooLong) else ParseText(s)
  }

  function ParseShortKey(s: Bytes, key: string): Result<Parsed<()>, RepositoryError> {
    var text :- ParseShortText(s);
    if text.value == Ascii(key) then Success(Parsed((), text.rest)) else Failure(WrongKey)
  }

  function ParseCompression(s: Bytes): Result<Parsed<Compression>, RepositoryError> {
    var text :- ParseShortText(s);
    if text.value == Ascii("identity") then Success(Parsed(Identity, text.rest))
    else if text.value == Ascii("zstd") then Success(Parsed(Zstd, text.rest))
    else Failure(UnknownKeyword)
  }

  /** A key followed by an unsigned integer of at most `limit`. */
  function ParseUintField(s: Bytes, key: string, limit: int): Result<Parsed<U64>, RepositoryError> {
    var k :- ParseShortKey(s, key);
    var n :- ParseHead(UINT, k.rest);
    if n.value <= limit then Success(n) else Failure(OutOfRange)
  }

  function ParseCompressionField(s: Bytes): Result<Parsed<Compression>, RepositoryError> {
    var k :- ParseShortKey(s, "compression");
    ParseCompression(k.rest)
  }

  function ParseCommon(s: Bytes): Result<Parsed<Common>, RepositoryError> {
    var compression :- ParseCompressionField(s);
    var decoded :- ParseUintField(compression.rest, "decoded_size", 0xffff_ffff_ffff_ffff);
    var encoded :- ParseHead(BYTE_STRING, decoded.rest);
    Success(Parsed(Common(compression.value, decoded.value, encoded.value), encoded.rest))
  }

  function ParseBoolean(s: Bytes): Result<Parsed<bool>, RepositoryError> {
    if s == [] then Failure(Truncated)
    else if s[0] == 0xf4 then Success(Parsed(false, s[1..]))
    else if s[0] == 0xf5 then Success(Parsed(true, s[1..]))
    else Failure(UnknownKeyword)
  }

  function ParseFileKind(s: Bytes): Result<Parsed<ObjectKind>, RepositoryError> {
    var k :- ParseShortKey(s, "executable");
    var executable :- ParseBoolean(k.rest);
    Success(Parsed(File(executable.value), executable.rest))
  }

  function ParseDirectoryKind(s: Bytes): Result<Parsed<ObjectKind>, RepositoryError> {
    var k :- ParseShortKey(s, "archive");
    var archive :- ParseShortKey(k.rest, "tar");
    Success(Parsed(Directory, archive.rest))
  }

  /** The kind keyword decides which field follows; both shapes have the same field count. */
  function ParseKind(s: Bytes, fields: U64): Result<Parsed<ObjectKind>, RepositoryError> {
    var text :- ParseShortText(s);
    if text.value == Ascii("file") then
      if fields != 4 then Failure(WrongLength) else ParseFileKind(text.rest)
    else if text.value == Ascii("directory") then
      if fields != 4 then Failure(WrongLength) else ParseDirectoryKind(text.rest)
    else Failure(UnknownKeyword)
  }

  function ParseObjectKind(s: Bytes): Result<Parsed<ObjectKind>, RepositoryError> {
    var envelope :- ParseLength(s, ARRAY, 2);
    var fields :- ParseHead(MAP, envelope.rest);
    var k :- ParseShortKey(fields.rest, "kind");
    ParseKind(k.rest, fields.value)
  }

  function ParseObject(s: Bytes): Result<Parsed<ObjectHeader>, RepositoryError> {
    var kind :- ParseObjectKind(s);
    var common :- ParseCommon(kind.rest);
    Success(Parsed(ObjectHeader(kind.value, common.value), common.rest))
  }

  datatype Owner = Owner(gid: U32, uid: U32, mode: Mode)

  function ParseOwner(s: Bytes): Result<Parsed<Owner>, RepositoryError> {
    var gid :- ParseUintField(s, "gid", 0xffff_ffff);
    var uid :- ParseUintField(gid.rest, "uid", 0xffff_ffff);
    var mode :- ParseUintField(uid.rest, "mode", MAX_MODE);
    Success(Parsed(Owner(gid.value, uid.value, mode.value), mode.rest))
  }

  function ParseFsFileOwner(s: Bytes): Result<Parsed<Owner>, RepositoryError> {
    var envelope :- ParseLength(s, ARRAY, 2);
    var fields :- ParseLength(envelope.rest, MAP, 5);
    ParseOwner(fields.rest)
  }

  function ParseFsFile(s: Bytes): Result<Parsed<FsFileHeader>, RepositoryError> {
    var owner :- ParseFsFileOwner(s);
    var common :- ParseCommon(owner.rest);
    Success(Parsed(FsFileHeader(owner.value.gid, owner.value.uid, owner.value.mode, common.value), common.rest))
  }

  predicate SizesWithinLimits(c: Common) {
    c.encodedSize <= MAX_ENCODED_CONTENT_BYTES && c.decodedSize <= MAX_DECODED_CONTENT_BYTES
  }

  /** The announced payload must be exactly what follows the prefix. */
  function CheckExtent<H>(file: Bytes, header: H, common: Common, rest: Bytes): Result<Envelope<H>, RepositoryError>
    requires |rest| <= |file|
  {
    if !SizesWithinLimits(common) then Failure(TooLarge)
    else if |file| != (|file| - |rest|) + common.encodedSize then Failure(WrongExtent)
    else Success(Envelope(header, |file| - |rest|))
  }

  // ----- Exactness of the pieces -----

  lemma Keywords()
    ensures IsAscii("kind") && IsAscii("file") && IsAscii("executable")
    ensures IsAscii("directory") && IsAscii("archive") && IsAscii("tar")
    ensures IsAscii("compression") && IsAscii("identity") && IsAscii("zstd") && IsAscii("decoded_size")
    ensures IsAscii("gid") && IsAscii("uid") && IsAscii("mode")
  {
  }

  lemma ShortTextExact(s: Bytes, text: Bytes, rest: Bytes)
    ensures ParseShortText(s) == Success(Parsed(text, rest)) <==>
            |text| <= MAX_METADATA_TEXT && ValidUtf8(text) && s == TextItem(text) + rest
  {
    TextExact(s, text, rest);
    if |text| <= MAX_METADATA_TEXT && s == TextItem(text) + rest {
      ConcatAssociative(HeadBytes(TEXT_STRING, |text|), text, rest);
      HeadExact(TEXT_STRING, s, |text|, text + rest);
    }
  }

  lemma ShortKeywordExact(s: Bytes, key: string, rest: Bytes)
    requires IsAscii(key) && |key| <= MAX_METADATA_TEXT
    ensures ParseShortText(s) == Success(Parsed(Ascii(key), rest)) <==> s == TextItem(Ascii(key)) + rest
  {
    var text := Ascii(key);
    AsciiIsUtf8(text);
    ShortTextExact(s, text, rest);
  }

  lemma ShortKeyExact(s: Bytes, key: string, rest: Bytes)
    requires IsAscii(key) && |key| <= MAX_METADATA_TEXT
    ensures ParseShortKey(s, key) == Success(Parsed((), rest)) <==> s == TextItem(Ascii(key)) + rest
  {
    ShortKeywordExact(s, key, rest);
  }

  lemma UintFieldExact(s: Bytes, key: string, limit: int, value: U64, rest: Bytes)
    requires IsAscii(key) && |key| <= MAX_METADATA_TEXT
    ensures ParseUintField(s, key, limit) == Success(Parsed(value, rest)) <==>
            value <= limit && s == TextItem(Ascii(key)) + (HeadBytes(UINT, value) + rest)
  {
    var middle := HeadBytes(UINT, value) + rest;
    if s == TextItem(Ascii(key)) + middle {
      ShortKeyExact(s, key, middle);
      HeadExact(UINT, middle, value, rest);
    }
    if ParseUintField(s, key, limit) == Success(Parsed(value, rest)) {
      var k := ParseShortKey(s, key).value;
      ShortKeyExact(s, key, k.rest);
      HeadExact(UINT, k.rest, value, rest);
    }
  }

  lemma CompressionExact(s: Bytes, c: Compression, rest: Bytes)
    ensures ParseCompression(s) == Success(Parsed(c, rest)) <==>
            s == TextItem(Ascii(CompressionName(c))) + rest
  {
    Keywords();
    assert |Ascii("identity")| == 8 && |Ascii("zstd")| == 4;
    ShortKeywordExact(s, "identity", rest);
    ShortKeywordExact(s, "zstd", rest);
  }

  lemma CompressionFieldExact(s: Bytes, c: Compression, rest: Bytes)
    ensures ParseCompressionField(s) == Success(Parsed(c, rest)) <==>
            s == TextItem(Ascii("compression")) + (TextItem(Ascii(CompressionName(c))) + rest)
  {
    Keywords();
    var middle := TextItem(Ascii(CompressionName(c))) + rest;
    if s == TextItem(Ascii("compression")) + middle {
      ShortKeyExact(s, "compression", middle);
      CompressionExact(middle, c, rest);
    }
    if ParseCompressionField(s) == Success(Parsed(c, rest)) {
      var k := ParseShortKey(s, "compression").value;
      ShortKeyExact(s, "compression", k.rest);
      CompressionExact(k.rest, c, rest);
    }
  }

  lemma CommonExact(s: Bytes, c: Common, rest: Bytes)
    ensures ParseCommon(s) == Success(Parsed(c, rest)) <==> s == CommonThen(c, rest)
  {
    Keywords();
    var s2 := HeadBytes(BYTE_STRING, c.encodedSize) + rest;
    var s1 := TextItem(Ascii("decoded_size")) + (HeadBytes(UINT, c.decodedSize) + s2);
    if s == CommonThen(c, rest) {
      CompressionFieldExact(s, c.compression, s1);
      UintFieldExact(s1, "decoded_size", 0xffff_ffff_ffff_ffff, c.decodedSize, s2);
      HeadExact(BYTE_STRING, s2, c.encodedSize, rest);
    }
    if ParseCommon(s) == Success(Parsed(c, rest)) {
      var compression := ParseCompressionField(s).value;
      var decoded := ParseUintField(compression.rest, "decoded_size", 0xffff_ffff_ffff_ffff).value;
      CompressionFieldExact(s, c.compression, compression.rest);
      UintFieldExact(compression.rest, "decoded_size", 0xffff_ffff_ffff_ffff, c.decodedSize, decoded.rest);
      HeadExact(BYTE_STRING, decoded.rest, c.encodedSize, rest);
    }
  }

  lemma BooleanExact(s: Bytes, value: bool, rest: Bytes)
    ensures ParseBoolean(s) == Success(Parsed(value, rest)) <==> s == [BooleanByte(value)] + rest
  {
  }

  lemma FileKindExact(s: Bytes, executable: bool, rest: Bytes)
    ensures ParseFileKind(s) == Success(Parsed(File(executable), rest)) <==>
            s == TextItem(Ascii("executable")) + ([BooleanByte(executable)] + rest)
  {
    Keywords();
    var middle := [BooleanByte(executable)] + rest;
    if s == TextItem(Ascii("executable")) + middle {
      ShortKeyExact(s, "executable", middle);
      BooleanExact(middle, executable, rest);
    }
    if ParseFileKind(s) == Success(Parsed(File(executable), rest)) {
      var k := ParseShortKey(s, "executable").value;
      ShortKeyExact(s, "executable", k.rest);
      BooleanExact(k.rest, executable, rest);
    }
  }

  lemma DirectoryKindExact(s: Bytes, rest: Bytes)
    ensures ParseDirectoryKind(s) == Success(Parsed(Directory, rest)) <==>
            s == TextItem(Ascii("archive")) + (TextItem(Ascii("tar")) + rest)
  {
    Keywords();
    var middle := TextItem(Ascii("tar")) + rest;
    if s == TextItem(Ascii("archive")) + middle {
      ShortKeyExact(s, "archive", middle);
      ShortKeyExact(middle, "tar", rest);
    }
    if ParseDirectoryKind(s) == Success(Parsed(Directory, rest)) {
      var k := ParseShortKey(s, "archive").value;
      ShortKeyExact(s, "archive", k.rest);
      ShortKeyExact(k.rest, "tar", rest);
    }
  }

  lemma KindComplete(kind: ObjectKind, rest: Bytes)
    ensures ParseKind(KindThen(kind, rest), 4) == Success(Parsed(kind, rest))
  {
    Keywords();
    var s := KindThen(kind, rest);
    assert |Ascii("file")| == 4 && |Ascii("directory")| == 9;
    match kind {
      case File(executable) =>
        var middle := TextItem(Ascii("executable")) + ([BooleanByte(executable)] + rest);
        ShortKeywordExact(s, "file", middle);
        FileKindExact(middle, executable, rest);
      case Directory =>
        var middle := TextItem(Ascii("archive")) + (TextItem(Ascii("tar")) + rest);
        ShortKeywordExact(s, "directory", middle);
        DirectoryKindExact(middle, rest);
    }
  }

  lemma KindSound(s: Bytes, fields: U64, kind: ObjectKind, rest: Bytes)
    requires ParseKind(s, fields) == Success(Parsed(kind, rest))
    ensures fields == 4 && s == KindThen(kind, rest)
  {
    Keywords();
    var text := ParseShortText(s).value;
    if text.value == Ascii("file") {
      ShortKeywordExact(s, "file", text.rest);
      FileKindExact(text.rest, kind.executable, rest);
    } else {
      ShortKeywordExact(s, "directory", text.rest);
      DirectoryKindExact(text.rest, rest);
    }
  }

  lemma ObjectKindExact(s: Bytes, kind: ObjectKind, rest: Bytes)
    ensures ParseObjectKind(s) == Success(Parsed(kind, rest)) <==>
            s == HeadBytes(ARRAY, 2) + (HeadBytes(MAP, 4) + (TextItem(Ascii("kind")) + KindThen(kind, rest)))
  {
    Keywords();
    var s3 := KindThen(kind, rest);
    var s2 := TextItem(Ascii("kind")) + s3;
    var s1 := HeadBytes(MAP, 4) + s2;
    if s == HeadBytes(ARRAY, 2) + s1 {
      LengthExact(s, ARRAY, 2, s1);
      HeadExact(MAP, s1, 4, s2);
      ShortKeyExact(s2, "kind", s3);
      KindComplete(kind, rest);
    }
    if ParseObjectKind(s) == Success(Parsed(kind, rest)) {
      var t1 := ParseLength(s, ARRAY, 2).value.rest;
      var fields := ParseHead(MAP, t1).value;
      var t3 := ParseShortKey(fields.rest, "kind").value.rest;
      KindSound(t3, fields.value, kind, rest);
      LengthExact(s, ARRAY, 2, t1);
      HeadExact(MAP, t1, fields.value, fields.rest);
      ShortKeyExact(fields.rest, "kind", t3);
    }
  }

  /** An object prefix parses exactly when it is the one the writer produces. */
  lemma ObjectExact(s: Bytes, h: ObjectHeader, rest: Bytes)
    ensures ParseObject(s) == Success(Parsed(h, rest)) <==> s == ObjectThen(h, rest)
  {
    if s == ObjectThen(h, rest) {
      ObjectKindExact(s, h.kind, CommonThen(h.common, rest));
      CommonExact(CommonThen(h.common, rest), h.common, rest);
    }
    if ParseObject(s) == Success(Parsed(h, rest)) {
      var kind := ParseObjectKind(s).value;
      ObjectKindExact(s, h.kind, kind.rest);
      CommonExact(kind.rest, h.common, rest);
    }
  }

  function OwnerThen(o: Owner, rest: Bytes): Bytes {
    TextItem(Ascii("gid")) + (HeadBytes(UINT, o.gid) +
    (TextItem(Ascii("uid")) + (HeadBytes(UINT, o.uid) +
    (TextItem(Ascii("mode")) + (HeadBytes(UINT, o.mode) + rest)))))
  }

  lemma OwnerExact(s: Bytes, o: Owner, rest: Bytes)
    ensures ParseOwner(s) == Success(Parsed(o, rest)) <==> s == OwnerThen(o, rest)
  {
    Keywords();
    var s2 := TextItem(Ascii("mode")) + (HeadBytes(UINT, o.mode) + rest);
    var s1 := TextItem(Ascii("uid")) + (HeadBytes(UINT, o.uid) + s2);
    if s == OwnerThen(o, rest) {
      UintFieldExact(s, "gid", 0xffff_ffff, o.gid, s1);
      UintFieldExact(s1, "uid", 0xffff_ffff, o.uid, s2);
      UintFieldExact(s2, "mode", MAX_MODE, o.mode, rest);
    }
    if ParseOwner(s) == Success(Parsed(o, rest)) {
      var t1 := ParseUintField(s, "gid", 0xffff_ffff).value.rest;
      var t2 := ParseUintField(t1, "uid", 0xffff_ffff).value.rest;
      UintFieldExact(s, "gid", 0xffff_ffff, o.gid, t1);
      UintFieldExact(t1, "uid", 0xffff_ffff, o.uid, t2);
      UintFieldExact(t2, "mode", MAX_MODE, o.mode, rest);
    }
  }

  lemma FsFileOwnerExact(s: Bytes, o: Owner, rest: Bytes)
    ensures ParseFsFileOwner(s) == Success(Parsed(o, rest)) <==>
            s == HeadBytes(ARRAY, 2) + (HeadBytes(MAP, 5) + OwnerThen(o, rest))
  {
    var s2 := OwnerThen(o, rest);
    var s1 := HeadBytes(MAP, 5) + s2;
    if s == HeadBytes(ARRAY, 2) + s1 {
      LengthExact(s, ARRAY, 2, s1);
      LengthExact(s1, MAP, 5, s2);
      OwnerExact(s2, o, rest);
    }
    if ParseFsFileOwner(s) == Success(Parsed(o, rest)) {
      var t1 := ParseLength(s, ARRAY, 2).value.rest;
      var t2 := ParseLength(t1, MAP, 5).value.rest;
      LengthExact(s, ARRAY, 2, t1);
      LengthExact(t1, MAP, 5, t2);
      OwnerExact(t2, o, rest);
    }
  }

  /** A filesystem-file prefix parses exactly when it is the one the writer produces. */
  lemma FsFileExact(s: Bytes, h: FsFileHeader, rest: Bytes)
    ensures ParseFsFile(s) == Success(Parsed(h, rest)) <==> s == FsFileThen(h, rest)
  {
    var o := Owner(h.gid, h.uid, h.mode);
    if s == FsFileThen(h, rest) {
      FsFileOwnerExact(s, o, CommonThen(h.common, rest));
      CommonExact(CommonThen(h.common, rest), h.common, rest);
    }
    if ParseFsFile(s) == Success(Parsed(h, rest)) {
      var owner := ParseFsFileOwner(s).value;
      FsFileOwnerExact(s, o, owner.rest);
      CommonExact(owner.rest, h.common, rest);
    }
  }

  // ----- Whole files -----

  function ParseObjectEnvelope(file: Bytes): Result<Envelope<ObjectHeader>, RepositoryError> {
    if |file| > MAX_ENCODED_CONTENT_BYTES then Failure(TooLarge)
    else
      var header :- ParseObject(file);
      ObjectExact(file, header.value, header.rest);
      CheckExtent(file, header.value, header.value.common, header.rest)
  }

  function ParseFsFileEnvelope(file: Bytes): Result<Envelope<FsFileHeader>, RepositoryError> {
    if |file| > MAX_ENCODED_CONTENT_BYTES then Failure(TooLarge)
    else
      var header :- ParseFsFile(file);
      FsFileExact(file, header.value, header.rest);
      CheckExtent(file, header.value, header.value.common, header.rest)
  }

  function ObjectPrefix(h: ObjectHeader): Bytes {
    ObjectThen(h, [])
  }

  function FsFilePrefix(h: FsFileHeader): Bytes {
    FsFileThen(h, [])
  }

  lemma CommonSplits(c: Common, rest: Bytes)
    ensures CommonThen(c, rest) == CommonThen(c, []) + rest
  {
    var e := HeadBytes(BYTE_STRING, c.encodedSize);
    var d := HeadBytes(UINT, c.decodedSize) + (e + []);
    var k := TextItem(Ascii("decoded_size")) + d;
    var n := TextItem(Ascii(CompressionName(c.compression))) + k;
    assert e + [] == e;
    ConcatAssociative(HeadBytes(UINT, c.decodedSize), e, rest);
    ConcatAssociative(TextItem(Ascii("decoded_size")), d, rest);
    ConcatAssociative(TextItem(Ascii(CompressionName(c.compression))), k, rest);
    ConcatAssociative(TextItem(Ascii("compression")), n, rest);
  }

  lemma KindSplits(kind: ObjectKind, middle: Bytes, rest: Bytes)
    ensures KindThen(kind, middle + rest) == KindThen(kind, middle) + rest
  {
    match kind {
      case File(executable) =>
        var b := [BooleanByte(executable)];
        ConcatAssociative(b, middle, rest);
        ConcatAssociative(TextItem(Ascii("executable")), b + middle, rest);
        ConcatAssociative(TextItem(Ascii("file")), TextItem(Ascii("executable")) + (b + middle), rest);
      case Directory =>
        var t := TextItem(Ascii("tar"));
        ConcatAssociative(t, middle, rest);
        ConcatAssociative(TextItem(Ascii("archive")), t + middle, rest);
        ConcatAssociative(TextItem(Ascii("directory")), TextItem(Ascii("archive")) + (t + middle), rest);
    }
  }

  lemma ObjectSplits(h: ObjectHeader, rest: Bytes)
    ensures ObjectThen(h, rest) == ObjectPrefix(h) + rest
  {
    var c := CommonThen(h.common, []);
    CommonSplits(h.common, rest);
    KindSplits(h.kind, c, rest);
    var k := TextItem(Ascii("kind")) + KindThen(h.kind, c);
    ConcatAssociative(TextItem(Ascii("kind")), KindThen(h.kind, c), rest);
    ConcatAssociative(HeadBytes(MAP, 4), k, rest);
    ConcatAssociative(HeadBytes(ARRAY, 2), HeadBytes(MAP, 4) + k, rest);
  }

  lemma OwnerSplits(o: Owner, middle: Bytes, rest: Bytes)
    ensures OwnerThen(o, middle + rest) == OwnerThen(o, middle) + rest
  {
    var m := HeadBytes(UINT, o.mode) + middle;
    var mk := TextItem(Ascii("mode")) + m;
    var u := HeadBytes(UINT, o.uid) + mk;
    var uk := TextItem(Ascii("uid")) + u;
    var g := HeadBytes(UINT, o.gid) + uk;
    ConcatAssociative(HeadBytes(UINT, o.mode), middle, rest);
    ConcatAssociative(TextItem(Ascii("mode")), m, rest);
    ConcatAssociative(HeadBytes(UINT, o.uid), mk, rest);
    ConcatAssociative(TextItem(Ascii("uid")), u, rest);
    ConcatAssociative(HeadBytes(UINT, o.gid), uk, rest);
    ConcatAssociative(TextItem(Ascii("gid")), g, rest);
  }

  lemma FsFileSplits(h: FsFileHeader, rest: Bytes)
    ensures FsFileThen(h, rest) == FsFilePrefix(h) + rest
  {
    var o, c := Owner(h.gid, h.uid, h.mode), CommonThen(h.common, []);
    CommonSplits(h.common, rest);
    OwnerSplits(o, c, rest);
    ConcatAssociative(HeadBytes(MAP, 5), OwnerThen(o, c), rest);
    ConcatAssociative(HeadBytes(ARRAY, 2), HeadBytes(MAP, 5) + OwnerThen(o, c), rest);
  }

  /** A file of this total size is a prefix and exactly the payload it announces. */
  predicate IsEnvelope(file: Bytes, prefix: Bytes, common: Common, offset: nat) {
    && |file| <= MAX_ENCODED_CONTENT_BYTES && SizesWithinLimits(common)
    && prefix <= file && offset == |prefix| && |file| == |prefix| + common.encodedSize
  }

  /** An object file is accepted if and only if it is the writer's prefix followed by its payload. */
  lemma ObjectEnvelopeExact(file: Bytes, h: ObjectHeader, offset: nat)
    ensures ParseObjectEnvelope(file) == Success(Envelope(h, offset)) <==>
            IsEnvelope(file, ObjectPrefix(h), h.common, offset)
  {
    if IsEnvelope(file, ObjectPrefix(h), h.common, offset) {
      WrittenObjectIsAccepted(file, h, offset);
    }
    if ParseObjectEnvelope(file) == Success(Envelope(h, offset)) {
      AcceptedObjectIsWritten(file, h, offset);
    }
  }

  lemma WrittenObjectIsAccepted(file: Bytes, h: ObjectHeader, offset: nat)
    requires IsEnvelope(file, ObjectPrefix(h), h.common, offset)
    ensures ParseObjectEnvelope(file) == Success(Envelope(h, offset))
  {
    var rest := file[|ObjectPrefix(h)|..];
    assert file == ObjectThen(h, rest) by {
      ObjectSplits(h, rest);
      assert file == ObjectPrefix(h) + rest;
    }
    ObjectExact(file, h, rest);
    ObjectExtent(file, h, rest);
  }

  lemma ObjectExtent(file: Bytes, h: ObjectHeader, rest: Bytes)
    requires |file| <= MAX_ENCODED_CONTENT_BYTES && |rest| <= |file| && ParseObject(file) == Success(Parsed(h, rest))
    ensures ParseObjectEnvelope(file) == CheckExtent(file, h, h.common, rest)
  {
  }

  lemma AcceptedObjectIsWritten(file: Bytes, h: ObjectHeader, offset: nat)
    requires ParseObjectEnvelope(file) == Success(Envelope(h, offset))
    ensures IsEnvelope(file, ObjectPrefix(h), h.common, offset)
  {
    var rest := ParseObject(file).value.rest;
    ObjectExact(file, h, rest);
    ObjectSplits(h, rest);
  }

  /** The same for filesystem files. */
  lemma FsFileEnvelopeExact(file: Bytes, h: FsFileHeader, offset: nat)
    ensures ParseFsFileEnvelope(file) == Success(Envelope(h, offset)) <==>
            IsEnvelope(file, FsFilePrefix(h), h.common, offset)
  {
    if IsEnvelope(file, FsFilePrefix(h), h.common, offset) {
      WrittenFsFileIsAccepted(file, h, offset);
    }
    if ParseFsFileEnvelope(file) == Success(Envelope(h, offset)) {
      AcceptedFsFileIsWritten(file, h, offset);
    }
  }

  lemma WrittenFsFileIsAccepted(file: Bytes, h: FsFileHeader, offset: nat)
    requires IsEnvelope(file, FsFilePrefix(h), h.common, offset)
    ensures ParseFsFileEnvelope(file) == Success(Envelope(h, offset))
  {
    var rest := file[|FsFilePrefix(h)|..];
    assert file == FsFileThen(h, rest) by {
      FsFileSplits(h, rest);
      assert file == FsFilePrefix(h) + rest;
    }
    FsFileExact(file, h, rest);
    FsFileExtent(file, h, rest);
  }

  lemma FsFileExtent(file: Bytes, h: FsFileHeader, rest: Bytes)
    requires |file| <= MAX_ENCODED_CONTENT_BYTES && |rest| <= |file| && ParseFsFile(file) == Success(Parsed(h, rest))
    ensures ParseFsFileEnvelope(file) == CheckExtent(file, h, h.common, rest)
  {
  }

  lemma AcceptedFsFileIsWritten(file: Bytes, h: FsFileHeader, offset: nat)
    requires ParseFsFileEnvelope(file) == Success(Envelope(h, offset))
    ensures IsEnvelope(file, FsFilePrefix(h), h.common, offset)
  {
    var rest := ParseFsFile(file).value.rest;
    FsFileExact(file, h, rest);
    FsFileSplits(h, rest);
  }

  // ----- Writing and reading back -----

  /** What the writer leaves on disk; it checks the two sizes, not the length of the whole file. */
  function EncodeObject(kind: ObjectKind, compression: Compression, decodedSize: U64, payload: Bytes): Option<Bytes>
    requires |payload| < 0x1_0000_0000_0000_0000
  {
    var common := Common(compression, decodedSize, |payload|);
    if SizesWithinLimits(common) then Some(ObjectPrefix(ObjectHeader(kind, common)) + payload) else None
  }

  function EncodeFsFile(o: Owner, compression: Compression, decodedSize: U64, payload: Bytes): Option<Bytes>
    requires |payload| < 0x1_0000_0000_0000_0000
  {
    var common := Common(compression, decodedSize, |payload|);
    if SizesWithinLimits(common) then Some(FsFilePrefix(FsFileHeader(o.gid, o.uid, o.mode, common)) + payload) else None
  }

  /**
    A written object reads back, with its payload at the announced offset, if and only if the
    whole file is within the limit that the writer applies to the payload alone.
   */
  lemma ObjectRoundTrip(kind: ObjectKind, compression: Compression, decodedSize: U64, payload: Bytes)
    requires |payload| < 0x1_0000_0000_0000_0000
    requires EncodeObject(kind, compression, decodedSize, payload).Some?
    ensures var file := EncodeObject(kind, compression, decodedSize, payload).value;
            var h := ObjectHeader(kind, Common(compression, decodedSize, |payload|));
            && (ParseObjectEnvelope(file).Success? <==> |file| <= MAX_ENCODED_CONTENT_BYTES)
            && (ParseObjectEnvelope(file).Success? ==>
                  && ParseObjectEnvelope(file) == Success(Envelope(h, |ObjectPrefix(h)|))
                  && file[|ObjectPrefix(h)|..] == payload)
  {
    var file := EncodeObject(kind, compression, decodedSize, payload).value;
    var h := ObjectHeader(kind, Common(compression, decodedSize, |payload|));
    ObjectEnvelopeExact(file, h, |ObjectPrefix(h)|);
  }

  lemma FsFileRoundTrip(o: Owner, compression: Compression, decodedSize: U64, payload: Bytes)
    requires |payload| < 0x1_0000_0000_0000_0000
    requires EncodeFsFile(o, compression, decodedSize, payload).Some?
    ensures var file := EncodeFsFile(o, compression, decodedSize, payload).value;
            var h := FsFileHeader(o.gid, o.uid, o.mode, Common(compression, decodedSize, |payload|));
            && (ParseFsFileEnvelope(file).Success? <==> |file| <= MAX_ENCODED_CONTENT_BYTES)
            && (ParseFsFileEnvelope(file).Success? ==>
                  && ParseFsFileEnvelope(file) == Success(Envelope(h, |FsFilePrefix(h)|))
                  && file[|FsFilePrefix(h)|..] == payload)
  {
    var file := EncodeFsFile(o, compression, decodedSize, payload).value;
    var h := FsFileHeader(o.gid, o.uid, o.mode, Common(compression, decodedSize, |payload|));
    FsFileEnvelopeExact(file, h, |FsFilePrefix(h)|);
  }

  /** The writer's own limit is not enough: a payload of the largest permitted size never reads back. */
  lemma LargestPayloadIsUnreadable(kind: ObjectKind, compression: Compression, decodedSize: U64, payload: Bytes)
    requires |payload| == MAX_ENCODED_CONTENT_BYTES && decodedSize <= MAX_DECODED_CONTENT_BYTES
    ensures EncodeObject(kind, compression, decodedSize, payload).Some?
    ensures ParseObjectEnvelope(EncodeObject(kind, compression, decodedSize, payload).value).Failure?
  {
    ObjectRoundTrip(kind, compression, decodedSize, payload);
  }

  // ----- The statement-by-statement writer and reader -----

  method WriteCommon(output: Encoder, c: Common, ghost rest: Bytes)
    modifies output
    ensures output.bytes + rest == old(output.bytes) + CommonThen(c, rest)
  {
    ghost var e := HeadBytes(BYTE_STRING, c.encodedSize) + rest;
    ghost var d := HeadBytes(UINT, c.decodedSize) + e;
    ghost var n := TextItem(Ascii(CompressionName(c.compression))) + (TextItem(Ascii("decoded_size")) + d);
    output.TextString(Ascii("compression"), n);
    output.TextString(Ascii(CompressionName(c.compression)), TextItem(Ascii("decoded_size")) + d);
    output.TextString(Ascii("decoded_size"), d);
    output.Head(UINT, c.decodedSize, e);
    output.Head(BYTE_STRING, c.encodedSize, rest);
  }

  method WriteObjectPrefix(output: Encoder, h: ObjectHeader, ghost rest: Bytes)
    modifies output
    ensures output.bytes + rest == old(output.bytes) + ObjectThen(h, rest)
  {
    ghost var c := CommonThen(h.common, rest);
    ghost var k := KindThen(h.kind, c);
    output.Head(ARRAY, 2, HeadBytes(MAP, 4) + (TextItem(Ascii("kind")) + k));
    output.Head(MAP, 4, TextItem(Ascii("kind")) + k);
    output.TextString(Ascii("kind"), k);
    match h.kind {
      case File(executable) =>
        ghost var b := [BooleanByte(executable)] + c;
        output.TextString(Ascii("file"), TextItem(Ascii("executable")) + b);
        output.TextString(Ascii("executable"), b);
        output.Raw(BooleanByte(executable), c);
      case Directory =>
        ghost var t := TextItem(Ascii("tar")) + c;
        output.TextString(Ascii("directory"), TextItem(Ascii("archive")) + t);
        output.TextString(Ascii("archive"), t);
        output.TextString(Ascii("tar"), c);
    }
    WriteCommon(output, h.common, rest);
  }

  method WriteFsFilePrefix(output: Encoder, h: FsFileHeader, ghost rest: Bytes)
    modifies output
    ensures output.bytes + rest == old(output.bytes) + FsFileThen(h, rest)
  {
    ghost var c := CommonThen(h.common, rest);
    ghost var m := HeadBytes(UINT, h.mode) + c;
    ghost var u := HeadBytes(UINT, h.uid) + (TextItem(Ascii("mode")) + m);
    ghost var g := HeadBytes(UINT, h.gid) + (TextItem(Ascii("uid")) + u);
    output.Head(ARRAY, 2, HeadBytes(MAP, 5) + (TextItem(Ascii("gid")) + g));
    output.Head(MAP, 5, TextItem(Ascii("gid")) + g);
    output.TextString(Ascii("gid"), g);
    output.Head(UINT, h.gid, TextItem(Ascii("uid")) + u);
    output.TextString(Ascii("uid"), u);
    output.Head(UINT, h.uid, TextItem(Ascii("mode")) + m);
    output.TextString(Ascii("mode"), m);
    output.Head(UINT, h.mode, c);
    WriteCommon(output, h.common, rest);
  }
}
