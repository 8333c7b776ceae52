/** The streaming envelope reader: it consumes a file from its start and keeps its position. */
module ContentReader {
  import opened Wrappers
  import opened Cbor
  import opened CborCodec
  import opened Content

  method ReadShortText(input: Decoder) returns (r: Result<Bytes, RepositoryError>)
    requires input.Valid()
    modifies input
    ensures input.Valid() && input.Agrees(r, ParseShortText(old(input.Rest())))
  {
    var length :- input.Head(TEXT_STRING);
    if length > MAX_METADATA_TEXT {
      return Failure(TextTooLong);
    }
    var text :- input.Take(length);
    if !ValidUtf8(text) {
      return Failure(InvalidUtf8);
    }
    return Success(text);
  }

  method RequireText(input: Decoder, expected: string) returns (r: Result<(), RepositoryError>)
    requires input.Valid()
    modifies input
    ensures input.Valid() && input.Agrees(r, ParseShortKey(old(input.Rest()), expected))
  {
    var text :- ReadShortText(input);
    if text != Ascii(expected) {
      return Failure(WrongKey);
    }
    return Success(());
  }

  method ReadUintField(input: Decoder, key: string, limit: int) returns (r: Result<U64, RepositoryError>)
    requires input.Valid()
    modifies input
    ensures input.Valid() && input.Agrees(r, ParseUintField(old(input.Rest()), key, limit))
  {
    var _ :- RequireText(input, key);
    var n :- input.Head(UINT);
    if n > limit {
      return Failure(OutOfRange);
    }
    return Success(n);
  }

  method ReadCompression(input: Decoder) returns (r: Result<Compression, RepositoryError>)
    requires input.Valid()
    modifies input
    ensures input.Valid() && input.Agrees(r, ParseCompressionField(old(input.Rest())))
  {
    var _ :- RequireText(input, "compression");
    var name :- ReadShortText(input);
    if name == Ascii("identity") {
      return Success(Identity);
    } else if name == Ascii("zstd") {
      return Success(Zstd);
    }
    return Failure(UnknownKeyword);
  }

  method ReadCommon(input: Decoder) returns (r: Result<Common, RepositoryError>)
    requires input.Valid()
    modifies input
    ensures input.Valid() && input.Agrees(r, ParseCommon(old(input.Rest())))
  {
    var compression :- ReadCompression(input);
    var decoded :- ReadUintField(input, "decoded_size", 0xffff_ffff_ffff_ffff);
    var encoded :- input.Head(BYTE_STRING);
    return Success(Common(compression, decoded, encoded));
  }

  method ReadBoolean(input: Decoder) returns (r: Result<bool, RepositoryError>)
    requires input.Valid()
    modifies input
    ensures input.Valid() && input.Agrees(r, ParseBoolean(old(input.Rest())))
  {
    var taken :- input.Take(1);
    if taken[0] == 0xf4 {
      return Success(false);
    } else if taken[0] == 0xf5 {
      return Success(true);
    }
    return Failure(UnknownKeyword);
  }

  method ReadFileKind(input: Decoder) returns (r: Result<ObjectKind, RepositoryError>)
    requires input.Valid()
    modifies input
    ensures input.Valid() && input.Agrees(r, ParseFileKind(old(input.Rest())))
  {
    var _ :- RequireText(input, "executable");
    var executable :- ReadBoolean(input);
    return Success(File(executable));
  }

  method ReadDirectoryKind(input: Decoder) returns (r: Result<ObjectKind, RepositoryError>)
    requires input.Valid()
    modifies input
    ensures input.Valid() && input.Agrees(r, ParseDirectoryKind(old(input.Rest())))
  {
    var _ :- RequireText(input, "archive");
    var _ :- RequireText(input, "tar");
    return Success(Directory);
  }

  method ReadKind(input: Decoder, fields: U64) returns (r: Result<ObjectKind, RepositoryError>)
    requires input.Valid()
    modifies input
    ensures input.Valid() && input.Agrees(r, ParseKind(old(input.Rest()), fields))
  {
    var name :- ReadShortText(input);
    if name != Ascii("file") && name != Ascii("directory") {
      return Failure(UnknownKeyword);
    }
    if fields != 4 {
      return Failure(WrongLength);
    }
    if name == Ascii("file") {
      r := ReadFileKind(input);
    } else {
      r := ReadDirectoryKind(input);
    }
  }

  method ReadObjectKind(input: Decoder) returns (r: Result<ObjectKind, RepositoryError>)
    requires input.Valid()
    modifies input
    ensures input.Valid() && input.Agrees(r, ParseObjectKind(old(input.Rest())))
  {
    var _ :- input.RequireLength(ARRAY, 2);
    var fields :- input.Head(MAP);
    var _ :- RequireText(input, "kind");
    r := ReadKind(input, fields);
  }

  method ReadOwner(input: Decoder) returns (r: Result<Owner, RepositoryError>)
    requires input.Valid()
    modifies input
    ensures input.Valid() && input.Agrees(r, ParseOwner(old(input.Rest())))
  {
    var gid :- ReadUintField(input, "gid", 0xffff_ffff);
    var uid :- ReadUintField(input, "uid", 0xffff_ffff);
    var mode :- ReadUintField(input, "mode", MAX_MODE);
    return Success(Owner(gid, uid, mode));
  }

  method ReadFsFileOwner(input: Decoder) returns (r: Result<Owner, RepositoryError>)
    requires input.Valid()
    modifies input
    ensures input.Valid() && input.Agrees(r, ParseFsFileOwner(old(input.Rest())))
  {
    var _ :- input.RequireLength(ARRAY, 2);
    var _ :- input.RequireLength(MAP, 5);
    r := ReadOwner(input);
  }

  method ReadObject(input: Decoder) returns (r: Result<ObjectHeader, RepositoryError>)
    requires input.Valid()
    modifies input
    ensures input.Valid() && input.Agrees(r, ParseObject(old(input.Rest())))
  {
    var kind :- ReadObjectKind(input);
    var common :- ReadCommon(input);
    return Success(ObjectHeader(kind, common));
  }

  method ReadFsFile(input: Decoder) returns (r: Result<FsFileHeader, RepositoryError>)
    requires input.Valid()
    modifies input
    ensures input.Valid() && input.Agrees(r, ParseFsFile(old(input.Rest())))
  {
    var owner :- ReadFsFileOwner(input);
    var common :- ReadCommon(input);
    return Success(FsFileHeader(owner.gid, owner.uid, owner.mode, common));
  }

  method ValidatePayloadExtent<H>(input: Decoder, header: H, common: Common)
    returns (r: Result<Envelope<H>, RepositoryError>)
    requires input.Valid()
    ensures r == CheckExtent(input.bytes, header, common, input.Rest())
  {
    if !SizesWithinLimits(common) {
      return Failure(TooLarge);
    }
    if |input.bytes| != input.offset + common.encodedSize {
      return Failure(WrongExtent);
    }
    return Success(Envelope(header, input.offset));
  }

  method OpenObjectEnvelope(file: Bytes) returns (r: Result<Envelope<ObjectHeader>, RepositoryError>)
    ensures r == ParseObjectEnvelope(file)
  {
    if |file| > MAX_ENCODED_CONTENT_BYTES {
      return Failure(TooLarge);
    }
    var input := new Decoder(file);
    var header :- ReadObject(input);
    r := ValidatePayloadExtent(input, header, header.common);
  }

  method OpenFsFileEnvelope(file: Bytes) returns (r: Result<Envelope<FsFileHeader>, RepositoryError>)
    ensures r == ParseFsFileEnvelope(file)
  {
    if |file| > MAX_ENCODED_CONTENT_BYTES {
      return Failure(TooLarge);
    }
    var input := new Decoder(file);
    var header :- ReadFsFile(input);
    r := ValidatePayloadExtent(input, header, header.common);
  }
}
