/**
  The repository master payload: one immutable list of slot states with the base URL of
  the data they describe, in deterministic CBOR.
 */
module Master {
  import opened Wrappers
  import opened Text
  import opened Cbor
  import opened CborCodec

  const MAX_MASTER_BYTES := 4 * 1024 * 1024
  const MIN_ENCODED_SLOT_BYTES := 193
  const REPOSITORY_FORMAT: U64 := 1

  type Hash = b: Bytes | |b| == 32 witness seq(32, i => 0)

  datatype Slot = Slot(
    serial: U64,
    build: Hash,
    reuse: Hash,
    objectList: Hash,
    fileList: Hash,
    retainUntil: Option<U64>)

  /** A parsed URL is represented by its normalised text. */
  datatype Url = Url(text: Bytes)

  /** The URL parser, and the test that a URL is an acceptable data base. */
  datatype UrlLibrary = UrlLibrary(parse: Bytes -> Option<Url>, isDataBase: Url -> bool)

  /** Normalised text is UTF-8 and parses to the URL it came from. */
  ghost predicate Normalises(lib: UrlLibrary) {
    forall text | lib.parse(text).Some? ::
      && lib.parse(lib.parse(text).value.text) == lib.parse(text)
      && ValidUtf8(lib.parse(text).value.text)
      && |lib.parse(text).value.text| < 0x1_0000_0000_0000_0000
  }

  function ParseUrl(lib: UrlLibrary, text: Bytes): Option<Url> {
    lib.parse(text)
  }

  predicate IsDataBase(lib: UrlLibrary, url: Url) {
    lib.isDataBase(url)
  }

  datatype Tail = Tail(url: Url, previous: Option<Hash>)

  datatype Master = Master(previous: Option<Hash>, url: Url, slots: seq<Slot>)

  // ----- Validation -----

  predicate Increasing(slots: seq<Slot>) {
    forall i, j | 0 <= i < j < |slots| :: slots[i].serial < slots[j].serial
  }

  predicate HasCurrent(slots: seq<Slot>) {
    exists i | 0 <= i < |slots| :: slots[i].retainUntil.None?
  }

  predicate ValidMaster(lib: UrlLibrary, m: Master) {
    IsDataBase(lib, m.url) && Increasing(m.slots) && HasCurrent(m.slots)
  }

  /** Compares neighbours only; that is enough for the whole list to be increasing. */
  method Validate(lib: UrlLibrary, m: Master) returns (ok: bool)
    ensures ok <==> ValidMaster(lib, m)
  {
    if !IsDataBase(lib, m.url) || m.slots == [] {
      return false;
    }
    var previous: Option<U64> := None;
    var hasCurrent := false;
    for i := 0 to |m.slots|
      invariant Increasing(m.slots[..i])
      invariant previous == if i == 0 then None else Some(m.slots[i - 1].serial)
      invariant hasCurrent <==> HasCurrent(m.slots[..i])
    {
      var slot := m.slots[i];
      if previous.Some? && slot.serial <= previous.value {
        return false;
      }
      assert m.slots[..i + 1] == m.slots[..i] + [slot];
      assert HasCurrent(m.slots[..i + 1]) <==> HasCurrent(m.slots[..i]) || slot.retainUntil.None? by {
        if slot.retainUntil.None? {
          assert m.slots[..i + 1][i].retainUntil.None?;
        }
        if HasCurrent(m.slots[..i]) {
          var k :| 0 <= k < i && m.slots[..i][k].retainUntil.None?;
          assert m.slots[..i + 1][k].retainUntil.None?;
        }
      }
      previous := Some(slot.serial);
      hasCurrent := hasCurrent || slot.retainUntil.None?;
    }
    assert m.slots[..|m.slots|] == m.slots;
    return hasCurrent;
  }

  // ----- Wire form of a slot -----

  /** A slot followed by `rest`, item by item in wire order. */
  function SlotThen(slot: Slot, rest: Bytes): Bytes {
    HeadBytes(MAP, 6) +
    (TextItem(Ascii("build")) + (BytesItem(slot.build) +
    (TextItem(Ascii("reuse")) + (BytesItem(slot.reuse) +
    (TextItem(Ascii("serial")) + (HeadBytes(UINT, slot.serial) +
    (TextItem(Ascii("file_list")) + (BytesItem(slot.fileList) +
    (TextItem(Ascii("object_list")) + (BytesItem(slot.objectList) +
    (TextItem(Ascii("retain_until")) + (OptionalUint(slot.retainUntil) +
    rest))))))))))))
  }

  function SlotsThen(slots: seq<Slot>, rest: Bytes): Bytes {
    ManyThen(SlotThen, slots, rest)
  }

  /** A whole payload whose URL is spelled `text`. */
  function PayloadWith(m: Master, text: Bytes): Bytes
    requires |m.slots| < 0x1_0000_0000_0000_0000 && |text| < 0x1_0000_0000_0000_0000
  {
    HeadBytes(MAP, 4) +
    (TextItem(Ascii("slots")) + (HeadBytes(ARRAY, |m.slots|) +
    SlotsThen(m.slots, TailWith(m.previous, text))))
  }

  /** What follows the slots: the URL, the format number and the previous master's digest. */
  function TailWith(previous: Option<Hash>, text: Bytes): Bytes
    requires |text| < 0x1_0000_0000_0000_0000
  {
    TextItem(Ascii("data_base_url")) + (TextItem(text) + EndThen(previous, []))
  }

  function EndThen(previous: Option<Hash>, rest: Bytes): Bytes {
    TextItem(Ascii("repository_format")) + (HeadBytes(UINT, REPOSITORY_FORMAT) +
    (TextItem(Ascii("previous_master_hash")) + (OptionalBytes(previous) + rest)))
  }

  function PayloadBytes(m: Master): Bytes
    requires |m.slots| < 0x1_0000_0000_0000_0000 && |m.url.text| < 0x1_0000_0000_0000_0000
  {
    PayloadWith(m, m.url.text)
  }

  // ----- Parsing -----

  function ParseHash(s: Bytes): Result<Parsed<Hash>, RepositoryError> {
    var data :- ParseBytes(s);
    if |data.value| == 32 then Success(Parsed(data.value, data.rest)) else Failure(BadHash)
  }

  function ParseHashField(s: Bytes, key: string): Result<Parsed<Hash>, RepositoryError> {
    var k :- ParseKey(s, key);
    ParseHash(k.rest)
  }

  function ParseSerial(s: Bytes): Result<Parsed<U64>, RepositoryError> {
    var k :- ParseKey(s, "serial");
    ParseHead(UINT, k.rest)
  }

  function ParseRetain(s: Bytes): Result<Parsed<Option<U64>>, RepositoryError> {
    var k :- ParseKey(s, "retain_until");
    ParseOptionalUint(k.rest)
  }

  function ParseSlot(s: Bytes): Result<Parsed<Slot>, RepositoryError> {
    var head :- ParseLength(s, MAP, 6);
    var build :- ParseHashField(head.rest, "build");
    var reuse :- ParseHashField(build.rest, "reuse");
    var serial :- ParseSerial(reuse.rest);
    var fileList :- ParseHashField(serial.rest, "file_list");
    var objectList :- ParseHashField(fileList.rest, "object_list");
    var retain :- ParseRetain(objectList.rest);
    Success(Parsed(
      Slot(serial.value, build.value, reuse.value, objectList.value, fileList.value, retain.value), retain.rest))
  }

  function ParseSlots(s: Bytes, count: nat): (r: Result<Parsed<seq<Slot>>, RepositoryError>)
    ensures r.Success? ==> |r.value.value| == count
  {
    ParseMany(ParseSlot, s, count)
  }

  function ParseUrlField(lib: UrlLibrary, s: Bytes): Result<Parsed<Url>, RepositoryError> {
    var k :- ParseKey(s, "data_base_url");
    var text :- ParseText(k.rest);
    match ParseUrl(lib, text.value)
    case None => Failure(BadUrl)
    case Some(url) => Success(Parsed(url, text.rest))
  }

  function ParseFormat(s: Bytes): Result<Parsed<()>, RepositoryError> {
    var k :- ParseKey(s, "repository_format");
    var format :- ParseHead(UINT, k.rest);
    if format.value == REPOSITORY_FORMAT then Success(Parsed((), format.rest)) else Failure(UnsupportedFormat)
  }

  function ParsePrevious(s: Bytes): Result<Parsed<Option<Hash>>, RepositoryError> {
    var k :- ParseKey(s, "previous_master_hash");
    var previous :- ParseOptionalBytes(k.rest);
    match previous.value
    case None => Success(Parsed(None, previous.rest))
    case Some(data) => if |data| == 32 then Success(Parsed(Some(data), previous.rest)) else Failure(BadHash)
  }

  /** The payload after its URL. */
  function ParseEnd(s: Bytes): Result<Parsed<Option<Hash>>, RepositoryError> {
    var format :- ParseFormat(s);
    ParsePrevious(format.rest)
  }

  /** The payload after its slot list. */
  function ParseTail(lib: UrlLibrary, s: Bytes): Result<Parsed<Tail>, RepositoryError> {
    var url :- ParseUrlField(lib, s);
    var previous :- ParseEnd(url.rest);
    Success(Parsed(Tail(url.value, previous.value), previous.rest))
  }

  /** The payload up to and including the head of its slot list. */
  function ParseSlotCount(s: Bytes): Result<Parsed<U64>, RepositoryError> {
    var head :- ParseLength(s, MAP, 4);
    var key :- ParseKey(head.rest, "slots");
    ParseHead(ARRAY, key.rest)
  }

  function ParsePayload(lib: UrlLibrary, bytes: Bytes): Result<Master, RepositoryError> {
    if |bytes| > MAX_MASTER_BYTES then Failure(TooLarge)
    else
      var count :- ParseSlotCount(bytes);
      if count.value > |count.rest| / MIN_ENCODED_SLOT_BYTES then Failure(TooManySlots)
      else
        var slots :- ParseSlots(count.rest, count.value);
        var tail :- ParseTail(lib, slots.rest);
        if tail.rest != [] then Failure(TrailingBytes)
        else
          var m := Master(tail.value.previous, tail.value.url, slots.value);
          if ValidMaster(lib, m) then Success(m) else Failure(InvalidMaster)
  }

  // ----- Exactness of the pieces -----

  lemma Keywords()
    ensures IsAscii("build") && IsAscii("reuse") && IsAscii("serial")
    ensures IsAscii("file_list") && IsAscii("object_list") && IsAscii("retain_until")
    ensures IsAscii("slots") && IsAscii("data_base_url")
    ensures IsAscii("repository_format") && IsAscii("previous_master_hash")
  {
  }

  lemma HashExact(s: Bytes, hash: Hash, rest: Bytes)
    ensures ParseHash(s) == Success(Parsed(hash, rest)) <==> s == BytesItem(hash) + rest
  {
    BytesExact(s, hash, rest);
  }

  lemma HashFieldExact(s: Bytes, key: string, hash: Hash, rest: Bytes)
    requires IsAscii(key) && |key| < 0x1_0000_0000_0000_0000
    ensures ParseHashField(s, key) == Success(Parsed(hash, rest)) <==>
            s == TextItem(Ascii(key)) + (BytesItem(hash) + rest)
  {
    var middle := BytesItem(hash) + rest;
    KeyExact(s, key, middle);
    HashExact(middle, hash, rest);
    if ParseHashField(s, key) == Success(Parsed(hash, rest)) {
      var k := ParseKey(s, key).value;
      KeyExact(s, key, k.rest);
      HashExact(k.rest, hash, rest);
    }
  }

  lemma SerialExact(s: Bytes, serial: U64, rest: Bytes)
    ensures ParseSerial(s) == Success(Parsed(serial, rest)) <==>
            s == TextItem(Ascii("serial")) + (HeadBytes(UINT, serial) + rest)
  {
    Keywords();
    var middle := HeadBytes(UINT, serial) + rest;
    KeyExact(s, "serial", middle);
    HeadExact(UINT, middle, serial, rest);
    if ParseSerial(s) == Success(Parsed(serial, rest)) {
      var k := ParseKey(s, "serial").value;
      KeyExact(s, "serial", k.rest);
      HeadExact(UINT, k.rest, serial, rest);
    }
  }

  lemma RetainExact(s: Bytes, retain: Option<U64>, rest: Bytes)
    ensures ParseRetain(s) == Success(Parsed(retain, rest)) <==>
            s == TextItem(Ascii("retain_until")) + (OptionalUint(retain) + rest)
  {
    Keywords();
    var middle := OptionalUint(retain) + rest;
    KeyExact(s, "retain_until", middle);
    OptionalUintExact(middle, retain, rest);
    if ParseRetain(s) == Success(Parsed(retain, rest)) {
      var k := ParseKey(s, "retain_until").value;
      KeyExact(s, "retain_until", k.rest);
      OptionalUintExact(k.rest, retain, rest);
    }
  }

  lemma SlotComplete(slot: Slot, rest: Bytes)
    ensures ParseSlot(SlotThen(slot, rest)) == Success(Parsed(slot, rest))
  {
    Keywords();
    var s6 := TextItem(Ascii("retain_until")) + (OptionalUint(slot.retainUntil) + rest);
    var s5 := TextItem(Ascii("object_list")) + (BytesItem(slot.objectList) + s6);
    var s4 := TextItem(Ascii("file_list")) + (BytesItem(slot.fileList) + s5);
    var s3 := TextItem(Ascii("serial")) + (HeadBytes(UINT, slot.serial) + s4);
    var s2 := TextItem(Ascii("reuse")) + (BytesItem(slot.reuse) + s3);
    var s1 := TextItem(Ascii("build")) + (BytesItem(slot.build) + s2);
    LengthExact(SlotThen(slot, rest), MAP, 6, s1);
    HashFieldExact(s1, "build", slot.build, s2);
    HashFieldExact(s2, "reuse", slot.reuse, s3);
    SerialExact(s3, slot.serial, s4);
    HashFieldExact(s4, "file_list", slot.fileList, s5);
    HashFieldExact(s5, "object_list", slot.objectList, s6);
    RetainExact(s6, slot.retainUntil, rest);
  }

  lemma SlotSound(s: Bytes, slot: Slot, rest: Bytes)
    requires ParseSlot(s) == Success(Parsed(slot, rest))
    ensures s == SlotThen(slot, rest)
  {
    Keywords();
    var s1 := ParseLength(s, MAP, 6).value.rest;
    var s2 := ParseHashField(s1, "build").value.rest;
    var s3 := ParseHashField(s2, "reuse").value.rest;
    var s4 := ParseSerial(s3).value.rest;
    var s5 := ParseHashField(s4, "file_list").value.rest;
    var s6 := ParseHashField(s5, "object_list").value.rest;
    LengthExact(s, MAP, 6, s1);
    HashFieldExact(s1, "build", slot.build, s2);
    HashFieldExact(s2, "reuse", slot.reuse, s3);
    SerialExact(s3, slot.serial, s4);
    HashFieldExact(s4, "file_list", slot.fileList, s5);
    HashFieldExact(s5, "object_list", slot.objectList, s6);
    RetainExact(s6, slot.retainUntil, rest);
  }

  /** Slot lists parse exactly when they are in wire form. */
  lemma SlotsExact(s: Bytes, slots: seq<Slot>, rest: Bytes)
    ensures ParseSlots(s, |slots|) == Success(Parsed(slots, rest)) <==> s == SlotsThen(slots, rest)
  {
    assert Exact(ParseSlot, SlotThen) by {
      forall t, slot, after
        ensures ParseSlot(t) == Success(Parsed(slot, after)) <==> t == SlotThen(slot, after)
      {
        SlotComplete(slot, after);
        if ParseSlot(t) == Success(Parsed(slot, after)) {
          SlotSound(t, slot, after);
        }
      }
    }
    ManyExact(ParseSlot, SlotThen, s, slots, rest);
  }

  lemma SlotCountExact(s: Bytes, count: U64, rest: Bytes)
    ensures ParseSlotCount(s) == Success(Parsed(count, rest)) <==>
            s == HeadBytes(MAP, 4) + (TextItem(Ascii("slots")) + (HeadBytes(ARRAY, count) + rest))
  {
    Keywords();
    var s2 := HeadBytes(ARRAY, count) + rest;
    var s1 := TextItem(Ascii("slots")) + s2;
    if s == HeadBytes(MAP, 4) + s1 {
      LengthExact(s, MAP, 4, s1);
      KeyExact(s1, "slots", s2);
      HeadExact(ARRAY, s2, count, rest);
    }
    if ParseSlotCount(s) == Success(Parsed(count, rest)) {
      var head := ParseLength(s, MAP, 4).value;
      var key := ParseKey(head.rest, "slots").value;
      LengthExact(s, MAP, 4, head.rest);
      KeyExact(head.rest, "slots", key.rest);
      HeadExact(ARRAY, key.rest, count, rest);
    }
  }

  lemma FormatExact(s: Bytes, rest: Bytes)
    ensures ParseFormat(s) == Success(Parsed((), rest)) <==>
            s == TextItem(Ascii("repository_format")) + (HeadBytes(UINT, REPOSITORY_FORMAT) + rest)
  {
    Keywords();
    var middle := HeadBytes(UINT, REPOSITORY_FORMAT) + rest;
    KeyExact(s, "repository_format", middle);
    HeadExact(UINT, middle, REPOSITORY_FORMAT, rest);
    if ParseFormat(s) == Success(Parsed((), rest)) {
      var k := ParseKey(s, "repository_format").value;
      KeyExact(s, "repository_format", k.rest);
      HeadExact(UINT, k.rest, REPOSITORY_FORMAT, rest);
    }
  }

  lemma PreviousExact(s: Bytes, previous: Option<Hash>, rest: Bytes)
    ensures ParsePrevious(s) == Success(Parsed(previous, rest)) <==>
            s == TextItem(Ascii("previous_master_hash")) + (OptionalBytes(previous) + rest)
  {
    Keywords();
    var middle := OptionalBytes(previous) + rest;
    if s == TextItem(Ascii("previous_master_hash")) + middle {
      KeyExact(s, "previous_master_hash", middle);
      OptionalBytesExact(middle, previous, rest);
    }
    if ParsePrevious(s) == Success(Parsed(previous, rest)) {
      var k := ParseKey(s, "previous_master_hash").value;
      KeyExact(s, "previous_master_hash", k.rest);
      OptionalBytesExact(k.rest, previous, rest);
    }
  }

  lemma UrlFieldComplete(lib: UrlLibrary, text: Bytes, url: Url, rest: Bytes)
    requires ParseUrl(lib, text) == Some(url) && ValidUtf8(text) && |text| < 0x1_0000_0000_0000_0000
    ensures ParseUrlField(lib, TextItem(Ascii("data_base_url")) + (TextItem(text) + rest)) == Success(Parsed(url, rest))
  {
    Keywords();
    var middle := TextItem(text) + rest;
    KeyExact(TextItem(Ascii("data_base_url")) + middle, "data_base_url", middle);
    TextExact(middle, text, rest);
  }

  lemma UrlFieldSound(lib: UrlLibrary, s: Bytes, url: Url, rest: Bytes) returns (text: Bytes)
    requires ParseUrlField(lib, s) == Success(Parsed(url, rest))
    ensures ParseUrl(lib, text) == Some(url) && ValidUtf8(text) && |text| < 0x1_0000_0000_0000_0000
    ensures s == TextItem(Ascii("data_base_url")) + (TextItem(text) + rest)
  {
    Keywords();
    var k := ParseKey(s, "data_base_url").value;
    KeyExact(s, "data_base_url", k.rest);
    text := ParseText(k.rest).value.value;
    TextExact(k.rest, text, rest);
  }

  lemma EndExact(s: Bytes, previous: Option<Hash>, rest: Bytes)
    ensures ParseEnd(s) == Success(Parsed(previous, rest)) <==> s == EndThen(previous, rest)
  {
    var middle := TextItem(Ascii("previous_master_hash")) + (OptionalBytes(previous) + rest);
    if s == EndThen(previous, rest) {
      FormatExact(s, middle);
      PreviousExact(middle, previous, rest);
    }
    if ParseEnd(s) == Success(Parsed(previous, rest)) {
      var format := ParseFormat(s).value;
      FormatExact(s, format.rest);
      PreviousExact(format.rest, previous, rest);
    }
  }

  lemma TailComplete(lib: UrlLibrary, previous: Option<Hash>, text: Bytes, url: Url)
    requires ParseUrl(lib, text) == Some(url) && ValidUtf8(text) && |text| < 0x1_0000_0000_0000_0000
    ensures ParseTail(lib, TailWith(previous, text)) == Success(Parsed(Tail(url, previous), []))
  {
    UrlFieldComplete(lib, text, url, EndThen(previous, []));
    EndExact(EndThen(previous, []), previous, []);
  }

  lemma TailSteps(lib: UrlLibrary, s: Bytes, url: Url, previous: Option<Hash>) returns (end: Bytes)
    requires ParseTail(lib, s) == Success(Parsed(Tail(url, previous), []))
    ensures ParseUrlField(lib, s) == Success(Parsed(url, end))
    ensures ParseEnd(end) == Success(Parsed(previous, []))
  {
    end := ParseUrlField(lib, s).value.rest;
  }

  lemma TailSound(lib: UrlLibrary, s: Bytes, url: Url, previous: Option<Hash>) returns (text: Bytes)
    requires ParseTail(lib, s) == Success(Parsed(Tail(url, previous), []))
    ensures ParseUrl(lib, text) == Some(url) && ValidUtf8(text) && |text| < 0x1_0000_0000_0000_0000
    ensures s == TailWith(previous, text)
  {
    var end := TailSteps(lib, s, url, previous);
    text := UrlFieldSound(lib, s, url, end);
    EndExact(end, previous, []);
  }

  // ----- The slot-count guard -----

  /** No slot is shorter than the guard assumes, and the guard's figure is attained. */
  lemma SlotSize(slot: Slot, rest: Bytes)
    ensures |SlotThen(slot, rest)| >= MIN_ENCODED_SLOT_BYTES + |rest|
    ensures slot.serial <= 23 && (slot.retainUntil.Some? ==> slot.retainUntil.value <= 23) ==>
              |SlotThen(slot, rest)| == MIN_ENCODED_SLOT_BYTES + |rest|
  {
    assert |BytesItem(slot.build)| == 34 && |BytesItem(slot.reuse)| == 34;
    assert |BytesItem(slot.fileList)| == 34 && |BytesItem(slot.objectList)| == 34;
    assert |TextItem(Ascii("build"))| == 6 && |TextItem(Ascii("reuse"))| == 6;
    assert |TextItem(Ascii("serial"))| == 7 && |TextItem(Ascii("file_list"))| == 10;
    assert |TextItem(Ascii("object_list"))| == 12 && |TextItem(Ascii("retain_until"))| == 13;
  }

  lemma {:induction false} SlotsSize(slots: seq<Slot>, rest: Bytes)
    ensures |SlotsThen(slots, rest)| >= MIN_ENCODED_SLOT_BYTES * |slots| + |rest|
  {
    if slots != [] {
      SlotsSize(slots[1..], rest);
      SlotSize(slots[0], SlotsThen(slots[1..], rest));
    }
  }

  // ----- The payload -----

  /** The decoder accepts every genuine encoding of a valid master, whatever its slot count. */
  lemma PayloadComplete(lib: UrlLibrary, m: Master, text: Bytes)
    requires |m.slots| < 0x1_0000_0000_0000_0000 && |text| < 0x1_0000_0000_0000_0000
    requires ParseUrl(lib, text) == Some(m.url) && ValidUtf8(text)
    requires ValidMaster(lib, m) && |PayloadWith(m, text)| <= MAX_MASTER_BYTES
    ensures ParsePayload(lib, PayloadWith(m, text)) == Success(m)
  {
    Keywords();
    var tail := TailWith(m.previous, text);
    var s2 := SlotsThen(m.slots, tail);
    SlotCountExact(PayloadWith(m, text), |m.slots|, s2);
    SlotsSize(m.slots, tail);
    assert |m.slots| <= |s2| / MIN_ENCODED_SLOT_BYTES;
    SlotsExact(s2, m.slots, tail);
    TailComplete(lib, m.previous, text, m.url);
  }

  lemma PayloadSteps(lib: UrlLibrary, bytes: Bytes, m: Master) returns (slots: Bytes, tail: Bytes)
    requires ParsePayload(lib, bytes) == Success(m)
    ensures |m.slots| < 0x1_0000_0000_0000_0000
    ensures ParseSlotCount(bytes) == Success(Parsed(|m.slots|, slots))
    ensures ParseSlots(slots, |m.slots|) == Success(Parsed(m.slots, tail))
    ensures ParseTail(lib, tail) == Success(Parsed(Tail(m.url, m.previous), []))
  {
    var count := ParseSlotCount(bytes).value;
    slots := count.rest;
    tail := ParseSlots(slots, count.value).value.rest;
  }

  /** Whatever the decoder accepts is some valid master in wire form. */
  lemma PayloadSound(lib: UrlLibrary, bytes: Bytes, m: Master) returns (text: Bytes)
    requires ParsePayload(lib, bytes) == Success(m)
    ensures |m.slots| < 0x1_0000_0000_0000_0000 && |text| < 0x1_0000_0000_0000_0000
    ensures ParseUrl(lib, text) == Some(m.url) && ValidUtf8(text)
    ensures bytes == PayloadWith(m, text)
  {
    var slots, tail := PayloadSteps(lib, bytes, m);
    SlotCountExact(bytes, |m.slots|, slots);
    SlotsExact(slots, m.slots, tail);
    text := TailSound(lib, tail, m.url, m.previous);
  }

  lemma AcceptedIsValid(lib: UrlLibrary, bytes: Bytes, m: Master)
    requires ParsePayload(lib, bytes) == Success(m)
    ensures ValidMaster(lib, m) && |bytes| <= MAX_MASTER_BYTES
  {
  }

  /** Decoding undoes encoding for every valid master within the size limit. */
  lemma DecodeUndoesEncode(lib: UrlLibrary, m: Master)
    requires Normalises(lib) && ParseUrl(lib, m.url.text) == Some(m.url)
    requires |m.slots| < 0x1_0000_0000_0000_0000 && |m.url.text| < 0x1_0000_0000_0000_0000
    ensures ParsePayload(lib, PayloadBytes(m)) == Success(m) <==>
            ValidMaster(lib, m) && |PayloadBytes(m)| <= MAX_MASTER_BYTES
  {
    assert ValidUtf8(m.url.text) by {
      assert lib.parse(m.url.text).Some?;
    }
    if ValidMaster(lib, m) && |PayloadBytes(m)| <= MAX_MASTER_BYTES {
      PayloadComplete(lib, m, m.url.text);
    } else if ParsePayload(lib, PayloadBytes(m)) == Success(m) {
      AcceptedIsValid(lib, PayloadBytes(m), m);
    }
  }

  /**
    Accepted bytes re-encode to themselves if and only if they spell the URL in normal form;
    nothing else about an accepted payload can vary.
   */
  lemma EncodeUndoesDecode(lib: UrlLibrary, bytes: Bytes, m: Master) returns (text: Bytes)
    requires Normalises(lib) && ParsePayload(lib, bytes) == Success(m)
    ensures |m.slots| < 0x1_0000_0000_0000_0000
    ensures |m.url.text| < 0x1_0000_0000_0000_0000 && |text| < 0x1_0000_0000_0000_0000
    ensures ParseUrl(lib, text) == Some(m.url) && bytes == PayloadWith(m, text)
    ensures PayloadBytes(m) == bytes <==> text == m.url.text
  {
    text := PayloadSound(lib, bytes, m);
    assert lib.parse(text).Some?;
    if PayloadBytes(m) == bytes {
      SameSpelling(m, m.url.text, text);
    }
  }

  /** The spelling of the URL can be read back from a payload. */
  lemma SameSpelling(m: Master, x: Bytes, y: Bytes)
    requires |m.slots| < 0x1_0000_0000_0000_0000 && |x| < 0x1_0000_0000_0000_0000 && |y| < 0x1_0000_0000_0000_0000
    requires ValidUtf8(x) && ValidUtf8(y)
    requires PayloadWith(m, x) == PayloadWith(m, y)
    ensures x == y
  {
    var xs, ys := TailWith(m.previous, x), TailWith(m.previous, y);
    var xSlots, ySlots := SlotsThen(m.slots, xs), SlotsThen(m.slots, ys);
    var count, key := HeadBytes(ARRAY, |m.slots|), TextItem(Ascii("slots"));
    ConcatCancel(HeadBytes(MAP, 4), key + (count + xSlots), key + (count + ySlots));
    ConcatCancel(key, count + xSlots, count + ySlots);
    ConcatCancel(count, xSlots, ySlots);
    SlotsExact(xSlots, m.slots, xs);
    SlotsExact(xSlots, m.slots, ys);
    SameTailSpelling(m.previous, x, y);
  }

  lemma SameTailSpelling(previous: Option<Hash>, x: Bytes, y: Bytes)
    requires |x| < 0x1_0000_0000_0000_0000 && |y| < 0x1_0000_0000_0000_0000
    requires ValidUtf8(x) && ValidUtf8(y) && TailWith(previous, x) == TailWith(previous, y)
    ensures x == y
  {
    var end := EndThen(previous, []);
    ConcatCancel(TextItem(Ascii("data_base_url")), TextItem(x) + end, TextItem(y) + end);
    TextExact(TextItem(x) + end, x, end);
    TextExact(TextItem(x) + end, y, end);
  }
}
