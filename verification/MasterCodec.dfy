/** The master writer and reader, statement by statement, against the wire form of `Master`. */
module MasterCodec {
  import opened Wrappers
  import opened Text
  import opened Cbor
  import opened CborCodec
  import opened Master

  method EncodeSlot(encoder: Encoder, slot: Slot, ghost rest: Bytes)
    modifies encoder
    ensures encoder.bytes + rest == old(encoder.bytes) + SlotThen(slot, rest)
  {
    ghost var s6 := OptionalUint(slot.retainUntil) + rest;
    ghost var s5 := BytesItem(slot.objectList) + (TextItem(Ascii("retain_until")) + s6);
    ghost var s4 := BytesItem(slot.fileList) + (TextItem(Ascii("object_list")) + s5);
    ghost var s3 := HeadBytes(UINT, slot.serial) + (TextItem(Ascii("file_list")) + s4);
    ghost var s2 := BytesItem(slot.reuse) + (TextItem(Ascii("serial")) + s3);
    ghost var s1 := BytesItem(slot.build) + (TextItem(Ascii("reuse")) + s2);
    encoder.Head(MAP, 6, TextItem(Ascii("build")) + s1);
    encoder.TextString(Ascii("build"), s1);
    encoder.ByteString(slot.build, TextItem(Ascii("reuse")) + s2);
    encoder.TextString(Ascii("reuse"), s2);
    encoder.ByteString(slot.reuse, TextItem(Ascii("serial")) + s3);
    encoder.TextString(Ascii("serial"), s3);
    encoder.Head(UINT, slot.serial, TextItem(Ascii("file_list")) + s4);
    encoder.TextString(Ascii("file_list"), s4);
    encoder.ByteString(slot.fileList, TextItem(Ascii("object_list")) + s5);
    encoder.TextString(Ascii("object_list"), s5);
    encoder.ByteString(slot.objectList, TextItem(Ascii("retain_until")) + s6);
    encoder.TextString(Ascii("retain_until"), s6);
    match slot.retainUntil {
      case Some(value) => encoder.Head(UINT, value, rest);
      case None => encoder.Raw(NULL, rest);
    }
  }

  lemma SlotsStep(slots: seq<Slot>, i: nat, tail: Bytes)
    requires i < |slots|
    ensures SlotsThen(slots[i..], tail) == SlotThen(slots[i], SlotsThen(slots[i + 1..], tail))
  {
    assert slots[i..][1..] == slots[i + 1..];
  }

  method EncodeSlots(encoder: Encoder, slots: seq<Slot>, ghost tail: Bytes)
    modifies encoder
    ensures encoder.bytes + tail == old(encoder.bytes) + SlotsThen(slots, tail)
  {
    ghost var goal := encoder.bytes + SlotsThen(slots, tail);
    assert slots[0..] == slots;
    for i := 0 to |slots|
      invariant encoder.bytes + SlotsThen(slots[i..], tail) == goal
    {
      SlotsStep(slots, i, tail);
      EncodeSlot(encoder, slots[i], SlotsThen(slots[i + 1..], tail));
    }
    assert SlotsThen(slots[|slots|..], tail) == tail;
  }

  method EncodePayload(m: Master) returns (bytes: Bytes)
    requires |m.slots| < 0x1_0000_0000_0000_0000 && |m.url.text| < 0x1_0000_0000_0000_0000
    ensures bytes == PayloadBytes(m)
  {
    var encoder := new Encoder();
    ghost var tail := TailWith(m.previous, m.url.text);
    ghost var slots := SlotsThen(m.slots, tail);
    ghost var counted := HeadBytes(ARRAY, |m.slots|) + slots;
    encoder.Head(MAP, 4, TextItem(Ascii("slots")) + counted);
    encoder.TextString(Ascii("slots"), counted);
    encoder.Head(ARRAY, |m.slots|, slots);
    EncodeSlots(encoder, m.slots, tail);
    EncodeTail(encoder, m);
    bytes := encoder.bytes;
    assert [] + PayloadBytes(m) == PayloadBytes(m);
    assert bytes + [] == bytes;
  }

  method EncodeTail(encoder: Encoder, m: Master)
    requires |m.url.text| < 0x1_0000_0000_0000_0000
    modifies encoder
    ensures encoder.bytes + [] == old(encoder.bytes) + TailWith(m.previous, m.url.text)
  {
    ghost var s3 := OptionalBytes(m.previous) + [];
    ghost var s2 := HeadBytes(UINT, REPOSITORY_FORMAT) + (TextItem(Ascii("previous_master_hash")) + s3);
    ghost var s1 := TextItem(m.url.text) + (TextItem(Ascii("repository_format")) + s2);
    encoder.TextString(Ascii("data_base_url"), s1);
    encoder.TextString(m.url.text, TextItem(Ascii("repository_format")) + s2);
    encoder.TextString(Ascii("repository_format"), s2);
    encoder.Head(UINT, REPOSITORY_FORMAT, TextItem(Ascii("previous_master_hash")) + s3);
    encoder.TextString(Ascii("previous_master_hash"), s3);
    match m.previous {
      case Some(hash) => encoder.ByteString(hash, []);
      case None => encoder.Raw(NULL, []);
    }
  }

  method DecodeHash(decoder: Decoder) returns (r: Result<Hash, RepositoryError>)
    requires decoder.Valid()
    modifies decoder
    ensures decoder.Valid() && decoder.Agrees(r, ParseHash(old(decoder.Rest())))
  {
    var data :- decoder.ByteString();
    if |data| != 32 {
      return Failure(BadHash);
    }
    return Success(data);
  }

  method DecodeHashField(decoder: Decoder, key: string) returns (r: Result<Hash, RepositoryError>)
    requires decoder.Valid()
    modifies decoder
    ensures decoder.Valid() && decoder.Agrees(r, ParseHashField(old(decoder.Rest()), key))
  {
    var _ :- decoder.RequireKey(key);
    r := DecodeHash(decoder);
  }

  method DecodeSerial(decoder: Decoder) returns (r: Result<U64, RepositoryError>)
    requires decoder.Valid()
    modifies decoder
    ensures decoder.Valid() && decoder.Agrees(r, ParseSerial(old(decoder.Rest())))
  {
    var _ :- decoder.RequireKey("serial");
    r := decoder.Head(UINT);
  }

  method DecodeRetain(decoder: Decoder) returns (r: Result<Option<U64>, RepositoryError>)
    requires decoder.Valid()
    modifies decoder
    ensures decoder.Valid() && decoder.Agrees(r, ParseRetain(old(decoder.Rest())))
  {
    var _ :- decoder.RequireKey("retain_until");
    r := decoder.NullOrUint();
  }

  method DecodeSlot(decoder: Decoder) returns (r: Result<Slot, RepositoryError>)
    requires decoder.Valid()
    modifies decoder
    ensures decoder.Valid() && ReadsSlot(old(decoder.Rest()), r, decoder.Rest())
  {
    var _ :- decoder.RequireLength(MAP, 6);
    var build :- DecodeHashField(decoder, "build");
    var reuse :- DecodeHashField(decoder, "reuse");
    var serial :- DecodeSerial(decoder);
    var fileList :- DecodeHashField(decoder, "file_list");
    var objectList :- DecodeHashField(decoder, "object_list");
    var retain :- DecodeRetain(decoder);
    return Success(Slot(serial, build, reuse, objectList, fileList, retain));
  }

  method DecodeUrl(lib: UrlLibrary, decoder: Decoder) returns (r: Result<Url, RepositoryError>)
    requires decoder.Valid()
    modifies decoder
    ensures decoder.Valid() && decoder.Agrees(r, ParseUrlField(lib, old(decoder.Rest())))
  {
    var _ :- decoder.RequireKey("data_base_url");
    var text :- decoder.TextString();
    match ParseUrl(lib, text) {
      case None => return Failure(BadUrl);
      case Some(url) => return Success(url);
    }
  }

  method DecodeFormat(decoder: Decoder) returns (r: Result<(), RepositoryError>)
    requires decoder.Valid()
    modifies decoder
    ensures decoder.Valid() && decoder.Agrees(r, ParseFormat(old(decoder.Rest())))
  {
    var _ :- decoder.RequireKey("repository_format");
    var format :- decoder.Head(UINT);
    if format != REPOSITORY_FORMAT {
      return Failure(UnsupportedFormat);
    }
    return Success(());
  }

  method DecodePrevious(decoder: Decoder) returns (r: Result<Option<Hash>, RepositoryError>)
    requires decoder.Valid()
    modifies decoder
    ensures decoder.Valid() && decoder.Agrees(r, ParsePrevious(old(decoder.Rest())))
  {
    var _ :- decoder.RequireKey("previous_master_hash");
    var previous :- decoder.NullOrBytes();
    match previous {
      case None => return Success(None);
      case Some(data) =>
        if |data| != 32 {
          return Failure(BadHash);
        }
        return Success(Some(data));
    }
  }

  method DecodeEnd(decoder: Decoder) returns (r: Result<Option<Hash>, RepositoryError>)
    requires decoder.Valid()
    modifies decoder
    ensures decoder.Valid() && decoder.Agrees(r, ParseEnd(old(decoder.Rest())))
  {
    var _ :- DecodeFormat(decoder);
    r := DecodePrevious(decoder);
  }

  method DecodeTail(lib: UrlLibrary, decoder: Decoder) returns (r: Result<Tail, RepositoryError>)
    requires decoder.Valid()
    modifies decoder
    ensures decoder.Valid() && decoder.Agrees(r, ParseTail(lib, old(decoder.Rest())))
  {
    var url :- DecodeUrl(lib, decoder);
    var previous :- DecodeEnd(decoder);
    return Success(Tail(url, previous));
  }

  method DecodeSlotCount(decoder: Decoder) returns (r: Result<U64, RepositoryError>)
    requires decoder.Valid()
    modifies decoder
    ensures decoder.Valid() && decoder.Agrees(r, ParseSlotCount(old(decoder.Rest())))
  {
    var _ :- decoder.RequireLength(MAP, 4);
    var _ :- decoder.RequireKey("slots");
    r := decoder.Head(ARRAY);
  }

  /** Fills the slot list one slot at a time. */
  method DecodeSlots(decoder: Decoder, count: nat) returns (r: Result<seq<Slot>, RepositoryError>)
    requires decoder.Valid()
    modifies decoder
    ensures decoder.Valid() && decoder.Agrees(r, ParseSlots(old(decoder.Rest()), count))
  {
    var slots: seq<Slot> := [];
    ghost var goal := ParseSlots(decoder.Rest(), count);
    StartsToward(decoder.Rest(), count);
    var left := count;
    while left > 0
      invariant decoder.Valid()
      invariant Toward(goal, slots, decoder.Rest(), left)
    {
      ghost var before := decoder.Rest();
      left := left - 1;
      var outcome := DecodeSlot(decoder);
      assert ReadsSlot(before, outcome, decoder.Rest());
      StepsToward(goal, slots, before, left, outcome, decoder.Rest());
      if outcome.Failure? {
        return Failure(outcome.error);
      }
      slots := slots + [outcome.value];
    }
    EndsAt(goal, slots, decoder.Rest());
    return Success(slots);
  }

  /** Reading one slot from `s` gave `outcome` and left `after`. */
  ghost predicate ReadsSlot(s: Bytes, outcome: Result<Slot, RepositoryError>, after: Bytes) {
    match ParseSlot(s)
    case Success(parsed) => outcome == Success(parsed.value) && after == parsed.rest
    case Failure(error) => outcome == Failure(error)
  }

  /** With `front` read and `left` slots still to come from `s`, the whole list comes out as `goal`. */
  ghost predicate Toward(goal: Result<Parsed<seq<Slot>>, RepositoryError>, front: seq<Slot>, s: Bytes, left: nat) {
    match ParseSlots(s, left)
    case Success(parsed) => goal == Success(Parsed(front + parsed.value, parsed.rest))
    case Failure(error) => goal == Failure(error)
  }

  lemma StartsToward(s: Bytes, count: nat)
    ensures Toward(ParseSlots(s, count), [], s, count)
  {
    if ParseSlots(s, count).Success? {
      assert [] + ParseSlots(s, count).value.value == ParseSlots(s, count).value.value;
    }
  }

  lemma EndsAt(goal: Result<Parsed<seq<Slot>>, RepositoryError>, front: seq<Slot>, s: Bytes)
    requires Toward(goal, front, s, 0)
    ensures goal == Success(Parsed(front, s))
  {
    assert front + [] == front;
  }

  lemma StepsToward(
    goal: Result<Parsed<seq<Slot>>, RepositoryError>, front: seq<Slot>, s: Bytes, left: nat,
    outcome: Result<Slot, RepositoryError>, after: Bytes)
    requires ReadsSlot(s, outcome, after) && Toward(goal, front, s, left + 1)
    ensures outcome.Failure? ==> goal == Failure(outcome.error)
    ensures outcome.Success? ==> Toward(goal, front + [outcome.value], after, left)
  {
    ManyStep(ParseSlot, s, left);
    if outcome.Success? && ParseSlots(after, left).Success? {
      ConcatAssociative(front, [outcome.value], ParseSlots(after, left).value.value);
    }
  }

  method DecodePayload(lib: UrlLibrary, bytes: Bytes) returns (r: Result<Master, RepositoryError>)
    ensures r == ParsePayload(lib, bytes)
  {
    if |bytes| > MAX_MASTER_BYTES {
      return Failure(TooLarge);
    }
    var decoder := new Decoder(bytes);
    var count :- DecodeSlotCount(decoder);
    if count > decoder.RemainingBytes() / MIN_ENCODED_SLOT_BYTES {
      return Failure(TooManySlots);
    }
    var slots :- DecodeSlots(decoder, count);
    var tail :- DecodeTail(lib, decoder);
    var _ :- decoder.Finish();
    var m := Master(tail.previous, tail.url, slots);
    var ok := Validate(lib, m);
    if !ok {
      return Failure(InvalidMaster);
    }
    return Success(m);
  }
}
