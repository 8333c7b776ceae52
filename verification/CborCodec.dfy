/** The buffer-growing writer and the offset-advancing reader of repository-owned CBOR. */
module CborCodec {
  import opened Wrappers
  import opened Text
  import opened Cbor

  class Encoder {
    var bytes: Bytes

    constructor ()
      ensures bytes == []
    {
      bytes := [];
    }

    // Each call appends one item. `after` is what the caller still intends to write: buffer
    // plus intention is the same text before and after the call.

    method Head(major: int, value: U64, ghost after: Bytes := [])
      requires 0 <= major < 8
      modifies this
      ensures bytes == old(bytes) + HeadBytes(major, value)
      ensures bytes + after == old(bytes) + (HeadBytes(major, value) + after)
    {
      var prefix := 32 * major;
      ghost var before := bytes;
      if value <= 23 {
        bytes := bytes + [prefix + value];
      } else {
        var width, additional :=
          if value <= 0xff then 1 else if value <= 0xffff then 2 else if value <= 0xffff_ffff then 4 else 8,
          if value <= 0xff then 24 else if value <= 0xffff then 25 else if value <= 0xffff_ffff then 26 else 27;
        bytes := bytes + [prefix + additional];
        bytes := bytes + BigEndian(value, width);
        ConcatAssociative(before, [prefix + additional], BigEndian(value, width));
      }
      ConcatAssociative(before, HeadBytes(major, value), after);
    }

    method ByteString(value: Bytes, ghost after: Bytes := [])
      requires |value| < 0x1_0000_0000_0000_0000
      modifies this
      ensures bytes == old(bytes) + BytesItem(value)
      ensures bytes + after == old(bytes) + (BytesItem(value) + after)
    {
      ghost var before := bytes;
      Head(BYTE_STRING, |value|, value);
      bytes := bytes + value;
      ConcatAssociative(before, BytesItem(value), after);
    }

    method TextString(value: Bytes, ghost after: Bytes := [])
      requires |value| < 0x1_0000_0000_0000_0000
      modifies this
      ensures bytes == old(bytes) + TextItem(value)
      ensures bytes + after == old(bytes) + (TextItem(value) + after)
    {
      ghost var before := bytes;
      Head(TEXT_STRING, |value|, value);
      bytes := bytes + value;
      ConcatAssociative(before, TextItem(value), after);
    }

    /** One simple value: a boolean or null. */
    method Raw(value: Byte, ghost after: Bytes := [])
      modifies this
      ensures bytes == old(bytes) + [value]
      ensures bytes + after == old(bytes) + ([value] + after)
    {
      ghost var before := bytes;
      bytes := bytes + [value];
      ConcatAssociative(before, [value], after);
    }
  }

  class Decoder {
    const bytes: Bytes
    var offset: nat

    ghost predicate Valid()
      reads this
    {
      offset <= |bytes|
    }

    /** What is left to read. */
    ghost function Rest(): Bytes
      requires Valid()
      reads this
    {
      bytes[offset..]
    }

    /** The call behaved as the parse `r` of what was left: same outcome, same rest. */
    ghost predicate Agrees<T>(outcome: Result<T, RepositoryError>, r: Result<Parsed<T>, RepositoryError>)
      requires Valid()
      reads this
    {
      match r
      case Success(parsed) => outcome == Success(parsed.value) && Rest() == parsed.rest
      case Failure(error) => outcome == Failure(error)
    }

    constructor (input: Bytes)
      ensures Valid() && bytes == input && Rest() == input
    {
      bytes := input;
      offset := 0;
    }

    function RemainingBytes(): (n: nat)
      requires Valid()
      reads this
      ensures n == |Rest()|
    {
      |bytes| - offset
    }

    method Peek() returns (r: Result<Byte, RepositoryError>)
      requires Valid()
      ensures r == if Rest() == [] then Failure(Truncated) else Success(Rest()[0])
    {
      if offset < |bytes| {
        return Success(bytes[offset]);
      }
      return Failure(Truncated);
    }

    /** Consumes exactly `length` bytes, or none at all. */
    method Take(length: U64) returns (r: Result<Bytes, RepositoryError>)
      requires Valid()
      modifies this
      ensures Valid()
      ensures old(|Rest()|) < length ==> r == Failure(Truncated) && offset == old(offset)
      ensures length <= old(|Rest()|) ==>
                r == Success(old(Rest())[..length]) && Rest() == old(Rest())[length..]
    {
      var end := offset + length;
      if end > |bytes| {
        return Failure(Truncated);
      }
      assert bytes[offset..end] == bytes[offset..][..length];
      r := Success(bytes[offset..end]);
      offset := end;
    }

    method TakeArgument(width: nat, tooSmall: int) returns (r: Result<U64, RepositoryError>)
      requires Valid() && width <= 8
      modifies this
      ensures Valid() && Agrees(r, ParseArgument(old(Rest()), width, tooSmall))
    {
      var taken :- Take(width);
      PowerBound(width);
      var value := FromBigEndian(taken);
      if value <= tooSmall {
        return Failure(NonShortest);
      }
      return Success(value);
    }

    method Head(major: int) returns (r: Result<U64, RepositoryError>)
      requires Valid() && 0 <= major < 8
      modifies this
      ensures Valid() && Agrees(r, ParseHead(major, old(Rest())))
    {
      var initial :- Peek();
      offset := offset + 1;
      assert Rest() == old(Rest())[1..];
      if initial / 32 != major {
        return Failure(WrongMajor);
      }
      var additional := initial % 32;
      if additional <= 23 {
        return Success(additional);
      }
      match Argument(additional) {
        case Some((width, tooSmall)) =>
          r := TakeArgument(width, tooSmall);
        case None =>
          r := Failure(if additional == 31 then Indefinite else Reserved);
      }
    }

    method String(major: int) returns (r: Result<Bytes, RepositoryError>)
      requires Valid() && 0 <= major < 8
      modifies this
      ensures Valid() && Agrees(r, ParseString(major, old(Rest())))
    {
      var length :- Head(major);
      r := Take(length);
    }

    method ByteString() returns (r: Result<Bytes, RepositoryError>)
      requires Valid()
      modifies this
      ensures Valid() && Agrees(r, ParseBytes(old(Rest())))
    {
      r := String(BYTE_STRING);
    }

    method TextString() returns (r: Result<Bytes, RepositoryError>)
      requires Valid()
      modifies this
      ensures Valid() && Agrees(r, ParseText(old(Rest())))
    {
      var text :- String(TEXT_STRING);
      if !ValidUtf8(text) {
        return Failure(InvalidUtf8);
      }
      return Success(text);
    }

    method RequireKey(key: string) returns (r: Result<(), RepositoryError>)
      requires Valid()
      modifies this
      ensures Valid() && Agrees(r, ParseKey(old(Rest()), key))
    {
      var text :- TextString();
      if text != Ascii(key) {
        return Failure(WrongKey);
      }
      return Success(());
    }

    method RequireLength(major: int, expected: U64) returns (r: Result<(), RepositoryError>)
      requires Valid() && 0 <= major < 8
      modifies this
      ensures Valid() && Agrees(r, ParseLength(old(Rest()), major, expected))
    {
      var length :- Head(major);
      if length != expected {
        return Failure(WrongLength);
      }
      return Success(());
    }

    method NullOrUint() returns (r: Result<Option<U64>, RepositoryError>)
      requires Valid()
      modifies this
      ensures Valid() && Agrees(r, ParseOptionalUint(old(Rest())))
    {
      var first :- Peek();
      if first == NULL {
        offset := offset + 1;
        return Success(None);
      }
      var n :- Head(UINT);
      return Success(Some(n));
    }

    method NullOrBytes() returns (r: Result<Option<Bytes>, RepositoryError>)
      requires Valid()
      modifies this
      ensures Valid() && Agrees(r, ParseOptionalBytes(old(Rest())))
    {
      var first :- Peek();
      if first == NULL {
        offset := offset + 1;
        return Success(None);
      }
      var data :- ByteString();
      return Success(Some(data));
    }

    method Finish() returns (r: Result<(), RepositoryError>)
      requires Valid()
      ensures r == if Rest() == [] then Success(()) else Failure(TrailingBytes)
    {
      if offset == |bytes| {
        return Success(());
      }
      return Failure(TrailingBytes);
    }
  }
}
