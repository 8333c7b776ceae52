/**
  Deterministic CBOR: item heads of section 3 of RFC 8949 under the shortest-form rule of
  section 4.2.1, and the writer and reader built on them.

  Every item kind has an encoding function and a parsing function, joined by one lemma:
  parsing `s` yields a value and a rest exactly when `s` is that value's encoding followed
  by that rest. Round trips and canonicity of whole formats follow from these.
 */
module Cbor {
  import opened Wrappers
  import opened Text

  type Byte = x: int | 0 <= x < 0x100
  type Bytes = seq<Byte>
  type U64 = x: int | 0 <= x < 0x1_0000_0000_0000_0000

  const ARRAY: int := 4
  const MAP: int := 5
  const UINT: int := 0
  const BYTE_STRING: int := 2
  const TEXT_STRING: int := 3
  const NULL: Byte := 0xf6

  datatype RepositoryError =
    | Truncated
    | WrongMajor
    | NonShortest
    | Indefinite
    | Reserved
    | InvalidUtf8
    | TrailingBytes
    | WrongLength
    | WrongKey
    | TooLarge
    // master payloads
    | TooManySlots
    | BadUrl
    | UnsupportedFormat
    | BadHash
    | InvalidMaster
    // content envelopes
    | TextTooLong
    | UnknownKeyword
    | OutOfRange
    | WrongExtent

  datatype Parsed<+T> = Parsed(value: T, rest: Bytes)

  // ----- Big-endian integers -----

  function Pow256(n: nat): nat {
    if n == 0 then 1 else 256 * Pow256(n - 1)
  }

  function BigEndian(value: nat, width: nat): (bytes: Bytes)
    ensures |bytes| == width
  {
    if width == 0 then [] else BigEndian(value / 256, width - 1) + [value % 256]
  }

  function FromBigEndian(bytes: Bytes): (value: nat)
    ensures value < Pow256(|bytes|)
  {
    if bytes == [] then 0
    else 256 * FromBigEndian(bytes[..|bytes| - 1]) + bytes[|bytes| - 1]
  }

  lemma {:induction false} FromBigEndianInverts(value: nat, width: nat)
    requires value < Pow256(width)
    ensures FromBigEndian(BigEndian(value, width)) == value
  {
    if width > 0 {
      FromBigEndianInverts(value / 256, width - 1);
      var bytes := BigEndian(value, width);
      assert bytes[..width - 1] == BigEndian(value / 256, width - 1);
    }
  }

  lemma {:induction false} BigEndianInverts(bytes: Bytes)
    ensures BigEndian(FromBigEndian(bytes), |bytes|) == bytes
  {
    if bytes != [] {
      BigEndianInverts(bytes[..|bytes| - 1]);
    }
  }

  lemma Powers()
    ensures Pow256(1) == 0x100 && Pow256(2) == 0x1_0000 && Pow256(4) == 0x1_0000_0000
    ensures Pow256(8) == 0x1_0000_0000_0000_0000
  {
    assert Pow256(3) == 256 * Pow256(2);
    assert Pow256(4) == 256 * Pow256(3);
    assert Pow256(5) == 256 * Pow256(4);
    assert Pow256(6) == 256 * Pow256(5);
    assert Pow256(7) == 256 * Pow256(6);
  }

  // ----- Item heads -----

  /** The shortest head carrying `value`. */
  function HeadBytes(major: int, value: U64): (bytes: Bytes)
    requires 0 <= major < 8
    ensures 1 <= |bytes| <= 9
  {
    if value <= 23 then [32 * major + value]
    else if value <= 0xff then [32 * major + 24] + BigEndian(value, 1)
    else if value <= 0xffff then [32 * major + 25] + BigEndian(value, 2)
    else if value <= 0xffff_ffff then [32 * major + 26] + BigEndian(value, 4)
    else [32 * major + 27] + BigEndian(value, 8)
  }

  /** Width of the integer that follows a head with this additional information, and the
      largest value that a shorter head could have carried. */
  function Argument(additional: int): Option<(nat, int)> {
    if additional == 24 then Some((1, 23))
    else if additional == 25 then Some((2, 0xff))
    else if additional == 26 then Some((4, 0xffff))
    else if additional == 27 then Some((8, 0xffff_ffff))
    else None
  }

  function ParseArgument(s: Bytes, width: nat, tooSmall: int): (r: Result<Parsed<U64>, RepositoryError>)
    requires width <= 8
  {
    if |s| < width then Failure(Truncated)
    else
      var value := FromBigEndian(s[..width]);
      PowerBound(width);
      if value <= tooSmall then Failure(NonShortest) else Success(Parsed(value, s[width..]))
  }

  lemma PowerBound(width: nat)
    requires width <= 8
    ensures Pow256(width) <= 0x1_0000_0000_0000_0000
  {
    Powers();
    PowersGrow(width, 8);
  }

  lemma {:induction false} PowersGrow(small: nat, large: nat)
    requires small <= large
    ensures Pow256(small) <= Pow256(large)
    decreases large - small
  {
    if small < large {
      PowersGrow(small, large - 1);
    }
  }

  function ParseHead(major: int, s: Bytes): (r: Result<Parsed<U64>, RepositoryError>)
    requires 0 <= major < 8
  {
    if s == [] then Failure(Truncated)
    else if s[0] / 32 != major then Failure(WrongMajor)
    else
      var additional := s[0] % 32;
      if additional <= 23 then Success(Parsed(additional, s[1..]))
      else
        match Argument(additional)
        case Some((width, tooSmall)) => ParseArgument(s[1..], width, tooSmall)
        case None => Failure(if additional == 31 then Indefinite else Reserved)
  }

  lemma ArgumentExact(s: Bytes, width: nat, tooSmall: int, value: U64, rest: Bytes)
    requires width <= 8
    ensures ParseArgument(s, width, tooSmall) == Success(Parsed(value, rest)) <==>
            tooSmall < value < Pow256(width) && s == BigEndian(value, width) + rest
  {
    if tooSmall < value < Pow256(width) && s == BigEndian(value, width) + rest {
      assert s[..width] == BigEndian(value, width);
      assert s[width..] == rest;
      FromBigEndianInverts(value, width);
    }
    if ParseArgument(s, width, tooSmall) == Success(Parsed(value, rest)) {
      BigEndianInverts(s[..width]);
      assert s == s[..width] + s[width..];
    }
  }

  /** A head parses exactly when it is the shortest head for its value. */
  lemma HeadExact(major: int, s: Bytes, value: U64, rest: Bytes)
    requires 0 <= major < 8
    ensures ParseHead(major, s) == Success(Parsed(value, rest)) <==> s == HeadBytes(major, value) + rest
  {
    Powers();
    if s == HeadBytes(major, value) + rest {
      HeadComplete(major, value, rest);
    }
    if ParseHead(major, s) == Success(Parsed(value, rest)) {
      HeadSound(major, s, value, rest);
    }
  }

  lemma HeadComplete(major: int, value: U64, rest: Bytes)
    requires 0 <= major < 8
    ensures ParseHead(major, HeadBytes(major, value) + rest) == Success(Parsed(value, rest))
  {
    var s := HeadBytes(major, value) + rest;
    if value <= 23 {
      assert s[1..] == rest;
    } else {
      Powers();
      var additional := if value <= 0xff then 24 else if value <= 0xffff then 25 else if value <= 0xffff_ffff then 26 else 27;
      var (width, tooSmall) := Argument(additional).value;
      LongHead(major, additional, width, tooSmall, value);
      var argument := BigEndian(value, width) + rest;
      ConcatAssociative([32 * major + additional], BigEndian(value, width), rest);
      assert s == [32 * major + additional] + argument;
      assert s[1..] == argument;
      ArgumentExact(argument, width, tooSmall, value, rest);
    }
  }

  lemma HeadSound(major: int, s: Bytes, value: U64, rest: Bytes)
    requires 0 <= major < 8
    requires ParseHead(major, s) == Success(Parsed(value, rest))
    ensures s == HeadBytes(major, value) + rest
  {
    var additional := s[0] % 32;
    assert s[0] == 32 * major + additional;
    assert s == [s[0]] + s[1..];
    if additional > 23 {
      var (width, tooSmall) := Argument(additional).value;
      ArgumentExact(s[1..], width, tooSmall, value, rest);
      LongHead(major, additional, width, tooSmall, value);
      ConcatAssociative([s[0]], BigEndian(value, width), rest);
    }
  }

  lemma LongHead(major: int, additional: int, width: nat, tooSmall: int, value: U64)
    requires 0 <= major < 8 && Argument(additional) == Some((width, tooSmall))
    requires tooSmall < value < Pow256(width)
    ensures HeadBytes(major, value) == [32 * major + additional] + BigEndian(value, width)
  {
    Powers();
  }

  // ----- Strings -----

  function BytesItem(data: Bytes): Bytes
    requires |data| < 0x1_0000_0000_0000_0000
  {
    HeadBytes(BYTE_STRING, |data|) + data
  }

  function TextItem(text: Bytes): Bytes
    requires |text| < 0x1_0000_0000_0000_0000
  {
    HeadBytes(TEXT_STRING, |text|) + text
  }

  function ParseString(major: int, s: Bytes): Result<Parsed<Bytes>, RepositoryError>
    requires 0 <= major < 8
  {
    var head :- ParseHead(major, s);
    if |head.rest| < head.value then Failure(Truncated)
    else Success(Parsed(head.rest[..head.value], head.rest[head.value..]))
  }

  function ParseBytes(s: Bytes): Result<Parsed<Bytes>, RepositoryError> {
    ParseString(BYTE_STRING, s)
  }

  function ParseText(s: Bytes): Result<Parsed<Bytes>, RepositoryError> {
    var text :- ParseString(TEXT_STRING, s);
    if ValidUtf8(text.value) then Success(text) else Failure(InvalidUtf8)
  }

  lemma StringExact(major: int, s: Bytes, data: Bytes, rest: Bytes)
    requires 0 <= major < 8
    ensures ParseString(major, s) == Success(Parsed(data, rest)) <==>
            |data| < 0x1_0000_0000_0000_0000 && s == HeadBytes(major, |data|) + (data + rest)
  {
    if |data| < 0x1_0000_0000_0000_0000 && s == HeadBytes(major, |data|) + (data + rest) {
      HeadExact(major, s, |data|, data + rest);
    }
    if ParseString(major, s) == Success(Parsed(data, rest)) {
      var head := ParseHead(major, s).value;
      HeadExact(major, s, head.value, head.rest);
      assert head.rest == data + rest;
    }
  }

  lemma BytesExact(s: Bytes, data: Bytes, rest: Bytes)
    ensures ParseBytes(s) == Success(Parsed(data, rest)) <==>
            |data| < 0x1_0000_0000_0000_0000 && s == BytesItem(data) + rest
  {
    StringExact(BYTE_STRING, s, data, rest);
    if |data| < 0x1_0000_0000_0000_0000 {
      ConcatAssociative(HeadBytes(BYTE_STRING, |data|), data, rest);
    }
  }

  lemma TextExact(s: Bytes, text: Bytes, rest: Bytes)
    ensures ParseText(s) == Success(Parsed(text, rest)) <==>
            |text| < 0x1_0000_0000_0000_0000 && ValidUtf8(text) && s == TextItem(text) + rest
  {
    StringExact(TEXT_STRING, s, text, rest);
    if |text| < 0x1_0000_0000_0000_0000 {
      ConcatAssociative(HeadBytes(TEXT_STRING, |text|), text, rest);
    }
  }

  predicate Continues(b: Byte) {
    0x80 <= b <= 0xbf
  }

  /** Length of the well-formed UTF-8 sequence at the start of `s`, or 0. */
  function Utf8Length(s: Bytes): (n: nat)
    ensures n <= |s|
  {
    if s == [] then 0
    else if s[0] < 0x80 then 1
    else if 0xc2 <= s[0] <= 0xdf then
      if |s| >= 2 && Continues(s[1]) then 2 else 0
    else if 0xe0 <= s[0] <= 0xef then
      if |s| >= 3 && Continues(s[1]) && Continues(s[2])
         && (s[0] == 0xe0 ==> s[1] >= 0xa0) && (s[0] == 0xed ==> s[1] <= 0x9f) then 3 else 0
    else if 0xf0 <= s[0] <= 0xf4 then
      if |s| >= 4 && Continues(s[1]) && Continues(s[2]) && Continues(s[3])
         && (s[0] == 0xf0 ==> s[1] >= 0x90) && (s[0] == 0xf4 ==> s[1] <= 0x8f) then 4 else 0
    else 0
  }

  predicate ValidUtf8(s: Bytes) {
    s == [] || (Utf8Length(s) > 0 && ValidUtf8(s[Utf8Length(s)..]))
  }

  predicate IsAscii(text: string) {
    forall i | 0 <= i < |text| :: text[i] < 128 as char
  }

  /** The bytes of a key or keyword; all of them are plain ASCII. */
  function Ascii(text: string): (bytes: Bytes)
    ensures |bytes| == |text|
  {
    seq(|text|, i requires 0 <= i < |text| => text[i] as int % 256)
  }

  lemma {:induction false} AsciiIsUtf8(bytes: Bytes)
    requires forall i | 0 <= i < |bytes| :: bytes[i] < 0x80
    ensures ValidUtf8(bytes)
  {
    if bytes != [] {
      AsciiIsUtf8(bytes[1..]);
    }
  }

  /** Keywords parse back, and only as themselves. */
  lemma KeywordExact(s: Bytes, keyword: string, rest: Bytes)
    requires IsAscii(keyword) && |keyword| < 0x1_0000_0000_0000_0000
    ensures ParseText(s) == Success(Parsed(Ascii(keyword), rest)) <==> s == TextItem(Ascii(keyword)) + rest
  {
    AsciiIsUtf8(Ascii(keyword));
    TextExact(s, Ascii(keyword), rest);
  }

  /** One map key at its fixed place. */
  function ParseKey(s: Bytes, key: string): Result<Parsed<()>, RepositoryError> {
    var text :- ParseText(s);
    if text.value == Ascii(key) then Success(Parsed((), text.rest)) else Failure(WrongKey)
  }

  /** A map or array head with its fixed number of entries. */
  function ParseLength(s: Bytes, major: int, expected: U64): Result<Parsed<()>, RepositoryError>
    requires 0 <= major < 8
  {
    var length :- ParseHead(major, s);
    if length.value == expected then Success(Parsed((), length.rest)) else Failure(WrongLength)
  }

  lemma KeyExact(s: Bytes, key: string, rest: Bytes)
    requires IsAscii(key) && |key| < 0x1_0000_0000_0000_0000
    ensures ParseKey(s, key) == Success(Parsed((), rest)) <==> s == TextItem(Ascii(key)) + rest
  {
    KeywordExact(s, key, rest);
  }

  lemma LengthExact(s: Bytes, major: int, expected: U64, rest: Bytes)
    requires 0 <= major < 8
    ensures ParseLength(s, major, expected) == Success(Parsed((), rest)) <==> s == HeadBytes(major, expected) + rest
  {
    HeadExact(major, s, expected, rest);
  }

  // ----- Optional items -----

  function OptionalUint(value: Option<U64>): Bytes {
    match value
    case None => [NULL]
    case Some(n) => HeadBytes(UINT, n)
  }

  function ParseOptionalUint(s: Bytes): Result<Parsed<Option<U64>>, RepositoryError> {
    if s == [] then Failure(Truncated)
    else if s[0] == NULL then Success(Parsed(None, s[1..]))
    else
      var n :- ParseHead(UINT, s);
      Success(Parsed(Some(n.value), n.rest))
  }

  lemma OptionalUintExact(s: Bytes, value: Option<U64>, rest: Bytes)
    ensures ParseOptionalUint(s) == Success(Parsed(value, rest)) <==> s == OptionalUint(value) + rest
  {
    if value.Some? {
      HeadExact(UINT, s, value.value, rest);
    }
  }

  function OptionalBytes(value: Option<Bytes>): Bytes
    requires value.Some? ==> |value.value| < 0x1_0000_0000_0000_0000
  {
    match value
    case None => [NULL]
    case Some(data) => BytesItem(data)
  }

  function ParseOptionalBytes(s: Bytes): Result<Parsed<Option<Bytes>>, RepositoryError> {
    if s == [] then Failure(Truncated)
    else if s[0] == NULL then Success(Parsed(None, s[1..]))
    else
      var data :- ParseBytes(s);
      Success(Parsed(Some(data.value), data.rest))
  }

  lemma OptionalBytesExact(s: Bytes, value: Option<Bytes>, rest: Bytes)
    ensures ParseOptionalBytes(s) == Success(Parsed(value, rest)) <==>
            (value.Some? ==> |value.value| < 0x1_0000_0000_0000_0000) && s == OptionalBytes(value) + rest
  {
    if value.Some? {
      BytesExact(s, value.value, rest);
    }
  }

  // ----- Repetition -----

  /** `count` items in a row. */
  function ParseMany<T>(parse: Bytes -> Result<Parsed<T>, RepositoryError>, s: Bytes, count: nat)
    : (r: Result<Parsed<seq<T>>, RepositoryError>)
    ensures r.Success? ==> |r.value.value| == count
    decreases count
  {
    if count == 0 then
      Success(Parsed([], s))
    else
      var first :- parse(s);
      var rest :- ParseMany(parse, first.rest, count - 1);
      Success(Parsed([first.value] + rest.value, rest.rest))
  }

  /** Reading one item more than `n` is reading one item and then `n`. */
  lemma ManyStep<T>(parse: Bytes -> Result<Parsed<T>, RepositoryError>, s: Bytes, n: nat)
    ensures parse(s).Failure? ==> ParseMany(parse, s, n + 1) == Failure(parse(s).error)
    ensures parse(s).Success? ==>
              var others := ParseMany(parse, parse(s).value.rest, n);
              ParseMany(parse, s, n + 1) ==
                if others.Failure? then Failure(others.error)
                else Success(Parsed([parse(s).value.value] + others.value.value, others.value.rest))
  {
  }

  function ManyThen<T>(encode: (T, Bytes) -> Bytes, items: seq<T>, rest: Bytes): Bytes {
    if items == [] then rest else encode(items[0], ManyThen(encode, items[1..], rest))
  }

  ghost predicate Exact<T(!new)>(parse: Bytes -> Result<Parsed<T>, RepositoryError>, encode: (T, Bytes) -> Bytes) {
    forall s, item, rest :: parse(s) == Success(Parsed(item, rest)) <==> s == encode(item, rest)
  }

  /** Repetition of an exact item is exact. */
  lemma {:induction false} ManyExact<T(!new)>(
    parse: Bytes -> Result<Parsed<T>, RepositoryError>, encode: (T, Bytes) -> Bytes, s: Bytes, items: seq<T>, rest: Bytes)
    requires Exact(parse, encode)
    ensures ParseMany(parse, s, |items|) == Success(Parsed(items, rest)) <==> s == ManyThen(encode, items, rest)
    decreases |items|
  {
    if items != [] {
      var tail := ManyThen(encode, items[1..], rest);
      if s == encode(items[0], tail) {
        assert parse(s) == Success(Parsed(items[0], tail));
        ManyExact(parse, encode, tail, items[1..], rest);
        assert [items[0]] + items[1..] == items;
      }
      if ParseMany(parse, s, |items|) == Success(Parsed(items, rest)) {
        var first := parse(s).value;
        assert s == encode(first.value, first.rest);
        var others := ParseMany(parse, first.rest, |items| - 1).value;
        assert items == [first.value] + others.value;
        assert items[1..] == others.value;
        ManyExact(parse, encode, first.rest, items[1..], rest);
      }
    }
  }
}
