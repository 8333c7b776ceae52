/**
  Build and reuse keys: the canonical JSON text that is digested determines everything the
  key is meant to depend on.
 */
module Identity {
  import opened Text
  import opened Cbor
  import opened Json

  // ----- Writing canonical JSON into a buffer -----

  class Output {
    var text: string

    constructor ()
      ensures text == ""
    {
      text := "";
    }

    /** Appends the canonical text of the value. */
    method WriteCanonical(value: Value)
      modifies this
      ensures text == old(text) + Canonical(value)
      decreases value, 1
    {
      match value {
        case Null => text := text + "null";
        case Bool(flag) => text := text + if flag then "true" else "false";
        case Number(token) => text := text + token;
        case Str(s) => text := text + Quote(s);
        case Array(items) =>
          ghost var start := text;
          text := text + "[";
          WriteItems(items);
          ConcatAssociative(start, "[", ItemsText(items));
          text := text + "]";
          ConcatAssociative(start, "[" + ItemsText(items), "]");
        case Object(members) =>
          ghost var start := text;
          var keys := SortedKeys(members);
          text := text + "{";
          WriteMembers(members, keys);
          ConcatAssociative(start, "{", MembersText(members, keys));
          text := text + "}";
          ConcatAssociative(start, "{" + MembersText(members, keys), "}");
      }
    }

    method WriteItems(items: seq<Value>)
      modifies this
      ensures text == old(text) + ItemsText(items)
      decreases items
    {
      ghost var start := text;
      for i := 0 to |items|
        invariant text + ItemsLeft(items, i) == start + ItemsText(items)
      {
        ghost var before := text;
        ItemsStep(items, i, before);
        if i > 0 {
          text := text + ",";
        }
        WriteCanonical(items[i]);
      }
    }

    method WriteMembers(members: seq<Member>, keys: seq<string>)
      requires AllPresent(members, keys)
      modifies this
      ensures text == old(text) + MembersText(members, keys)
      decreases members, 1
    {
      ghost var start := text;
      assert keys[0..] == keys;
      for i := 0 to |keys|
        invariant text + MembersLeft(members, keys, i) == start + MembersText(members, keys)
      {
        ghost var before := text;
        MembersStep(members, keys, i, before);
        if i > 0 {
          text := text + ",";
        }
        WriteMember(members, keys[i]);
      }
    }

    method WriteMember(members: seq<Member>, key: string)
      requires HasKey(members, key)
      modifies this
      ensures text == old(text) + MemberText(members, key)
      decreases members, 0
    {
      ghost var start, value := text, members[IndexOf(members, key)].value;
      text := text + Quote(key);
      text := text + ":";
      WriteCanonical(members[IndexOf(members, key)].value);
      ConcatAssociative(start, Quote(key), ":");
      ConcatAssociative(start, Quote(key) + ":", Canonical(value));
    }
  }

  /** What is still to be written from item `i` on. */
  function ItemsLeft(items: seq<Value>, i: nat): string
    requires i <= |items|
  {
    if i == |items| then "" else (if i > 0 then "," else "") + ItemsText(items[i..])
  }

  function MembersLeft(members: seq<Member>, keys: seq<string>, i: nat): string
    requires i <= |keys| && AllPresent(members, keys)
  {
    if i == |keys| then "" else (if i > 0 then "," else "") + MembersText(members, keys[i..])
  }

  lemma ItemsStep(items: seq<Value>, i: nat, before: string)
    requires i < |items|
    ensures before + ItemsLeft(items, i)
            == (if i > 0 then before + "," else before) + Canonical(items[i]) + ItemsLeft(items, i + 1)
  {
    var separator, text, left := if i > 0 then "," else "", Canonical(items[i]), ItemsLeft(items, i + 1);
    assert items[i..][1..] == items[i + 1..];
    assert ItemsText(items[i..]) == text + left by {
      if i + 1 < |items| {
        ConcatAssociative(text, ",", ItemsText(items[i + 1..]));
      }
    }
    ConcatAssociative(before, separator, text + left);
    ConcatAssociative(before + separator, text, left);
  }

  lemma MembersStep(members: seq<Member>, keys: seq<string>, i: nat, before: string)
    requires AllPresent(members, keys) && i < |keys|
    ensures before + MembersLeft(members, keys, i)
            == (if i > 0 then before + "," else before) + MemberText(members, keys[i]) + MembersLeft(members, keys, i + 1)
  {
    var separator, left := if i > 0 then "," else "", MembersLeft(members, keys, i + 1);
    var text := MemberText(members, keys[i]);
    assert keys[i..][1..] == keys[i + 1..];
    assert MembersText(members, keys[i..]) == text + left by {
      if i + 1 < |keys| {
        ConcatAssociative(text, ",", MembersText(members, keys[i + 1..]));
      }
    }
    ConcatAssociative(before, separator, text + left);
    ConcatAssociative(before + separator, text, left);
  }

  // ----- Hexadecimal text -----

  type Digest = b: Bytes | |b| == 32 witness seq(32, _ => 0)

  function Hex(bytes: Bytes): (r: string)
    ensures |r| == 2 * |bytes|
  {
    if bytes == [] then "" else Hex(bytes[..|bytes| - 1]) + HexPair(bytes[|bytes| - 1])
  }

  function HexPair(b: Byte): string {
    [HEX[b as int / 16], HEX[b as int % 16]]
  }

  method ToHex(bytes: Bytes) returns (text: string)
    ensures text == Hex(bytes)
  {
    text := "";
    for i := 0 to |bytes|
      invariant text == Hex(bytes[..i])
    {
      assert bytes[..i + 1][..i] == bytes[..i];
      text := text + [HEX[bytes[i] as int / 16]];
      text := text + [HEX[bytes[i] as int % 16]];
    }
    assert bytes[..|bytes|] == bytes;
  }

  lemma {:induction false} HexIsInjective(a: Bytes, b: Bytes)
    requires Hex(a) == Hex(b)
    ensures a == b
  {
    if a != [] {
      var n := |a| - 1;
      var frontA, frontB := Hex(a[..n]), Hex(b[..n]);
      assert Hex(a)[..2 * n] == frontA && Hex(b)[..2 * n] == frontB;
      HexIsInjective(a[..n], b[..n]);
      assert Hex(a)[2 * n] == HexPair(a[n])[0] && Hex(b)[2 * n] == HexPair(b[n])[0];
      assert Hex(a)[2 * n + 1] == HexPair(a[n])[1] && Hex(b)[2 * n + 1] == HexPair(b[n])[1];
      HexDigitInjective(a[n] as int / 16, b[n] as int / 16);
      HexDigitInjective(a[n] as int % 16, b[n] as int % 16);
      assert a == a[..n] + [a[n]] && b == b[..n] + [b[n]];
    }
  }

  // ----- Key pre-images -----

  datatype KeyKind = BuildKey | ReuseKey

  const INVOCATION_SCHEMA := "bobr-build-invocation-v5"
  const REUSE_INVOCATION_SCHEMA := "bobr-build-reuse-invocation-v5"

  function Schema(kind: KeyKind): string {
    if kind.BuildKey? then INVOCATION_SCHEMA else REUSE_INVOCATION_SCHEMA
  }

  function HashField(kind: KeyKind): string {
    if kind.BuildKey? then "build_key" else "object_hash"
  }

  /** One input slot and the hash wired into it. */
  datatype Input = Input(name: string, hash: Digest)

  /**
    What a key depends on. The inputs are those of an ordered map: they are listed in
    ascending order of slot names, so equal maps are equal lists.
   */
  datatype Invocation = Invocation(kind: KeyKind, tag: string, version: string, config: Digest, inputs: seq<Input>)

  function InputValue(kind: KeyKind, input: Input): Value {
    Object([Member("name", Str(input.name)), Member(HashField(kind), Str(Hex(input.hash)))])
  }

  function InputValues(kind: KeyKind, inputs: seq<Input>): (values: seq<Value>)
    ensures |values| == |inputs|
    ensures forall i | 0 <= i < |inputs| :: values[i] == InputValue(kind, inputs[i])
  {
    seq(|inputs|, i requires 0 <= i < |inputs| => InputValue(kind, inputs[i]))
  }

  function Root(v: Invocation): Value {
    Object([Member("schema", Str(Schema(v.kind))),
            Member("builder_tag", Str(v.tag)),
            Member("builder_version", Str(v.version)),
            Member("config", Str(Hex(v.config))),
            Member("inputs", Array(InputValues(v.kind, v.inputs)))])
  }

  /** The text that is digested. */
  function Preimage(v: Invocation): string {
    Canonical(Root(v))
  }

  lemma NamesDiffer(kind: KeyKind)
    ensures "name" != HashField(kind)
    ensures "schema" != "builder_tag" && "schema" != "builder_version" && "schema" != "config" && "schema" != "inputs"
    ensures "builder_tag" != "builder_version" && "builder_tag" != "config" && "builder_tag" != "inputs"
    ensures "builder_version" != "config" && "builder_version" != "inputs" && "config" != "inputs"
    ensures Schema(BuildKey) != Schema(ReuseKey)
  {
    assert "name"[0] != "build_key"[0] && "name"[0] != "object_hash"[0];
    assert "schema"[0] != "builder_tag"[0] && "builder_tag"[8] != "builder_version"[8];
    assert "builder_version"[0] != "config"[0] && "config"[0] != "inputs"[0];
    assert |INVOCATION_SCHEMA| != |REUSE_INVOCATION_SCHEMA|;
  }

  lemma InputIsWellFormed(kind: KeyKind, input: Input)
    ensures WellFormed(InputValue(kind, input))
  {
    NamesDiffer(kind);
  }

  lemma RootIsWellFormed(v: Invocation)
    ensures WellFormed(Root(v))
  {
    NamesDiffer(v.kind);
    var inputs := InputValues(v.kind, v.inputs);
    forall i | 0 <= i < |inputs|
      ensures WellFormed(inputs[i])
    {
      InputIsWellFormed(v.kind, v.inputs[i]);
    }
    assert WellFormed(Array(inputs));
  }

  /** Values at the same place of objects with the same distinct keys. */
  lemma SameAt(a: seq<Member>, b: seq<Member>, i: nat)
    requires Same(Object(a), Object(b)) && WellFormed(Object(b)) && i < |a| && a[i].key == b[i].key
    ensures Same(a[i].value, b[i].value)
  {
    assert IndexOf(b, a[i].key) == i;
  }

  lemma InputsAreEqual(kind: KeyKind, a: Input, b: Input)
    requires Same(InputValue(kind, a), InputValue(kind, b))
    ensures a == b
  {
    InputIsWellFormed(kind, b);
    SameAt(InputValue(kind, a).members, InputValue(kind, b).members, 0);
    SameAt(InputValue(kind, a).members, InputValue(kind, b).members, 1);
    HexIsInjective(a.hash, b.hash);
  }

  lemma FieldsAreEqual(v: Invocation, w: Invocation)
    requires Same(Root(v), Root(w))
    ensures v.kind == w.kind && v.tag == w.tag && v.version == w.version && v.config == w.config
    ensures Same(Array(InputValues(v.kind, v.inputs)), Array(InputValues(w.kind, w.inputs)))
  {
    RootAt(v, w, 0);
    RootAt(v, w, 1);
    RootAt(v, w, 2);
    RootAt(v, w, 3);
    RootAt(v, w, 4);
    NamesDiffer(v.kind);
    HexIsInjective(v.config, w.config);
  }

  lemma RootAt(v: Invocation, w: Invocation, i: nat)
    requires Same(Root(v), Root(w)) && i < 5
    ensures Same(Root(v).members[i].value, Root(w).members[i].value)
  {
    RootIsWellFormed(w);
    SameAt(Root(v).members, Root(w).members, i);
  }

  /** Equal pre-images mean equal invocations: kind, tag, version, config digest and inputs. */
  lemma PreimagesAreInjective(v: Invocation, w: Invocation)
    requires Preimage(v) == Preimage(w)
    ensures v == w
  {
    RootIsWellFormed(v);
    RootIsWellFormed(w);
    CanonicalIsExact(Root(v), Root(w));
    FieldsAreEqual(v, w);
    assert |v.inputs| == |w.inputs|;
    forall i | 0 <= i < |v.inputs|
      ensures v.inputs[i] == w.inputs[i]
    {
      InputsAreEqual(v.kind, v.inputs[i], w.inputs[i]);
    }
  }

  /** A build pre-image is never a reuse pre-image. */
  lemma KindsNeverCoincide(v: Invocation, w: Invocation)
    requires v.kind != w.kind
    ensures Preimage(v) != Preimage(w)
  {
    if Preimage(v) == Preimage(w) {
      PreimagesAreInjective(v, w);
    }
  }
}
