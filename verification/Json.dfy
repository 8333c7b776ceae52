/**
  Canonical JSON text: object keys sorted, nothing but the tokens and separators.

  An object is the list of its members in iteration order, with distinct keys; two values
  are the same when they differ at most in the order of members.
 */
module Json {
  import opened Text
  import opened Order

  datatype Value =
    | Null
    | Bool(flag: bool)
    | Number(token: string)
    | Str(text: string)
    | Array(items: seq<Value>)
    | Object(members: seq<Member>)

  datatype Member = Member(key: string, value: Value)

  // ----- Tokens -----

  predicate NumberChar(c: char) {
    '0' <= c <= '9' || c == '-' || c == '+' || c == '.' || c == 'e' || c == 'E'
  }

  /** What a number token looks like: it starts like a number and has no other characters. */
  predicate NumberToken(token: string) {
    && token != ""
    && ('0' <= token[0] <= '9' || token[0] == '-')
    && forall i | 0 <= i < |token| :: NumberChar(token[i])
  }

  const HEX := "0123456789abcdef"

  function EscapeChar(c: char): (r: string)
    ensures r != "" && r[0] != '"'
  {
    if c == '"' then "\\\""
    else if c == '\\' then "\\\\"
    else if c == '\U{8}' then "\\b"
    else if c == '\U{C}' then "\\f"
    else if c == '\n' then "\\n"
    else if c == '\r' then "\\r"
    else if c == '\t' then "\\t"
    else if c < ' ' then "\\u00" + [HEX[c as int / 16], HEX[c as int % 16]]
    else [c]
  }

  function Escape(text: string): string {
    if text == "" then "" else EscapeChar(text[0]) + Escape(text[1..])
  }

  function Quote(text: string): string {
    "\"" + Escape(text) + "\""
  }

  // ----- Canonical text -----

  function KeysOf(members: seq<Member>): (keys: seq<string>)
    ensures |keys| == |members| && forall i | 0 <= i < |keys| :: keys[i] == members[i].key
  {
    seq(|members|, i requires 0 <= i < |members| => members[i].key)
  }

  predicate HasKey(members: seq<Member>, key: string) {
    key in KeysOf(members)
  }

  function IndexOf(members: seq<Member>, key: string): (i: nat)
    requires HasKey(members, key)
    ensures i < |members| && members[i].key == key
    ensures forall k | 0 <= k < i :: members[k].key != key
  {
    if members[0].key == key then
      0
    else
      assert KeysOf(members)[1..] == KeysOf(members[1..]);
      1 + IndexOf(members[1..], key)
  }

  function SortedKeys(members: seq<Member>): (keys: seq<string>)
    ensures forall i | 0 <= i < |keys| :: HasKey(members, keys[i])
  {
    var keys := Sort(TextBelow, KeysOf(members));
    assert forall i | 0 <= i < |keys| :: keys[i] in multiset(keys);
    keys
  }

  function Canonical(v: Value): string
    decreases v
  {
    match v
    case Null => "null"
    case Bool(flag) => if flag then "true" else "false"
    case Number(token) => token
    case Str(text) => Quote(text)
    case Array(items) => "[" + ItemsText(items) + "]"
    case Object(members) => "{" + MembersText(members, SortedKeys(members)) + "}"
  }

  function ItemsText(items: seq<Value>): string
    decreases items
  {
    if items == [] then ""
    else if |items| == 1 then Canonical(items[0])
    else Canonical(items[0]) + "," + ItemsText(items[1..])
  }

  function MemberText(members: seq<Member>, key: string): string
    requires HasKey(members, key)
    decreases members, 0
  {
    Quote(key) + ":" + Canonical(members[IndexOf(members, key)].value)
  }

  function MembersText(members: seq<Member>, keys: seq<string>): string
    requires forall i | 0 <= i < |keys| :: HasKey(members, keys[i])
    decreases members, 1, |keys|
  {
    if keys == [] then ""
    else if |keys| == 1 then MemberText(members, keys[0])
    else MemberText(members, keys[0]) + "," + MembersText(members, keys[1..])
  }

  // ----- Well-formed values, equal up to member order -----

  predicate WellFormed(v: Value)
    decreases v
  {
    match v
    case Number(token) => NumberToken(token)
    case Array(items) => forall i | 0 <= i < |items| :: WellFormed(items[i])
    case Object(members) =>
      && (forall i, j | 0 <= i < j < |members| :: members[i].key != members[j].key)
      && (forall i | 0 <= i < |members| :: WellFormed(members[i].value))
    case _ => true
  }

  predicate Same(v: Value, w: Value)
    decreases v
  {
    match v
    case Array(items) =>
      && w.Array? && |items| == |w.items|
      && (forall i | 0 <= i < |items| :: Same(items[i], w.items[i]))
    case Object(members) =>
      && w.Object? && |members| == |w.members|
      && (forall i | 0 <= i < |members| ::
            && HasKey(w.members, members[i].key)
            && Same(members[i].value, w.members[IndexOf(w.members, members[i].key)].value))
    case _ => v == w
  }

  // ----- Tokens can be told apart, and where they end -----

  lemma EscapeCharPrefix(c: char, d: char, x: string, y: string)
    requires EscapeChar(c) + x == EscapeChar(d) + y
    ensures c == d && x == y
  {
    var p, q := EscapeChar(c), EscapeChar(d);
    assert (p + x)[0] == p[0] && (q + y)[0] == q[0];
    if p[0] == '\\' {
      assert (p + x)[1] == p[1] && (q + y)[1] == q[1];
      if p[1] == 'u' {
        assert (p + x)[4] == p[4] && (q + y)[4] == q[4];
        assert (p + x)[5] == p[5] && (q + y)[5] == q[5];
        HexDigitInjective(c as int / 16, d as int / 16);
        HexDigitInjective(c as int % 16, d as int % 16);
      }
    }
    assert c == d;
    ConcatCancel(p, x, y);
  }

  lemma HexDigitInjective(i: nat, j: nat)
    requires i < 16 && j < 16
    ensures HEX[i] == HEX[j] ==> i == j
  {
  }

  /** A quoted string is told from any other by its text, and ends where its quote does. */
  lemma {:induction false} EscapePrefix(s: string, t: string, x: string, y: string)
    requires Escape(s) + "\"" + x == Escape(t) + "\"" + y
    ensures s == t && x == y
  {
    EscapeUnfold(s, x);
    EscapeUnfold(t, y);
    if s != "" && t != "" {
      EscapeCharPrefix(s[0], t[0], Escape(s[1..]) + "\"" + x, Escape(t[1..]) + "\"" + y);
      EscapePrefix(s[1..], t[1..], x, y);
      assert s == [s[0]] + s[1..] && t == [t[0]] + t[1..];
    } else if s == "" && t == "" {
      ConcatCancel("\"", x, y);
    }
  }

  lemma EscapeUnfold(s: string, x: string)
    ensures var text := Escape(s) + "\"" + x;
            if s == "" then text == "\"" + x && text[0] == '"'
            else text == EscapeChar(s[0]) + (Escape(s[1..]) + "\"" + x) && text[0] != '"'
  {
    if s != "" {
      ConcatAssociative(EscapeChar(s[0]), Escape(s[1..]), "\"");
      ConcatAssociative(EscapeChar(s[0]), Escape(s[1..]) + "\"", x);
    }
  }

  lemma QuotePrefix(s: string, t: string, x: string, y: string)
    requires Quote(s) + x == Quote(t) + y
    ensures s == t && x == y
  {
    var quote := "\"";
    ConcatAssociative(quote, Escape(s), quote);
    ConcatAssociative(quote, Escape(s) + quote, x);
    ConcatAssociative(quote, Escape(t), quote);
    ConcatAssociative(quote, Escape(t) + quote, y);
    ConcatCancel(quote, Escape(s) + quote + x, Escape(t) + quote + y);
    EscapePrefix(s, t, x, y);
  }

  /** Text that may follow a value. */
  predicate Delimited(x: string) {
    x == "" || x[0] == ',' || x[0] == ']' || x[0] == '}'
  }

  lemma {:induction false} NumberPrefix(a: string, b: string, x: string, y: string)
    requires forall i | 0 <= i < |a| :: NumberChar(a[i])
    requires forall i | 0 <= i < |b| :: NumberChar(b[i])
    requires a + x == b + y && Delimited(x) && Delimited(y)
    ensures a == b && x == y
  {
    if a != "" && b != "" {
      assert (a + x)[0] == a[0] && (b + y)[0] == b[0];
      assert (a + x)[1..] == a[1..] + x && (b + y)[1..] == b[1..] + y;
      NumberPrefix(a[1..], b[1..], x, y);
      assert a == [a[0]] + a[1..] && b == [b[0]] + b[1..];
    } else {
      assert a == "" ==> a + x == x;
      assert b == "" ==> b + y == y;
    }
  }

  predicate StartsValue(c: char) {
    c != ',' && c != ']' && c != '}'
  }

  /** The first character of a value tells its kind. */
  predicate StartsLike(v: Value, c: char) {
    match v
    case Null => c == 'n'
    case Bool(flag) => c == if flag then 't' else 'f'
    case Number(_) => '0' <= c <= '9' || c == '-'
    case Str(_) => c == '"'
    case Array(_) => c == '['
    case Object(_) => c == '{'
  }

  lemma CanonicalStarts(v: Value, x: string)
    requires WellFormed(v)
    ensures Canonical(v) != "" && StartsLike(v, (Canonical(v) + x)[0]) && StartsValue((Canonical(v) + x)[0])
  {
    assert Canonical(v) != "";
    assert (Canonical(v) + x)[0] == Canonical(v)[0];
  }

  /** The text of items up to the closing bracket, and what follows it. */
  function ItemsThen(items: seq<Value>, x: string): string {
    ItemsText(items) + "]" + x
  }

  function AfterItem(rest: seq<Value>, x: string): string {
    if rest == [] then "]" + x else "," + ItemsThen(rest, x)
  }

  lemma ItemsUnfold(items: seq<Value>, x: string)
    ensures ItemsThen(items, x) ==
            if items == [] then "]" + x else Canonical(items[0]) + AfterItem(items[1..], x)
  {
    if |items| == 1 {
      ConcatAssociative(Canonical(items[0]), "]", x);
    } else if |items| > 1 {
      var head, tail := Canonical(items[0]), ItemsText(items[1..]);
      ConcatAssociative(head + ",", tail, "]");
      ConcatAssociative(head + ",", tail + "]", x);
      ConcatAssociative(head, ",", tail + "]" + x);
    }
  }

  /** A value is told from any other by its text, whatever may follow. */
  lemma {:induction false} ValuePrefix(v: Value, w: Value, x: string, y: string)
    requires WellFormed(v) && WellFormed(w) && Delimited(x) && Delimited(y)
    requires Canonical(v) + x == Canonical(w) + y
    ensures Same(v, w) && x == y
    decreases v
  {
    CanonicalStarts(v, x);
    CanonicalStarts(w, y);
    match v {
      case Null => ConcatCancel("null", x, y);
      case Bool(_) => ConcatCancel(Canonical(v), x, y);
      case Number(token) => NumberPrefix(token, w.token, x, y);
      case Str(text) => QuotePrefix(text, w.text, x, y);
      case Array(items) =>
        BracketUnfold("[", ItemsText(items), "]", x);
        BracketUnfold("[", ItemsText(w.items), "]", y);
        ConcatCancel("[", ItemsThen(items, x), ItemsThen(w.items, y));
        ItemsPrefix(items, w.items, x, y);
      case Object(members) =>
        var keys, others := SortedKeys(members), SortedKeys(w.members);
        BracketUnfold("{", MembersText(members, keys), "}", x);
        BracketUnfold("{", MembersText(w.members, others), "}", y);
        ConcatCancel("{", MembersThen(members, keys, x), MembersThen(w.members, others, y));
        MembersPrefix(members, keys, w.members, others, x, y);
        SameMembers(members, w.members);
    }
  }

  lemma BracketUnfold(open: string, inner: string, close: string, x: string)
    ensures open + inner + close + x == open + (inner + close + x)
  {
    ConcatAssociative(open, inner, close);
    ConcatAssociative(open, inner + close, x);
  }

  lemma {:induction false} ItemsPrefix(a: seq<Value>, b: seq<Value>, x: string, y: string)
    requires forall i | 0 <= i < |a| :: WellFormed(a[i])
    requires forall i | 0 <= i < |b| :: WellFormed(b[i])
    requires ItemsThen(a, x) == ItemsThen(b, y)
    requires Delimited(x) && Delimited(y)
    ensures |a| == |b| && x == y
    ensures forall i | 0 <= i < |a| :: Same(a[i], b[i])
    decreases a
  {
    ItemsUnfold(a, x);
    ItemsUnfold(b, y);
    if a != [] {
      CanonicalStarts(a[0], AfterItem(a[1..], x));
    }
    if b != [] {
      CanonicalStarts(b[0], AfterItem(b[1..], y));
    }
    if a == [] {
      ConcatCancel("]", x, y);
    } else {
      var restA, restB := AfterItem(a[1..], x), AfterItem(b[1..], y);
      ValuePrefix(a[0], b[0], restA, restB);
      assert restA[0] == restB[0];
      if |a| == 1 {
        ConcatCancel("]", x, y);
      } else {
        ConcatCancel(",", ItemsThen(a[1..], x), ItemsThen(b[1..], y));
        ItemsPrefix(a[1..], b[1..], x, y);
        forall i | 0 <= i < |a|
          ensures Same(a[i], b[i])
        {
          assert i > 0 ==> a[i] == a[1..][i - 1] && b[i] == b[1..][i - 1];
        }
      }
    }
  }

  function MembersThen(members: seq<Member>, keys: seq<string>, x: string): string
    requires forall i | 0 <= i < |keys| :: HasKey(members, keys[i])
  {
    MembersText(members, keys) + "}" + x
  }

  function AfterMember(members: seq<Member>, rest: seq<string>, x: string): string
    requires forall i | 0 <= i < |rest| :: HasKey(members, rest[i])
  {
    if rest == [] then "}" + x else "," + MembersThen(members, rest, x)
  }

  function ValueOf(members: seq<Member>, key: string): Value
    requires HasKey(members, key)
  {
    members[IndexOf(members, key)].value
  }

  lemma MembersUnfold(members: seq<Member>, keys: seq<string>, x: string)
    requires forall i | 0 <= i < |keys| :: HasKey(members, keys[i])
    ensures MembersThen(members, keys, x) ==
            if keys == [] then "}" + x
            else Quote(keys[0]) + (":" + (Canonical(ValueOf(members, keys[0])) + AfterMember(members, keys[1..], x)))
  {
    if keys != [] {
      var name, text := Quote(keys[0]), Canonical(ValueOf(members, keys[0]));
      var head, after := MemberText(members, keys[0]), AfterMember(members, keys[1..], x);
      assert MembersThen(members, keys, x) == head + after by {
        if |keys| == 1 {
          ConcatAssociative(head, "}", x);
        } else {
          var tail := MembersText(members, keys[1..]);
          ConcatAssociative(head + ",", tail, "}");
          ConcatAssociative(head + ",", tail + "}", x);
          ConcatAssociative(head, ",", tail + "}" + x);
        }
      }
      ConcatAssociative(name + ":", text, after);
      ConcatAssociative(name, ":", text + after);
    }
  }

  predicate ValuesWellFormed(members: seq<Member>) {
    forall i | 0 <= i < |members| :: WellFormed(members[i].value)
  }

  predicate AllPresent(members: seq<Member>, keys: seq<string>) {
    forall i | 0 <= i < |keys| :: HasKey(members, keys[i])
  }

  /** The texts agree on the first member and on what follows it. */
  lemma {:induction false} MemberHead(a: seq<Member>, keysA: seq<string>, b: seq<Member>, keysB: seq<string>, x: string, y: string)
    requires AllPresent(a, keysA) && AllPresent(b, keysB) && ValuesWellFormed(a) && ValuesWellFormed(b)
    requires MembersThen(a, keysA, x) == MembersThen(b, keysB, y)
    requires Delimited(x) && Delimited(y)
    requires keysA != [] && keysB != []
    ensures keysA[0] == keysB[0] && Same(ValueOf(a, keysA[0]), ValueOf(b, keysB[0]))
    ensures AfterMember(a, keysA[1..], x) == AfterMember(b, keysB[1..], y)
    decreases a, |keysA|, 0
  {
    MembersUnfold(a, keysA, x);
    MembersUnfold(b, keysB, y);
    var valueA, valueB := ValueOf(a, keysA[0]), ValueOf(b, keysB[0]);
    var restA, restB := AfterMember(a, keysA[1..], x), AfterMember(b, keysB[1..], y);
    QuotePrefix(keysA[0], keysB[0], ":" + (Canonical(valueA) + restA), ":" + (Canonical(valueB) + restB));
    ConcatCancel(":", Canonical(valueA) + restA, Canonical(valueB) + restB);
    ValuePrefix(valueA, valueB, restA, restB);
  }

  lemma MembersEmptiness(a: seq<Member>, keysA: seq<string>, x: string)
    requires AllPresent(a, keysA)
    ensures var text := MembersThen(a, keysA, x);
            if keysA == [] then text == "}" + x && text[0] == '}' else text[0] == '"'
  {
    MembersUnfold(a, keysA, x);
  }

  lemma {:induction false} MembersPrefix(a: seq<Member>, keysA: seq<string>, b: seq<Member>, keysB: seq<string>, x: string, y: string)
    requires AllPresent(a, keysA) && AllPresent(b, keysB) && ValuesWellFormed(a) && ValuesWellFormed(b)
    requires MembersThen(a, keysA, x) == MembersThen(b, keysB, y)
    requires Delimited(x) && Delimited(y)
    ensures keysA == keysB && x == y
    ensures forall i | 0 <= i < |keysA| :: Same(ValueOf(a, keysA[i]), ValueOf(b, keysA[i]))
    decreases a, |keysA|, 1
  {
    MembersEmptiness(a, keysA, x);
    MembersEmptiness(b, keysB, y);
    if keysA == [] {
      ConcatCancel("}", x, y);
    } else {
      MemberHead(a, keysA, b, keysB, x, y);
      var restA, restB := AfterMember(a, keysA[1..], x), AfterMember(b, keysB[1..], y);
      assert restA[0] == restB[0];
      assert keysA == [keysA[0]] + keysA[1..] && keysB == [keysB[0]] + keysB[1..];
      if |keysA| == 1 {
        ConcatCancel("}", x, y);
      } else {
        ConcatCancel(",", MembersThen(a, keysA[1..], x), MembersThen(b, keysB[1..], y));
        MembersPrefix(a, keysA[1..], b, keysB[1..], x, y);
      }
    }
  }

  /** Objects with the same sorted keys and the same values have the same members. */
  lemma SameMembers(a: seq<Member>, b: seq<Member>)
    requires WellFormed(Object(a)) && WellFormed(Object(b)) && SortedKeys(a) == SortedKeys(b)
    requires forall i | 0 <= i < |SortedKeys(a)| :: Same(ValueOf(a, SortedKeys(a)[i]), ValueOf(b, SortedKeys(a)[i]))
    ensures Same(Object(a), Object(b))
  {
    var keys := SortedKeys(a);
    assert |keys| == |multiset(keys)| == |multiset(KeysOf(a))| == |a|;
    assert |keys| == |multiset(KeysOf(b))| == |b|;
    forall i | 0 <= i < |a|
      ensures HasKey(b, a[i].key) && Same(a[i].value, ValueOf(b, a[i].key))
    {
      assert KeysOf(a)[i] in multiset(KeysOf(a));
      assert a[i].key in multiset(keys);
      var k :| 0 <= k < |keys| && keys[k] == a[i].key;
      assert IndexOf(a, a[i].key) == i;
    }
  }

  // ----- The converse: equal values have equal texts -----

  lemma {:induction false} SameTexts(v: Value, w: Value)
    requires WellFormed(v) && WellFormed(w) && Same(v, w)
    ensures Canonical(v) == Canonical(w)
    decreases v
  {
    match v
    case Array(items) => SameItemsTexts(items, w.items);
    case Object(members) =>
      SameSortedKeys(members, w.members);
      SameMembersTexts(members, w.members, SortedKeys(members));
    case _ =>
  }

  lemma {:induction false} SameItemsTexts(a: seq<Value>, b: seq<Value>)
    requires |a| == |b|
    requires forall i | 0 <= i < |a| :: WellFormed(a[i]) && WellFormed(b[i]) && Same(a[i], b[i])
    ensures ItemsText(a) == ItemsText(b)
    decreases a
  {
    if a != [] {
      SameTexts(a[0], b[0]);
      SameItemsTexts(a[1..], b[1..]);
    }
  }

  lemma KeysAscend(members: seq<Member>)
    requires forall i, j | 0 <= i < j < |members| :: members[i].key != members[j].key
    ensures Ascending(TextBelow, SortedKeys(members))
    ensures forall key :: key in SortedKeys(members) <==> HasKey(members, key)
  {
    TextBelowIsTotal();
    TotalIsWeak(TextBelow);
    var keys := SortedKeys(members);
    SortSorts(TextBelow, KeysOf(members));
    forall key
      ensures key in keys <==> key in KeysOf(members)
    {
      SortKeepsElements(TextBelow, KeysOf(members), key);
    }
    DistinctStays(KeysOf(members), keys);
  }

  lemma DistinctStays(s: seq<string>, t: seq<string>)
    requires multiset(s) == multiset(t) && forall i, j | 0 <= i < j < |s| :: s[i] != s[j]
    ensures forall i, j | 0 <= i < j < |t| :: t[i] != t[j]
  {
    DistinctCounts(s);
    forall i, j | 0 <= i < j < |t|
      ensures t[i] != t[j]
    {
      var rest := t[..i] + t[i + 1..];
      assert t == t[..i] + [t[i]] + t[i + 1..];
      assert multiset(t) == multiset(rest) + multiset{t[i]};
      assert multiset(s)[t[i]] == multiset(rest)[t[i]] + 1;
      assert rest[j - 1] == t[j] && t[j] in multiset(rest);
    }
  }

  lemma {:induction false} DistinctCounts(s: seq<string>)
    requires forall i, j | 0 <= i < j < |s| :: s[i] != s[j]
    ensures forall x :: multiset(s)[x] <= 1
  {
    if s != [] {
      var front, last := s[..|s| - 1], s[|s| - 1];
      DistinctCounts(front);
      assert s == front + [last];
      assert last !in front;
    }
  }

  lemma SameSortedKeys(a: seq<Member>, b: seq<Member>)
    requires WellFormed(Object(a)) && WellFormed(Object(b)) && Same(Object(a), Object(b))
    ensures SortedKeys(a) == SortedKeys(b)
  {
    KeysAscend(a);
    KeysAscend(b);
    TextBelowIsTotal();
    SameKeys(a, b);
    AscendingUnique(TextBelow, SortedKeys(a), SortedKeys(b));
  }

  /** As many distinct keys, all of them present: the key sets are equal. */
  lemma SameKeys(a: seq<Member>, b: seq<Member>)
    requires WellFormed(Object(a)) && WellFormed(Object(b)) && Same(Object(a), Object(b))
    ensures forall key :: HasKey(a, key) <==> HasKey(b, key)
  {
    var keysA, keysB := set key | key in KeysOf(a), set key | key in KeysOf(b);
    DistinctSize(KeysOf(a));
    DistinctSize(KeysOf(b));
    forall key | key in keysA
      ensures key in keysB
    {
      var i :| 0 <= i < |a| && KeysOf(a)[i] == key;
      assert HasKey(b, a[i].key);
    }
    SubsetOfSameSize(keysA, keysB);
    forall key
      ensures HasKey(a, key) <==> HasKey(b, key)
    {
      assert key in keysA <==> key in keysB;
    }
  }

  lemma {:induction false} DistinctSize(s: seq<string>)
    requires forall i, j | 0 <= i < j < |s| :: s[i] != s[j]
    ensures |set x | x in s| == |s|
  {
    if s != [] {
      var front, last := s[..|s| - 1], s[|s| - 1];
      DistinctSize(front);
      assert s == front + [last];
      assert (set x | x in s) == (set x | x in front) + {last};
    }
  }

  lemma SubsetOfSameSize(a: set<string>, b: set<string>)
    requires a <= b && |a| == |b|
    ensures a == b
  {
    assert b == a + (b - a);
    assert |b - a| == 0;
  }

  lemma {:induction false} SameMembersTexts(a: seq<Member>, b: seq<Member>, keys: seq<string>)
    requires WellFormed(Object(a)) && WellFormed(Object(b)) && Same(Object(a), Object(b))
    requires AllPresent(a, keys) && AllPresent(b, keys)
    ensures MembersText(a, keys) == MembersText(b, keys)
    decreases a, |keys|
  {
    if keys != [] {
      var i, j := IndexOf(a, keys[0]), IndexOf(b, keys[0]);
      assert Same(a[i].value, b[j].value);
      SameTexts(a[i].value, b[j].value);
      SameMembersTexts(a, b, keys[1..]);
    }
  }

  /** Canonical texts are equal exactly for values that are the same up to member order. */
  lemma CanonicalIsExact(v: Value, w: Value)
    requires WellFormed(v) && WellFormed(w)
    ensures Canonical(v) == Canonical(w) <==> Same(v, w)
  {
    if Canonical(v) == Canonical(w) {
      assert Canonical(v) + "" == Canonical(w) + "";
      ValuePrefix(v, w, "", "");
    } else if Same(v, w) {
      SameTexts(v, w);
    }
  }
}
