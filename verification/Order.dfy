/** Strict total orders, lexicographic order, and sorting. */
module Order {

  // ----- Orders -----

  ghost predicate StrictTotal<T(!new)>(lt: (T, T) -> bool) {
    && (forall x :: !lt(x, x))
    && (forall x, y, z :: lt(x, y) && lt(y, z) ==> lt(x, z))
    && (forall x, y :: x != y ==> lt(x, y) || lt(y, x))
  }

  /** Lexicographic order: the order of byte strings and of text. */
  predicate Below(a: seq<int>, b: seq<int>) {
    b != [] && (a == [] || a[0] < b[0] || (a[0] == b[0] && Below(a[1..], b[1..])))
  }

  lemma {:induction false} BelowIrreflexive(a: seq<int>)
    ensures !Below(a, a)
  {
    if a != [] {
      BelowIrreflexive(a[1..]);
    }
  }

  lemma {:induction false} BelowTransitive(a: seq<int>, b: seq<int>, c: seq<int>)
    requires Below(a, b) && Below(b, c)
    ensures Below(a, c)
  {
    if a != [] && a[0] == b[0] && b[0] == c[0] {
      BelowTransitive(a[1..], b[1..], c[1..]);
    }
  }

  lemma {:induction false} BelowConnected(a: seq<int>, b: seq<int>)
    requires a != b
    ensures Below(a, b) || Below(b, a)
  {
    if a != [] && b != [] && a[0] == b[0] {
      assert a == [a[0]] + a[1..] && b == [b[0]] + b[1..];
      BelowConnected(a[1..], b[1..]);
    }
  }

  function Codes(text: string): (codes: seq<int>)
    ensures |codes| == |text|
    ensures forall i | 0 <= i < |text| :: codes[i] == text[i] as int
  {
    seq(|text|, i requires 0 <= i < |text| => text[i] as int)
  }

  /** Order of strings by code point, which is also the order of their UTF-8 bytes. */
  predicate TextBelow(a: string, b: string) {
    Below(Codes(a), Codes(b))
  }

  lemma CodesInjective(a: string, b: string)
    requires Codes(a) == Codes(b)
    ensures a == b
  {
    forall i | 0 <= i < |a|
      ensures a[i] == b[i]
    {
      assert Codes(a)[i] == Codes(b)[i];
    }
  }

  lemma TextBelowIsTotal()
    ensures StrictTotal(TextBelow)
  {
    forall x: string
      ensures !TextBelow(x, x)
    {
      BelowIrreflexive(Codes(x));
    }
    forall x: string, y: string, z: string | TextBelow(x, y) && TextBelow(y, z)
      ensures TextBelow(x, z)
    {
      BelowTransitive(Codes(x), Codes(y), Codes(z));
    }
    forall x: string, y: string | x != y
      ensures TextBelow(x, y) || TextBelow(y, x)
    {
      if Codes(x) == Codes(y) {
        CodesInjective(x, y);
      }
      BelowConnected(Codes(x), Codes(y));
    }
  }

  // ----- Sorting -----

  ghost predicate Sorted<T>(lt: (T, T) -> bool, s: seq<T>) {
    forall i, j | 0 <= i < j < |s| :: !lt(s[j], s[i])
  }

  ghost predicate Ascending<T>(lt: (T, T) -> bool, s: seq<T>) {
    forall i, j | 0 <= i < j < |s| :: lt(s[i], s[j])
  }

  /** Puts `x` after every element of `s` that is not greater. */
  function Insert<T>(lt: (T, T) -> bool, x: T, s: seq<T>): (r: seq<T>)
    ensures multiset(r) == multiset(s) + multiset{x}
  {
    if s == [] then
      [x]
    else if lt(x, s[|s| - 1]) then
      assert s == s[..|s| - 1] + [s[|s| - 1]];
      Insert(lt, x, s[..|s| - 1]) + [s[|s| - 1]]
    else
      s + [x]
  }

  /** A stable sort. */
  function Sort<T>(lt: (T, T) -> bool, s: seq<T>): (r: seq<T>)
    ensures multiset(r) == multiset(s)
  {
    if s == [] then
      []
    else
      assert s == s[..|s| - 1] + [s[|s| - 1]];
      Insert(lt, s[|s| - 1], Sort(lt, s[..|s| - 1]))
  }

  /** The part of a strict weak order that sorting needs: keys of one order, ties allowed. */
  ghost predicate WeakOrder<T(!new)>(lt: (T, T) -> bool) {
    && (forall x :: !lt(x, x))
    && (forall x, y, z :: !lt(y, x) && !lt(z, y) ==> !lt(z, x))
    && (forall x, y :: lt(x, y) ==> !lt(y, x))
  }

  lemma TotalIsWeak<T(!new)>(lt: (T, T) -> bool)
    requires StrictTotal(lt)
    ensures WeakOrder(lt)
  {
    forall x, y, z | !lt(y, x) && !lt(z, y)
      ensures !lt(z, x)
    {
      assert (x == y || lt(x, y)) && (y == z || lt(y, z));
    }
  }

  lemma SortedAppend<T>(lt: (T, T) -> bool, s: seq<T>, x: T)
    requires Sorted(lt, s) && forall i | 0 <= i < |s| :: !lt(x, s[i])
    ensures Sorted(lt, s + [x])
  {
  }

  lemma {:induction false} InsertSorts<T(!new)>(lt: (T, T) -> bool, x: T, s: seq<T>)
    requires WeakOrder(lt) && Sorted(lt, s)
    ensures Sorted(lt, Insert(lt, x, s))
  {
    if s != [] {
      var last, front := s[|s| - 1], s[..|s| - 1];
      if lt(x, last) {
        InsertSorts(lt, x, front);
        var r := Insert(lt, x, front);
        forall i | 0 <= i < |r|
          ensures !lt(last, r[i])
        {
          assert r[i] in multiset(r);
          if r[i] != x {
            assert r[i] in multiset(front);
            var k :| 0 <= k < |front| && front[k] == r[i];
          }
        }
        SortedAppend(lt, r, last);
      } else {
        forall i | 0 <= i < |s|
          ensures !lt(x, s[i])
        {
          assert i < |s| - 1 ==> !lt(last, s[i]);
        }
        SortedAppend(lt, s, x);
      }
    }
  }

  lemma {:induction false} SortSorts<T(!new)>(lt: (T, T) -> bool, s: seq<T>)
    requires WeakOrder(lt)
    ensures Sorted(lt, Sort(lt, s))
  {
    if s != [] {
      SortSorts(lt, s[..|s| - 1]);
      InsertSorts(lt, s[|s| - 1], Sort(lt, s[..|s| - 1]));
    }
  }

  lemma SortKeepsElements<T>(lt: (T, T) -> bool, s: seq<T>, x: T)
    ensures x in Sort(lt, s) <==> x in s
  {
    assert x in Sort(lt, s) <==> x in multiset(Sort(lt, s));
    assert x in s <==> x in multiset(s);
  }

  /** An ascending sequence is determined by its set of elements. */
  lemma {:induction false} AscendingUnique<T(!new)>(lt: (T, T) -> bool, a: seq<T>, b: seq<T>)
    requires StrictTotal(lt) && Ascending(lt, a) && Ascending(lt, b)
    requires forall x :: x in a <==> x in b
    ensures a == b
  {
    assert b != [] ==> b[0] in b;
    if a != [] {
      assert a[0] in b && (b != [] ==> b[0] in a);
      var j :| 0 <= j < |b| && b[j] == a[0];
      var i :| 0 <= i < |a| && a[i] == b[0];
      assert a[0] == b[0];
      forall x
        ensures x in a[1..] <==> x in b[1..]
      {
        TailMembers(lt, a, x);
        TailMembers(lt, b, x);
      }
      AscendingUnique(lt, a[1..], b[1..]);
      assert a == [a[0]] + a[1..] && b == [b[0]] + b[1..];
    }
  }

  lemma TailMembers<T(!new)>(lt: (T, T) -> bool, s: seq<T>, x: T)
    requires StrictTotal(lt) && Ascending(lt, s) && s != []
    ensures x in s[1..] <==> x in s && x != s[0]
  {
    if x in s[1..] {
      var k :| 0 <= k < |s[1..]| && s[1..][k] == x;
      assert s[k + 1] == x;
      assert lt(s[0], s[k + 1]);
    }
    if x in s && x != s[0] {
      var k :| 0 <= k < |s| && s[k] == x;
      assert s[1..][k - 1] == x;
    }
  }
}
