/** Fixed-width repository indexes, searched in place over their raw bytes. */
module Index {
  import opened Wrappers
  import opened Order
  import opened Cbor

  const MAX_METADATA_BYTES := 1024 * 1024 * 1024

  type Key = b: Bytes | |b| == 32 witness seq(32, i => 0)

  /** Raw keys are compared byte by byte. */
  predicate KeyBelow(a: Key, b: Key) {
    Below(a, b)
  }

  lemma KeyBelowIsTotal()
    ensures StrictTotal(KeyBelow)
  {
    forall x: Key
      ensures !KeyBelow(x, x)
    {
      BelowIrreflexive(x);
    }
    forall x: Key, y: Key, z: Key | KeyBelow(x, y) && KeyBelow(y, z)
      ensures KeyBelow(x, z)
    {
      BelowTransitive(x, y, z);
    }
    forall x: Key, y: Key | x != y
      ensures KeyBelow(x, y) || KeyBelow(y, x)
    {
      BelowConnected(x, y);
    }
  }

  // ----- Binary search -----

  /** First index in `[0, length)` that is not before the target. */
  method LowerBound(length: nat, before: nat -> bool) returns (base: nat)
    requires forall i: nat, j: nat :: i <= j < length && before(j) ==> before(i)
    ensures base <= length
    ensures forall i: nat :: i < base ==> before(i)
    ensures forall i: nat :: base <= i < length ==> !before(i)
  {
    base := 0;
    var len := length;
    while len > 0
      invariant base + len <= length
      invariant forall i: nat :: i < base ==> before(i)
      invariant forall i: nat :: base + len <= i < length ==> !before(i)
    {
      var half := len / 2;
      var middle := base + half;
      if before(middle) {
        base := middle + 1;
        len := len - (half + 1);
      } else {
        len := half;
      }
    }
  }

  // ----- Mapping indexes -----

  datatype Record = Record(key: Key, hash: Key)

  function KeyAt(bytes: Bytes, i: nat): Key
    requires 64 * i + 64 <= |bytes|
  {
    bytes[64 * i..64 * i + 32]
  }

  function HashAt(bytes: Bytes, i: nat): Key
    requires 64 * i + 64 <= |bytes|
  {
    bytes[64 * i + 32..64 * i + 64]
  }

  /** The records of an index in wire order. */
  function Records(bytes: Bytes): (records: seq<Record>)
    ensures |records| == |bytes| / 64
    ensures forall i | 0 <= i < |records| :: records[i] == Record(KeyAt(bytes, i), HashAt(bytes, i))
  {
    seq(|bytes| / 64, i requires 0 <= i < |bytes| / 64 => Record(KeyAt(bytes, i), HashAt(bytes, i)))
  }

  predicate KeysSorted(records: seq<Record>) {
    forall i, j | 0 <= i < j < |records| :: !KeyBelow(records[j].key, records[i].key)
  }

  predicate PairsDistinct(records: seq<Record>) {
    forall i, j | 0 <= i < j < |records| :: records[i] != records[j]
  }

  predicate ValidIndex(bytes: Bytes) {
    && |bytes| <= MAX_METADATA_BYTES && |bytes| % 64 == 0
    && KeysSorted(Records(bytes)) && PairsDistinct(Records(bytes))
  }

  /** Hashes already seen for the key of the last of the first `i` records. */
  ghost function SeenForLast(records: seq<Record>, i: nat): set<Key>
    requires i <= |records|
  {
    set k | 0 <= k < i && records[k].key == records[i - 1].key :: records[k].hash
  }

  lemma SortedGrows(records: seq<Record>, i: nat)
    requires i < |records| && KeysSorted(records[..i])
    ensures KeysSorted(records[..i + 1]) <==> i == 0 || !KeyBelow(records[i].key, records[i - 1].key)
  {
    KeyBelowIsTotal();
    TotalIsWeak(KeyBelow);
    var longer := records[..i + 1];
    if i > 0 {
      if KeysSorted(longer) {
        assert !KeyBelow(longer[i].key, longer[i - 1].key);
      }
      if !KeyBelow(records[i].key, records[i - 1].key) {
        forall x, y | 0 <= x < y < |longer|
          ensures !KeyBelow(longer[y].key, longer[x].key)
        {
          if y == i && x < i - 1 {
            assert !KeyBelow(records[..i][i - 1].key, records[..i][x].key);
          } else if y < i {
            assert !KeyBelow(records[..i][y].key, records[..i][x].key);
          }
        }
      }
    }
  }

  /** A key met before in sorted records is the key of the latest record. */
  lemma EarlierKeyIsLast(records: seq<Record>, i: nat, k: nat)
    requires k < i < |records| && KeysSorted(records[..i])
    requires !KeyBelow(records[i].key, records[i - 1].key) && records[k].key == records[i].key
    ensures records[i - 1].key == records[i].key
  {
    KeyBelowIsTotal();
    if k < i - 1 {
      assert !KeyBelow(records[..i][i - 1].key, records[..i][k].key);
    }
  }

  lemma DistinctGrows(records: seq<Record>, i: nat)
    requires i < |records| && PairsDistinct(records[..i])
    ensures PairsDistinct(records[..i + 1]) <==> forall k | 0 <= k < i :: records[k] != records[i]
  {
    var longer := records[..i + 1];
    if PairsDistinct(longer) {
      forall k | 0 <= k < i
        ensures records[k] != records[i]
      {
        assert longer[k] != longer[i];
      }
    }
    if forall k | 0 <= k < i :: records[k] != records[i] {
      forall x, y | 0 <= x < y < |longer|
        ensures longer[x] != longer[y]
      {
        if y < i {
          assert records[..i][x] != records[..i][y];
        }
      }
    }
  }

  /** A prefix of good records is good. */
  lemma PrefixesAreGood(records: seq<Record>, i: nat)
    requires i <= |records|
    ensures KeysSorted(records) ==> KeysSorted(records[..i])
    ensures PairsDistinct(records) ==> PairsDistinct(records[..i])
  {
    forall x, y | 0 <= x < y < i
      ensures KeysSorted(records) ==> !KeyBelow(records[..i][y].key, records[..i][x].key)
      ensures PairsDistinct(records) ==> records[..i][x] != records[..i][y]
    {
      assert records[..i][x] == records[x] && records[..i][y] == records[y];
    }
  }

  /** The set as it stands when record `i` is looked at: emptied if its key is new. */
  ghost function SeenBefore(records: seq<Record>, i: nat): set<Key>
    requires i < |records|
  {
    if i == 0 || records[i].key != records[i - 1].key then {} else SeenForLast(records, i)
  }

  /** After the reset, the set holds the hashes of exactly the earlier records with this key. */
  lemma SeenIsExact(records: seq<Record>, i: nat)
    requires i < |records| && KeysSorted(records[..i])
    requires i > 0 ==> !KeyBelow(records[i].key, records[i - 1].key)
    ensures SeenBefore(records, i) == set k | 0 <= k < i && records[k].key == records[i].key :: records[k].hash
    ensures SeenBefore(records, i) + {records[i].hash} == SeenForLast(records, i + 1)
    ensures records[i].hash in SeenBefore(records, i) <==> exists k | 0 <= k < i :: records[k] == records[i]
  {
    forall k | 0 <= k < i && records[k].key == records[i].key
      ensures records[i - 1].key == records[i].key
    {
      EarlierKeyIsLast(records, i, k);
    }
    if records[i].hash in SeenBefore(records, i) {
      var k :| 0 <= k < i && records[k].key == records[i].key && records[k].hash == records[i].hash;
      assert records[k] == records[i];
    }
  }

  lemma OutOfOrder(records: seq<Record>, i: nat)
    requires 0 < i < |records| && KeyBelow(records[i].key, records[i - 1].key)
    ensures !KeysSorted(records)
  {
  }

  /** What looking at record `i` settles, once it is known to be in order. */
  lemma RecordStep(records: seq<Record>, i: nat)
    requires i < |records| && KeysSorted(records[..i]) && PairsDistinct(records[..i])
    requires i > 0 ==> !KeyBelow(records[i].key, records[i - 1].key)
    ensures records[i].hash in SeenBefore(records, i) ==> !PairsDistinct(records)
    ensures records[i].hash !in SeenBefore(records, i) ==>
              KeysSorted(records[..i + 1]) && PairsDistinct(records[..i + 1])
    ensures SeenBefore(records, i) + {records[i].hash} == SeenForLast(records, i + 1)
  {
    SeenIsExact(records, i);
    SortedGrows(records, i);
    DistinctGrows(records, i);
    PrefixesAreGood(records, i + 1);
  }

  /**
    Accepts exactly the well-formed indexes. Although the set of hashes is emptied whenever
    the key changes, no duplicate pair escapes: in sorted records a key cannot come back.
   */
  method ValidateIndex(bytes: Bytes) returns (ok: bool)
    ensures ok <==> ValidIndex(bytes)
  {
    if |bytes| > MAX_METADATA_BYTES || |bytes| % 64 != 0 {
      return false;
    }
    ghost var records := Records(bytes);
    var previous: Option<Key> := None;
    var hashesForKey: set<Key> := {};
    for i := 0 to |bytes| / 64
      invariant KeysSorted(records[..i]) && PairsDistinct(records[..i])
      invariant previous == if i == 0 then None else Some(records[i - 1].key)
      invariant hashesForKey == if i == 0 then {} else SeenForLast(records, i)
    {
      var key, hash := KeyAt(bytes, i), HashAt(bytes, i);
      assert records[i] == Record(key, hash);
      if previous.Some? {
        if KeyBelow(key, previous.value) {
          OutOfOrder(records, i);
          return false;
        }
        if key != previous.value {
          hashesForKey := {};
        }
      }
      assert hashesForKey == SeenBefore(records, i);
      RecordStep(records, i);
      if hash in hashesForKey {
        return false;
      }
      hashesForKey := hashesForKey + {hash};
      previous := Some(key);
    }
    assert records[..|records|] == records;
    return true;
  }

  /** All hashes recorded for `key`, in wire order. */
  function Matching(records: seq<Record>, key: Key): seq<Key> {
    if records == [] then
      []
    else
      (if records[0].key == key then [records[0].hash] else []) + Matching(records[1..], key)
  }

  lemma {:induction false} NoneMatch(records: seq<Record>, key: Key)
    requires forall i | 0 <= i < |records| :: records[i].key != key
    ensures Matching(records, key) == []
  {
    if records != [] {
      NoneMatch(records[1..], key);
    }
  }

  lemma {:induction false} MatchingSplits(records: seq<Record>, i: nat, key: Key)
    requires i <= |records|
    ensures Matching(records, key) == Matching(records[..i], key) + Matching(records[i..], key)
  {
    if i > 0 {
      MatchingSplits(records[1..], i - 1, key);
      assert records[..i][1..] == records[1..][..i - 1];
      assert records[1..][i - 1..] == records[i..];
    } else {
      assert records[..0] == [] && records[0..] == records;
    }
  }

  lemma {:induction false} MatchingMember(records: seq<Record>, key: Key, hash: Key)
    requires hash in Matching(records, key)
    ensures Record(key, hash) in records
  {
    if records[0] != Record(key, hash) {
      MatchingMember(records[1..], key, hash);
    }
  }

  /** The next record of the key adds its hash, which the earlier ones cannot have added. */
  lemma MatchingGrows(records: seq<Record>, i: nat)
    requires i < |records| && PairsDistinct(records)
    ensures Matching(records[..i + 1], records[i].key) == Matching(records[..i], records[i].key) + [records[i].hash]
    ensures records[i].hash !in Matching(records[..i], records[i].key)
  {
    var key, hash := records[i].key, records[i].hash;
    var longer, last := records[..i + 1], [records[i]];
    MatchingSplits(longer, i, key);
    assert longer[..i] == records[..i] && longer[i..] == last;
    assert last[1..] == [];
    assert Matching(last, key) == [hash];
    if hash in Matching(records[..i], key) {
      MatchingMember(records[..i], key, hash);
      assert false;
    }
  }

  /** Records below the key come first and records above it last; the rest is one window. */
  lemma MatchingWindow(records: seq<Record>, start: nat, end: nat, key: Key)
    requires start <= end <= |records| && KeysSorted(records)
    requires forall k | 0 <= k < start :: KeyBelow(records[k].key, key)
    requires end < |records| ==> !KeyBelow(records[end].key, key) && records[end].key != key
    ensures Matching(records[..start], key) == []
    ensures Matching(records, key) == Matching(records[..end], key)
  {
    KeyBelowIsTotal();
    forall k | 0 <= k < |records[end..]|
      ensures records[end..][k].key != key
    {
      assert records[end..][k] == records[end + k];
      if k > 0 {
        assert !KeyBelow(records[end + k].key, records[end].key);
      }
    }
    NoneMatch(records[..start], key);
    NoneMatch(records[end..], key);
    MatchingSplits(records, end, key);
  }

  /** Whether record `i` lies below the key, the question put by the binary search. */
  function RecordBelow(bytes: Bytes, key: Key): nat -> bool {
    (i: nat) => 64 * i + 64 <= |bytes| && KeyBelow(KeyAt(bytes, i), key)
  }

  lemma RecordBelowIsPrefix(bytes: Bytes, key: Key)
    requires ValidIndex(bytes)
    ensures forall i: nat, j: nat | i <= j < |bytes| / 64 && RecordBelow(bytes, key)(j) :: RecordBelow(bytes, key)(i)
  {
    KeyBelowIsTotal();
    var records := Records(bytes);
    forall i: nat, j: nat | i <= j < |bytes| / 64 && RecordBelow(bytes, key)(j)
      ensures RecordBelow(bytes, key)(i)
    {
      assert i < j ==> !KeyBelow(records[j].key, records[i].key);
    }
  }

  /** The binary search and forward scan return what a scan of all records would. */
  method Candidates(bytes: Bytes, key: Key) returns (candidates: seq<Key>)
    requires ValidIndex(bytes)
    ensures candidates == Matching(Records(bytes), key)
  {
    ghost var records := Records(bytes);
    var n := |bytes| / 64;
    RecordBelowIsPrefix(bytes, key);
    var start := LowerBound(n, RecordBelow(bytes, key));
    ScanBounds(bytes, key, start, n);
    candidates := [];
    var i := start;
    while i < n && KeyAt(bytes, i) == key
      invariant start <= i <= n
      invariant candidates == Matching(records[..i], key)
    {
      assert records[i].key == key;
      MatchingGrows(records, i);
      if HashAt(bytes, i) !in candidates {
        candidates := candidates + [HashAt(bytes, i)];
      }
      i := i + 1;
    }
    ScanBounds(bytes, key, start, i);
  }

  /** The forward scan starts after the lower keys and stops at the end or at a higher key. */
  lemma ScanBounds(bytes: Bytes, key: Key, start: nat, end: nat)
    requires ValidIndex(bytes) && start <= end <= |bytes| / 64
    requires forall k: nat | k < start :: RecordBelow(bytes, key)(k)
    requires forall k: nat | start <= k < |bytes| / 64 :: !RecordBelow(bytes, key)(k)
    requires end < |bytes| / 64 ==> KeyAt(bytes, end) != key
    ensures Matching(Records(bytes)[..start], key) == []
    ensures Matching(Records(bytes), key) == Matching(Records(bytes)[..end], key)
  {
    var records := Records(bytes);
    forall k | 0 <= k < start
      ensures KeyBelow(records[k].key, key)
    {
      assert RecordBelow(bytes, key)(k);
    }
    if end < |records| {
      assert !RecordBelow(bytes, key)(end);
    }
    MatchingWindow(records, start, end, key);
  }

  // ----- Serialising records -----

  function RecordBytes(records: seq<Record>): (bytes: Bytes)
    ensures |bytes| == 64 * |records|
  {
    if records == [] then []
    else RecordBytes(records[..|records| - 1]) + records[|records| - 1].key + records[|records| - 1].hash
  }

  /** Reading back what was written gives the same records. */
  lemma {:induction false} RecordsRoundTrip(records: seq<Record>)
    ensures Records(RecordBytes(records)) == records
  {
    if records != [] {
      var front, last := records[..|records| - 1], records[|records| - 1];
      RecordsRoundTrip(front);
      var short, long := RecordBytes(front), RecordBytes(records);
      forall i | 0 <= i < |records|
        ensures Records(long)[i] == records[i]
      {
        if i < |front| {
          assert KeyAt(long, i) == KeyAt(short, i) && HashAt(long, i) == HashAt(short, i);
          assert Records(short)[i] == front[i];
        } else {
          assert KeyAt(long, i) == last.key && HashAt(long, i) == last.hash;
        }
      }
    }
  }

  /** Serialisation appends records one by one and then validates the result. */
  method EncodeIndex(records: seq<Record>) returns (r: Option<Bytes>)
    ensures r.Some? <==> KeysSorted(records) && PairsDistinct(records) && 64 * |records| <= MAX_METADATA_BYTES
    ensures r.Some? ==> ValidIndex(r.value) && Records(r.value) == records
  {
    var bytes: Bytes := [];
    for i := 0 to |records|
      invariant bytes == RecordBytes(records[..i])
    {
      assert records[..i + 1][..i] == records[..i];
      bytes := bytes + records[i].key + records[i].hash;
    }
    assert records[..|records|] == records;
    RecordsRoundTrip(records);
    var ok := ValidateIndex(bytes);
    if !ok {
      return None;
    }
    return Some(bytes);
  }

  // ----- Content lists -----

  function ItemAt(bytes: Bytes, i: nat): Key
    requires 32 * i + 32 <= |bytes|
  {
    bytes[32 * i..32 * i + 32]
  }

  function Items(bytes: Bytes): (items: seq<Key>)
    ensures |items| == |bytes| / 32
    ensures forall i | 0 <= i < |items| :: items[i] == ItemAt(bytes, i)
  {
    seq(|bytes| / 32, i requires 0 <= i < |bytes| / 32 => ItemAt(bytes, i))
  }

  ghost predicate ValidList(bytes: Bytes) {
    && |bytes| <= MAX_METADATA_BYTES && |bytes| % 32 == 0
    && Ascending(KeyBelow, Items(bytes))
  }

  lemma AscendingGrows(items: seq<Key>, i: nat)
    requires i < |items| && Ascending(KeyBelow, items[..i])
    ensures Ascending(KeyBelow, items[..i + 1]) <==> i == 0 || KeyBelow(items[i - 1], items[i])
  {
    KeyBelowIsTotal();
    var longer := items[..i + 1];
    if i > 0 {
      if Ascending(KeyBelow, longer) {
        assert KeyBelow(longer[i - 1], longer[i]);
      }
      if KeyBelow(items[i - 1], items[i]) {
        forall x, y | 0 <= x < y < |longer|
          ensures KeyBelow(longer[x], longer[y])
        {
          if y < i {
            assert KeyBelow(items[..i][x], items[..i][y]);
          } else if x < i - 1 {
            assert KeyBelow(items[..i][x], items[..i][i - 1]);
          }
        }
      }
    }
  }

  method ValidateList(bytes: Bytes) returns (ok: bool)
    ensures ok <==> ValidList(bytes)
  {
    if |bytes| > MAX_METADATA_BYTES || |bytes| % 32 != 0 {
      return false;
    }
    ghost var items := Items(bytes);
    var previous: Option<Key> := None;
    for i := 0 to |bytes| / 32
      invariant Ascending(KeyBelow, items[..i])
      invariant previous == if i == 0 then None else Some(items[i - 1])
    {
      var current := ItemAt(bytes, i);
      assert current == items[i];
      if previous.Some? && !KeyBelow(previous.value, current) {
        return false;
      }
      AscendingGrows(items, i);
      previous := Some(current);
    }
    assert items[..|items|] == items;
    return true;
  }

  /** Membership by binary search; it relies on the order alone, not on the size limit. */
  method Contains(bytes: Bytes, item: Key) returns (found: bool)
    requires |bytes| % 32 == 0 && Ascending(KeyBelow, Items(bytes))
    ensures found <==> item in Items(bytes)
  {
    ghost var items := Items(bytes);
    KeyBelowIsTotal();
    var n := |bytes| / 32;
    var before := (i: nat) => i < n && KeyBelow(ItemAt(bytes, i), item);
    forall i: nat, j: nat | i <= j < n && before(j)
      ensures before(i)
    {
      assert i < j ==> KeyBelow(items[i], items[j]);
    }
    var index := LowerBound(n, before);
    found := index < n && ItemAt(bytes, index) == item;
    assert forall j | index < j < n :: KeyBelow(items[index], items[j]);
    assert index < n ==> !before(index);
    if item in items {
      ghost var k :| 0 <= k < |items| && items[k] == item;
      assert !before(k);
    }
  }

  /** Drops repeats of the preceding element; on sorted input, all repeats. */
  function DropRepeats(s: seq<Key>): seq<Key> {
    if |s| <= 1 then s
    else
      var kept := DropRepeats(s[..|s| - 1]);
      if s[|s| - 1] == s[|s| - 2] then kept else kept + [s[|s| - 1]]
  }

  lemma {:induction false} DropRepeatsAscends(s: seq<Key>)
    requires Sorted(KeyBelow, s)
    ensures Ascending(KeyBelow, DropRepeats(s))
    ensures forall x :: x in DropRepeats(s) <==> x in s
    ensures s != [] ==> DropRepeats(s) != [] && DropRepeats(s)[|DropRepeats(s)| - 1] == s[|s| - 1]
  {
    if |s| > 1 {
      KeyBelowIsTotal();
      var front, last := s[..|s| - 1], s[|s| - 1];
      assert s == front + [last];
      DropRepeatsAscends(front);
      var kept := DropRepeats(front);
      if last != s[|s| - 2] {
        assert !KeyBelow(last, s[|s| - 2]);
        assert KeyBelow(kept[|kept| - 1], last);
        forall i | 0 <= i < |kept|
          ensures KeyBelow(kept[i], last)
        {
        }
      }
    }
  }

  function ItemBytes(items: seq<Key>): (bytes: Bytes)
    ensures |bytes| == 32 * |items|
  {
    if items == [] then [] else ItemBytes(items[..|items| - 1]) + items[|items| - 1]
  }

  lemma {:induction false} ItemsRoundTrip(items: seq<Key>)
    ensures Items(ItemBytes(items)) == items
  {
    if items != [] {
      var front := items[..|items| - 1];
      ItemsRoundTrip(front);
      var short, long := ItemBytes(front), ItemBytes(items);
      forall i | 0 <= i < |items|
        ensures Items(long)[i] == items[i]
      {
        if i < |front| {
          assert ItemAt(long, i) == ItemAt(short, i);
          assert Items(short)[i] == front[i];
        }
      }
    }
  }

  /** The canonical list of a collection of hashes. */
  function ListBytes(hashes: seq<Key>): Bytes {
    ItemBytes(DropRepeats(Sort(KeyBelow, hashes)))
  }

  lemma {:induction false} AscendingSize(s: seq<Key>)
    requires Ascending(KeyBelow, s)
    ensures |Members(s)| == |s|
  {
    if s != [] {
      KeyBelowIsTotal();
      var front, last := s[..|s| - 1], s[|s| - 1];
      AscendingSize(front);
      forall i | 0 <= i < |front|
        ensures front[i] != last
      {
        assert KeyBelow(s[i], s[|s| - 1]);
      }
      assert Members(s) == Members(front) + {last};
    }
  }

  ghost function Members(s: seq<Key>): set<Key> {
    set x | x in s
  }

  /** An encoded list is strictly increasing and holds exactly the given hashes, once each. */
  lemma ListHoldsInput(hashes: seq<Key>)
    ensures |ListBytes(hashes)| == 32 * |Members(hashes)|
    ensures Ascending(KeyBelow, Items(ListBytes(hashes)))
    ensures Members(Items(ListBytes(hashes))) == Members(hashes)
  {
    KeyBelowIsTotal();
    TotalIsWeak(KeyBelow);
    var sorted := Sort(KeyBelow, hashes);
    SortSorts(KeyBelow, hashes);
    DropRepeatsAscends(sorted);
    ItemsRoundTrip(DropRepeats(sorted));
    forall x
      ensures x in sorted <==> x in hashes
    {
      SortKeepsElements(KeyBelow, hashes, x);
    }
    AscendingSize(DropRepeats(sorted));
    assert Members(DropRepeats(sorted)) == Members(hashes);
  }

  /** Sorts, drops repeats and appends the hashes one by one. */
  method EncodeList(hashes: seq<Key>) returns (bytes: Bytes)
    ensures bytes == ListBytes(hashes)
    ensures ValidList(bytes) <==> 32 * |Members(hashes)| <= MAX_METADATA_BYTES
  {
    var items := DropRepeats(Sort(KeyBelow, hashes));
    bytes := [];
    for i := 0 to |items|
      invariant bytes == ItemBytes(items[..i])
    {
      assert items[..i + 1][..i] == items[..i];
      bytes := bytes + items[i];
    }
    assert items[..|items|] == items;
    ListHoldsInput(hashes);
  }

  /** Membership in an encoded list is membership in what was encoded. */
  method ContainsEncoded(hashes: seq<Key>, item: Key) returns (found: bool)
    ensures found <==> item in hashes
  {
    var bytes := EncodeList(hashes);
    ListHoldsInput(hashes);
    found := Contains(bytes, item);
    assert item in Members(Items(bytes)) <==> item in Members(hashes);
  }

  /** Two collections have the same encoding if and only if they have the same members. */
  lemma ListIsCanonical(a: seq<Key>, b: seq<Key>)
    ensures ListBytes(a) == ListBytes(b) <==> Members(a) == Members(b)
  {
    ListHoldsInput(a);
    ListHoldsInput(b);
    if Members(a) == Members(b) {
      KeyBelowIsTotal();
      var x, y := DropRepeats(Sort(KeyBelow, a)), DropRepeats(Sort(KeyBelow, b));
      ItemsRoundTrip(x);
      ItemsRoundTrip(y);
      forall k
        ensures k in x <==> k in y
      {
        assert k in Members(x) <==> k in Members(y);
      }
      AscendingUnique(KeyBelow, x, y);
    }
  }
}
