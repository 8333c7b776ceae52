/**
  Application of OCI image layers to a file tree, on values.

  Two maps evolve together: the metadata records and the extracted tree.
 */
module OciLayer {
  import opened Wrappers
  import opened Text
  import opened OciTree

  const U32_MAX: nat := 0xffff_ffff
  const OPAQUE_NAME := ".wh..wh..opq"
  const WHITEOUT_PREFIX := ".wh."

  // ----- Entries, records and nodes -----

  datatype Kind = File | Directory | Symlink

  datatype Record = Record(kind: Kind, uid: nat, gid: nat, mode: nat, target: Option<string>)

  datatype Body =
    | FileBody(content: string)
    | DirectoryBody
    | SymlinkBody(target: Option<string>)
    | HardLinkBody(link: Option<string>)
    | OtherBody

  /** A tar entry as read from the archive, before its name is checked. */
  datatype Entry = Entry(name: string, body: Body, uid: nat, gid: nat, mode: nat)

  /** An entry with its checked path. */
  datatype Item = Item(path: Path, entry: Entry)

  datatype State = State(records: map<Path, Record>, tree: Tree)

  const IMPLICIT_RECORD := Record(Directory, 0, 0, 0x1ed, None)

  predicate PlainPath(path: Path) {
    path != [] && forall i | 0 <= i < |path| :: PlainName(path[i]) && '/' !in path[i]
  }

  // ----- Checking entry names -----

  function ForwardSlashes(text: string): (r: string)
    ensures '\\' !in r
    ensures '\\' !in text ==> r == text
  {
    if text == "" then
      ""
    else
      [if text[0] == '\\' then '/' else text[0]] + ForwardSlashes(text[1..])
  }

  function TrimSlashes(text: string): (r: string)
    ensures r <= text
    ensures r != "" ==> r[|r| - 1] != '/'
    ensures text != "" && text[|text| - 1] != '/' ==> r == text
  {
    if text != "" && text[|text| - 1] == '/' then TrimSlashes(text[..|text| - 1]) else text
  }

  /** The checked path of a raw name; `Some(None)` for the archive root, `None` when refused. */
  function Sanitize(raw: string): (r: Option<Option<Path>>)
    ensures r.Some? && r.value.Some? ==> PlainPath(r.value.value)
  {
    var text := ForwardSlashes(raw);
    if text != "" && text[0] == '/' then
      None
    else
      var trimmed := TrimSlashes(text);
      if trimmed == "" || trimmed == "." then
        Some(None)
      else if exists part | part in Split(trimmed, '/') :: !PlainName(part) then
        None
      else
        Some(Some(Split(trimmed, '/')))
  }

  /** A plain path without backslashes is its own spelling. */
  lemma SanitizeIsExact(path: Path)
    requires PlainPath(path) && forall i | 0 <= i < |path| :: '\\' !in path[i]
    ensures Sanitize(Join(path, '/')) == Some(Some(path))
  {
    var text := Join(path, '/');
    SplitJoin(path, '/');
    JoinAvoids(path, '\\');
    JoinEnds(path);
  }

  lemma {:induction false} JoinAvoids(parts: seq<string>, c: char)
    requires c != '/' && forall i | 0 <= i < |parts| :: c !in parts[i]
    ensures c !in Join(parts, '/')
  {
    if |parts| > 1 {
      JoinAvoids(parts[1..], c);
    }
  }

  /** The text of a plain path neither starts nor ends with a slash, and is not `.`. */
  lemma {:induction false} JoinEnds(path: Path)
    requires PlainPath(path)
    ensures var text := Join(path, '/'); text != "" && text[0] != '/' && text[|text| - 1] != '/' && text != "."
  {
    assert PlainName(path[0]);
    assert path[0][0] in path[0];
    if |path| > 1 {
      JoinEnds(path[1..]);
    } else {
      assert path[0][|path[0]| - 1] in path[0];
    }
  }

  // ----- Whiteouts -----

  datatype Mark = Plain | Malformed | Marks(whiteout: Whiteout)

  function MarkOf(path: Path): (m: Mark)
    requires path != []
    ensures m.Marks? && m.whiteout.Erase? ==> m.whiteout.victim != []
  {
    var parent, name := path[..|path| - 1], path[|path| - 1];
    if name == OPAQUE_NAME then
      Marks(Opaque(parent))
    else if WHITEOUT_PREFIX <= name then
      if name == WHITEOUT_PREFIX then Malformed else Marks(Erase(parent + [name[|WHITEOUT_PREFIX|..]]))
    else
      Plain
  }

  /**
    Records are keyed by text: the test for a descendant, a text prefix followed by a slash,
    is the proper prefix order on component lists.
   */
  lemma BelowIsTextual(p: Path, q: Path)
    requires PlainPath(p) && PlainPath(q)
    ensures Join(p, '/') + "/" <= Join(q, '/') <==> p < q
    ensures Join(p, '/') == Join(q, '/') <==> p == q
  {
    SplitJoin(p, '/');
    SplitJoin(q, '/');
    if p < q {
      JoinAppend(p, q[|p|..], '/');
      assert p + q[|p|..] == q;
    }
    var start, whole := Join(p, '/') + "/", Join(q, '/');
    if start <= whole {
      var rest := whole[|start|..];
      assert whole == start + rest;
      SplitAppend(Join(p, '/'), rest, '/');
    }
  }

  // ----- Adding one path -----

  function Prefixes(path: Path, n: nat): set<Path>
    requires n <= |path|
  {
    set k | 0 < k <= n :: path[..k]
  }

  /** The first `n` prefixes of `path` that are absent are added with value `implicit`. */
  function Fill<T>(m: map<Path, T>, path: Path, n: nat, implicit: T): map<Path, T>
    requires n <= |path|
  {
    map q | q in m.Keys + Prefixes(path, n) :: if q in m then m[q] else implicit
  }

  function Put<T>(m: map<Path, T>, path: Path, value: T, implicit: T, keep: bool): map<Path, T>
    requires path != []
  {
    Clear(Fill(m, path, |path| - 1, implicit), path, keep)[path := value]
  }

  function Clear<T>(m: map<Path, T>, path: Path, keep: bool): map<Path, T> {
    if keep then m else Strip(m, Erase(path))
  }

  predicate DirectoryAt(records: map<Path, Record>, path: Path) {
    path in records && records[path].kind.Directory?
  }

  predicate KindAt(records: map<Path, Record>, path: Path, kind: Kind) {
    path in records && records[path].kind == kind
  }

  /** Every proper ancestor of `path` is absent or a directory. */
  predicate ParentsOk(records: map<Path, Record>, path: Path) {
    forall k | 0 < k < |path| :: path[..k] in records ==> DirectoryAt(records, path[..k])
  }

  function OwnRecord(entry: Entry, kind: Kind, target: Option<string>): Record {
    Record(kind, entry.uid, entry.gid, entry.mode % 0x1000, target)
  }

  predicate OwnerOk(entry: Entry) {
    entry.uid <= U32_MAX && entry.gid <= U32_MAX
  }

  function LinkTarget(entry: Entry): (r: Option<Path>)
    ensures r.Some? ==> PlainPath(r.value)
  {
    if entry.body.HardLinkBody? && entry.body.link.Some? then
      var checked := Sanitize(entry.body.link.value);
      if checked.Some? then checked.value else None
    else
      None
  }

  /** The record of a hard link: a zero mode is taken from the link's target. */
  function LinkRecord(records: map<Path, Record>, entry: Entry, target: Path): Record
    requires target in records
  {
    var own := OwnRecord(entry, File, None);
    if own.mode == 0 then own.(mode := records[target].mode) else own
  }

  predicate LinkOk(records: map<Path, Record>, entry: Entry) {
    var target := LinkTarget(entry);
    && target.Some?
    && KindAt(records, target.value, File)
    && var link, of := LinkRecord(records, entry, target.value), records[target.value];
    link.uid == of.uid && link.gid == of.gid && link.mode == of.mode
  }

  predicate HasTarget(target: Option<string>) {
    target.Some? && target.value != ""
  }

  // ----- What one item does -----

  /** The conditions that depend on the records alone. */
  predicate Admits(records: map<Path, Record>, item: Item)
    requires item.path != []
  {
    match MarkOf(item.path)
    case Malformed => false
    case Marks(_) => true
    case Plain =>
      item.entry.body.OtherBody?
      || (&& ParentsOk(records, item.path)
          && OwnerOk(item.entry)
          && (item.entry.body.SymlinkBody? ==> HasTarget(item.entry.body.target))
          && (item.entry.body.HardLinkBody? ==> LinkOk(records, item.entry)))
  }

  /** The source of a hard link is gone once the link's own path has been cleared. */
  predicate LosesTarget(s: State, item: Item) {
    && item.entry.body.HardLinkBody?
    && var target := LinkTarget(item.entry);
    target.None? || item.path <= target.value || target.value !in s.tree
  }

  predicate Fails(s: State, item: Item)
    requires item.path != []
  {
    || !Admits(s.records, item)
    || match MarkOf(item.path)
       case Malformed => true
       case Marks(w) => Blocked(s.tree, w)
       case Plain => LosesTarget(s, item)
  }

  /** Directories keep what is below them, unless they replace something else. */
  predicate Keeps(records: map<Path, Record>, item: Item) {
    item.entry.body.DirectoryBody? && (item.path in records ==> DirectoryAt(records, item.path))
  }

  function RecordFor(records: map<Path, Record>, item: Item): Record
    requires item.path != [] && MarkOf(item.path).Plain? && Admits(records, item) && !item.entry.body.OtherBody?
  {
    match item.entry.body
    case FileBody(_) => OwnRecord(item.entry, File, None)
    case DirectoryBody => OwnRecord(item.entry, Directory, None)
    case SymlinkBody(target) => OwnRecord(item.entry, Symlink, target)
    case HardLinkBody(_) => LinkRecord(records, item.entry, LinkTarget(item.entry).value)
  }

  function NodeFor(s: State, item: Item): Node
    requires item.path != [] && MarkOf(item.path).Plain? && !Fails(s, item) && !item.entry.body.OtherBody?
  {
    match item.entry.body
    case FileBody(content) => FileNode(content)
    case DirectoryBody => DirectoryNode
    case SymlinkBody(target) => SymlinkNode(target.value)
    case HardLinkBody(_) => s.tree[LinkTarget(item.entry).value]
  }

  function RecordsAfter(records: map<Path, Record>, item: Item): map<Path, Record>
    requires item.path != [] && Admits(records, item)
  {
    match MarkOf(item.path)
    case Marks(w) => Strip(records, w)
    case Plain =>
      if item.entry.body.OtherBody? then
        records
      else
        Put(records, item.path, RecordFor(records, item), IMPLICIT_RECORD, Keeps(records, item))
  }

  function TreeAfter(s: State, item: Item): Tree
    requires item.path != [] && !Fails(s, item)
  {
    match MarkOf(item.path)
    case Marks(w) => Strip(s.tree, w)
    case Plain =>
      if item.entry.body.OtherBody? then
        s.tree
      else
        Put(s.tree, item.path, NodeFor(s, item), DirectoryNode, Keeps(s.records, item))
  }

  function After(s: State, item: Item): State
    requires item.path != [] && !Fails(s, item)
  {
    State(RecordsAfter(s.records, item), TreeAfter(s, item))
  }

  // ----- Invariants of every run -----

  /** Every proper ancestor of a record is recorded as a directory. */
  ghost predicate Rooted(records: map<Path, Record>) {
    forall p, k | p in records && 0 < k < |p| :: DirectoryAt(records, p[..k])
  }

  predicate Matches(record: Record, node: Node) {
    match node
    case FileNode(_) => record.kind.File?
    case DirectoryNode => record.kind.Directory?
    case SymlinkNode(target) => record.kind.Symlink? && record.target == Some(target)
  }

  /** The records and the tree have the same paths, kinds and link targets. */
  ghost predicate Agree(s: State) {
    && s.records.Keys == s.tree.Keys
    && [] !in s.records
    && forall p | p in s.records :: Matches(s.records[p], s.tree[p])
  }

  ghost predicate Consistent(s: State) {
    Rooted(s.records) && Agree(s)
  }

  lemma RootedAfterStrip(records: map<Path, Record>, w: Whiteout)
    requires Rooted(records)
    ensures Rooted(Strip(records, w))
  {
    var left := Strip(records, w);
    forall p, k | p in left && 0 < k < |p|
      ensures DirectoryAt(left, p[..k])
    {
      assert DirectoryAt(records, p[..k]);
      assert p[..k] <= p;
    }
  }

  lemma RootedAfterPut(records: map<Path, Record>, path: Path, value: Record, keep: bool)
    requires path != [] && Rooted(records) && ParentsOk(records, path)
    requires keep ==> value.kind.Directory?
    ensures Rooted(Put(records, path, value, IMPLICIT_RECORD, keep))
  {
    var filled := Fill(records, path, |path| - 1, IMPLICIT_RECORD);
    var all := Put(records, path, value, IMPLICIT_RECORD, keep);
    forall p, k | p in all && 0 < k < |p|
      ensures DirectoryAt(all, p[..k])
    {
      var q := p[..k];
      if p <= path {
        assert q == path[..k];
        assert q in Prefixes(path, |path| - 1);
        assert q in records ==> DirectoryAt(records, path[..k]);
        assert !(path <= q);
      } else {
        assert p in records;
        assert DirectoryAt(records, p[..k]);
        assert q == path || !(path <= q) || keep;
      }
    }
  }

  /** No item, whatever the kernel does, leaves a record without its ancestors. */
  lemma RootedAfter(records: map<Path, Record>, item: Item)
    requires item.path != [] && Rooted(records) && Admits(records, item)
    ensures Rooted(RecordsAfter(records, item))
  {
    match MarkOf(item.path)
    case Marks(w) => RootedAfterStrip(records, w);
    case Plain =>
      if !item.entry.body.OtherBody? {
        RootedAfterPut(records, item.path, RecordFor(records, item), Keeps(records, item));
      }
  }

  lemma AgreeAfter(s: State, item: Item)
    requires item.path != [] && Agree(s) && !Fails(s, item)
    ensures Agree(After(s, item))
  {
    if MarkOf(item.path).Plain? && !item.entry.body.OtherBody? {
      assert Matches(RecordFor(s.records, item), NodeFor(s, item));
    }
  }

  // ----- Whole runs -----

  /** The state after all items, or `None` as soon as one of them fails. */
  function Run(s: State, items: seq<Item>): Option<State> {
    if items == [] then
      Some(s)
    else
      var before :- Run(s, items[..|items| - 1]);
      var last := items[|items| - 1];
      if last.path == [] || Fails(before, last) then None else Some(After(before, last))
  }

  /** Every run keeps both invariants. */
  lemma {:induction false} RunIsConsistent(s: State, items: seq<Item>)
    requires Consistent(s)
    ensures Run(s, items).Some? ==> Consistent(Run(s, items).value)
  {
    if items != [] && Run(s, items).Some? {
      var front, last := items[..|items| - 1], items[|items| - 1];
      RunIsConsistent(s, front);
      var before := Run(s, front).value;
      RootedAfter(before.records, last);
      AgreeAfter(before, last);
    }
  }

  // ----- The two-phase meaning of a layer -----

  predicate IsWhiteout(item: Item) {
    item.path != [] && MarkOf(item.path).Marks?
  }

  function Additions(items: seq<Item>): seq<Item> {
    if items == [] then
      []
    else
      var rest := Additions(items[..|items| - 1]);
      if IsWhiteout(items[|items| - 1]) then rest else rest + [items[|items| - 1]]
  }

  predicate HitByLayer(items: seq<Item>, path: Path) {
    exists i | 0 <= i < |items| :: IsWhiteout(items[i]) && Hits(MarkOf(items[i].path).whiteout, path)
  }

  function StripAll<T>(m: map<Path, T>, items: seq<Item>): map<Path, T> {
    map q | q in m && !HitByLayer(items, q) :: m[q]
  }

  /** The lower tree without what the layer's whiteouts name. */
  function Lower(lower: State, items: seq<Item>): State {
    State(StripAll(lower.records, items), StripAll(lower.tree, items))
  }

  /** Delete everything the layer's whiteouts name from the lower tree, then add its entries. */
  function TwoPhase(lower: State, items: seq<Item>): Option<State> {
    Run(Lower(lower, items), Additions(items))
  }

  /** A whiteout that would remove what the item writes or links to. */
  predicate Disturbs(w: Whiteout, item: Item) {
    && !item.entry.body.OtherBody?
    && (Hits(w, item.path) || (LinkTarget(item.entry).Some? && Hits(w, LinkTarget(item.entry).value)))
  }

  /** No whiteout of the layer disturbs an entry that comes before it. */
  predicate WhiteoutsComeFirst(items: seq<Item>) {
    forall i, j | 0 <= i < j < |items| && !IsWhiteout(items[i]) && IsWhiteout(items[j]) ::
      !Disturbs(MarkOf(items[j].path).whiteout, items[i])
  }

  function StripState(s: State, w: Whiteout): State {
    State(Strip(s.records, w), Strip(s.tree, w))
  }

  /** A path that is not hit has no ancestor that is hit. */
  lemma AncestorsEscape(w: Whiteout, path: Path)
    requires !Hits(w, path)
    ensures forall k | 0 <= k <= |path| :: !Hits(w, path[..k])
  {
    forall k | 0 <= k <= |path|
      ensures !Hits(w, path[..k])
    {
      assert path[..k] <= path;
    }
  }

  /** Removing and adding commute when the added path is not hit. */
  lemma PutCommutes<T>(m: map<Path, T>, path: Path, value: T, implicit: T, keep: bool, w: Whiteout)
    requires path != [] && !Hits(w, path)
    ensures Put(Strip(m, w), path, value, implicit, keep) == Strip(Put(m, path, value, implicit, keep), w)
  {
    var n := |path| - 1;
    var filled := Fill(m, path, n, implicit);
    FillCommutes(m, path, n, implicit, w);
    ClearCommutes(filled, path, keep, w);
    StripUpdate(Clear(filled, path, keep), path, value, w);
  }

  lemma ClearCommutes<T>(m: map<Path, T>, path: Path, keep: bool, w: Whiteout)
    ensures Clear(Strip(m, w), path, keep) == Strip(Clear(m, path, keep), w)
  {
  }

  lemma StripUpdate<T>(m: map<Path, T>, path: Path, value: T, w: Whiteout)
    requires !Hits(w, path)
    ensures Strip(m[path := value], w) == Strip(m, w)[path := value]
  {
  }

  lemma FillCommutes<T>(m: map<Path, T>, path: Path, n: nat, implicit: T, w: Whiteout)
    requires n <= |path| && !Hits(w, path)
    ensures Fill(Strip(m, w), path, n, implicit) == Strip(Fill(m, path, n, implicit), w)
  {
    AncestorsEscape(w, path);
    forall q | q in Prefixes(path, n)
      ensures !Hits(w, q)
    {
    }
  }

  lemma AdmissionUnmoved(records: map<Path, Record>, item: Item, w: Whiteout)
    requires item.path != [] && MarkOf(item.path).Plain?
    requires !item.entry.body.OtherBody? && !Disturbs(w, item)
    ensures Admits(Strip(records, w), item) <==> Admits(records, item)
    ensures Keeps(Strip(records, w), item) == Keeps(records, item)
  {
    AncestorsEscape(w, item.path);
    assert forall k | 0 < k < |item.path| :: item.path[..k] in Strip(records, w) <==> item.path[..k] in records;
  }

  lemma StepCommutes(s: State, item: Item, w: Whiteout)
    requires item.path != [] && !IsWhiteout(item) && !Disturbs(w, item)
    ensures Fails(StripState(s, w), item) <==> Fails(s, item)
    ensures !Fails(s, item) ==> After(StripState(s, w), item) == StripState(After(s, item), w)
  {
    if MarkOf(item.path).Plain? && !item.entry.body.OtherBody? {
      AdmissionUnmoved(s.records, item, w);
      if !Fails(s, item) {
        var keep := Keeps(s.records, item);
        PutCommutes(s.records, item.path, RecordFor(s.records, item), IMPLICIT_RECORD, keep, w);
        PutCommutes(s.tree, item.path, NodeFor(s, item), DirectoryNode, keep, w);
      }
    }
  }

  /** A whiteout moves to the front of entries that it does not disturb. */
  lemma {:induction false} RunCommutes(s: State, adds: seq<Item>, w: Whiteout)
    requires forall i | 0 <= i < |adds| :: !IsWhiteout(adds[i]) && !Disturbs(w, adds[i])
    ensures Run(s, adds).Some? <==> Run(StripState(s, w), adds).Some?
    ensures Run(s, adds).Some? ==> Run(StripState(s, w), adds).value == StripState(Run(s, adds).value, w)
  {
    if adds != [] {
      var front, last := adds[..|adds| - 1], adds[|adds| - 1];
      RunCommutes(s, front, w);
      if Run(s, front).Some? && last.path != [] {
        StepCommutes(Run(s, front).value, last, w);
      }
    }
  }

  lemma {:induction false} AdditionsAreItems(items: seq<Item>)
    ensures forall i | 0 <= i < |Additions(items)| ::
              !IsWhiteout(Additions(items)[i])
              && exists j | 0 <= j < |items| :: items[j] == Additions(items)[i]
  {
    if items != [] {
      AdditionsAreItems(items[..|items| - 1]);
    }
  }

  lemma StripAllStep<T>(m: map<Path, T>, items: seq<Item>)
    requires items != []
    ensures var last := items[|items| - 1]; var front := StripAll(m, items[..|items| - 1]);
            StripAll(m, items) == if IsWhiteout(last) then Strip(front, MarkOf(last.path).whiteout) else front
  {
    var front, last := items[..|items| - 1], items[|items| - 1];
    forall q
      ensures HitByLayer(items, q) <==> HitByLayer(front, q) || (IsWhiteout(last) && Hits(MarkOf(last.path).whiteout, q))
    {
      if HitByLayer(items, q) {
        var i :| 0 <= i < |items| && IsWhiteout(items[i]) && Hits(MarkOf(items[i].path).whiteout, q);
        assert i < |front| ==> front[i] == items[i];
      }
      if HitByLayer(front, q) {
        var i :| 0 <= i < |front| && IsWhiteout(front[i]) && Hits(MarkOf(front[i].path).whiteout, q);
        assert items[i] == front[i];
      }
    }
  }

  /** Item `n` is a whiteout that is blocked in the state in which it is reached. */
  ghost predicate BlockedAt(lower: State, items: seq<Item>, n: nat) {
    && n < |items| && IsWhiteout(items[n])
    && Run(lower, items[..n]).Some?
    && Blocked(Run(lower, items[..n]).value.tree, MarkOf(items[n].path).whiteout)
  }

  ghost predicate Unblocked(lower: State, items: seq<Item>) {
    forall n | 0 <= n < |items| :: !BlockedAt(lower, items, n)
  }

  lemma UnblockedFront(lower: State, items: seq<Item>)
    requires items != []
    ensures Unblocked(lower, items) <==>
              Unblocked(lower, items[..|items| - 1]) && !BlockedAt(lower, items, |items| - 1)
  {
    var front := items[..|items| - 1];
    forall n | 0 <= n < |front|
      ensures BlockedAt(lower, front, n) <==> BlockedAt(lower, items, n)
    {
      assert front[..n] == items[..n] && front[n] == items[n];
    }
    if Unblocked(lower, items) {
      forall n | 0 <= n < |front|
        ensures !BlockedAt(lower, front, n)
      {
        assert !BlockedAt(lower, items, n);
      }
    }
  }

  lemma LowerStep(lower: State, items: seq<Item>)
    requires items != []
    ensures var last := items[|items| - 1]; var front := Lower(lower, items[..|items| - 1]);
            Lower(lower, items) == if IsWhiteout(last) then StripState(front, MarkOf(last.path).whiteout) else front
  {
    StripAllStep(lower.records, items);
    StripAllStep(lower.tree, items);
  }

  /** In two phases a last whiteout that disturbs nothing only strips the result. */
  lemma LastWhiteout(lower: State, items: seq<Item>)
    requires items != [] && WhiteoutsComeFirst(items) && IsWhiteout(items[|items| - 1])
    ensures var front := TwoPhase(lower, items[..|items| - 1]);
            TwoPhase(lower, items)
            == if front.None? then None else Some(StripState(front.value, MarkOf(items[|items| - 1].path).whiteout))
  {
    var front, last := items[..|items| - 1], items[|items| - 1];
    LowerStep(lower, items);
    AdditionsAreItems(front);
    RunCommutes(Lower(lower, front), Additions(front), MarkOf(last.path).whiteout);
  }

  /** A last addition comes last in both meanings. */
  lemma LastAddition(lower: State, items: seq<Item>)
    requires items != [] && !IsWhiteout(items[|items| - 1])
    ensures var front, last := TwoPhase(lower, items[..|items| - 1]), items[|items| - 1];
            TwoPhase(lower, items)
            == if front.None? || last.path == [] || Fails(front.value, last) then None else Some(After(front.value, last))
  {
    var front := items[..|items| - 1];
    LowerStep(lower, items);
    assert Additions(items)[..|Additions(front)|] == Additions(front);
  }

  /** The last item, given that all before it have their two-phase meaning. */
  lemma LastInTwoPhases(lower: State, items: seq<Item>)
    requires items != [] && WhiteoutsComeFirst(items)
    requires TwoPhase(lower, items[..|items| - 1]) == Run(lower, items[..|items| - 1])
    ensures !BlockedAt(lower, items, |items| - 1) ==> TwoPhase(lower, items) == Run(lower, items)
    ensures BlockedAt(lower, items, |items| - 1) ==> TwoPhase(lower, items).Some? && Run(lower, items).None?
  {
    if IsWhiteout(items[|items| - 1]) {
      LastWhiteout(lower, items);
    } else {
      LastAddition(lower, items);
    }
  }

  /**
    When no whiteout of the layer disturbs an entry before it, applying the layer entry by
    entry gives the two-phase result, failures included, if no whiteout is blocked; and
    otherwise it fails.
   */
  lemma {:induction false} StreamIsTwoPhase(lower: State, items: seq<Item>)
    requires WhiteoutsComeFirst(items)
    ensures Unblocked(lower, items) ==> TwoPhase(lower, items) == Run(lower, items)
    ensures !Unblocked(lower, items) ==> Run(lower, items).None?
  {
    if items == [] {
      assert StripAll(lower.records, items) == lower.records && StripAll(lower.tree, items) == lower.tree;
    } else {
      UnblockedFront(lower, items);
      StreamIsTwoPhase(lower, items[..|items| - 1]);
      if Unblocked(lower, items[..|items| - 1]) {
        LastInTwoPhases(lower, items);
      }
    }
  }

  /** A blocked whiteout stops the stream, but not the two phases. */
  lemma BlockedWhiteoutDiffers(lower: State, item: Item)
    requires IsWhiteout(item) && Blocked(lower.tree, MarkOf(item.path).whiteout)
    ensures Run(lower, [item]).None? && TwoPhase(lower, [item]).Some?
  {
    assert [item][..0] == [];
    assert WhiteoutsComeFirst([item]);
    StreamIsTwoPhase(lower, []);
    assert BlockedAt(lower, [item], 0);
    LastInTwoPhases(lower, [item]);
  }

  lemma BlockedWhiteoutExample()
    ensures var lower := State(map[["f"] := OwnRecord(Entry("f", FileBody(""), 0, 0, 0), File, None)], map[["f"] := FileNode("")]);
            var item := Item(["f", ".wh.x"], Entry("f/.wh.x", FileBody(""), 0, 0, 0));
            && Consistent(lower) && WhiteoutsComeFirst([item])
            && Run(lower, [item]).None? && TwoPhase(lower, [item]).Some?
  {
    var lower := State(map[["f"] := OwnRecord(Entry("f", FileBody(""), 0, 0, 0), File, None)], map[["f"] := FileNode("")]);
    var item := Item(["f", ".wh.x"], Entry("f/.wh.x", FileBody(""), 0, 0, 0));
    var name := ".wh.x";
    assert name[..4] == WHITEOUT_PREFIX && name[4..] == "x" && |name| != |OPAQUE_NAME|;
    assert item.path[..1] == ["f"];
    assert MarkOf(item.path) == Marks(Erase(["f"] + ["x"]));
    var scope := Scope(Erase(["f"] + ["x"]));
    assert scope == ["f"] && scope[..1] == ["f"];
    assert FileAt(lower.tree, scope[..1]);
    BlockedIffFile(lower.tree, Erase(["f"] + ["x"]));
    BlockedWhiteoutDiffers(lower, item);
  }

  // ----- When the two meanings differ -----

  /** No entry is written over, or above, an entry that came before it. */
  predicate ParentsComeFirst(items: seq<Item>) {
    forall i, j | 0 <= i < j < |items| && Writes(items[i]) && Writes(items[j]) :: !(items[j].path <= items[i].path)
  }

  predicate Writes(item: Item) {
    !IsWhiteout(item) && !item.entry.body.OtherBody?
  }

  lemma {:induction false} WrittenSurvives(s: State, adds: seq<Item>, i: nat)
    requires ParentsComeFirst(adds) && i < |adds| && Writes(adds[i])
    requires forall k | 0 <= k < |adds| :: !IsWhiteout(adds[k])
    requires Run(s, adds).Some?
    ensures adds[i].path in Run(s, adds).value.records
  {
    var front, last := adds[..|adds| - 1], adds[|adds| - 1];
    if i < |front| {
      WrittenSurvives(s, front, i);
      assert front[i] == adds[i];
      assert Writes(last) ==> !(last.path <= adds[i].path);
    }
  }

  /** A recorded file was there before or was written by one of the entries. */
  lemma {:induction false} FilesHaveAnOrigin(s: State, adds: seq<Item>, path: Path)
    requires forall k | 0 <= k < |adds| :: !IsWhiteout(adds[k])
    requires Run(s, adds).Some? && KindAt(Run(s, adds).value.records, path, File)
    ensures path in s.records || exists k | 0 <= k < |adds| :: Writes(adds[k]) && adds[k].path == path
  {
    if adds != [] {
      var front, last := adds[..|adds| - 1], adds[|adds| - 1];
      if !(Writes(last) && last.path == path) {
        FilesHaveAnOrigin(s, front, path);
        if path !in s.records {
          var k :| 0 <= k < |front| && Writes(front[k]) && front[k].path == path;
          assert adds[k] == front[k];
        }
      }
    }
  }

  lemma {:induction false} RunPrefix(s: State, items: seq<Item>, n: nat)
    requires n <= |items| && Run(s, items).Some?
    ensures Run(s, items[..n]).Some?
  {
    if n < |items| {
      RunPrefix(s, items[..|items| - 1], n);
      assert items[..|items| - 1][..n] == items[..n];
    } else {
      assert items[..n] == items;
    }
  }

  lemma LinkFindsTarget(s: State, adds: seq<Item>, i: nat)
    requires i < |adds| && Run(s, adds).Some? && Writes(adds[i]) && LinkTarget(adds[i].entry).Some?
    ensures Run(s, adds[..i]).Some?
    ensures KindAt(Run(s, adds[..i]).value.records, LinkTarget(adds[i].entry).value, File)
  {
    RunPrefix(s, adds, i + 1);
    assert adds[..i + 1][..i] == adds[..i] && adds[..i + 1][i] == adds[i];
  }

  /** What the run ends up recording was not hit, if the whiteout makes no difference to it. */
  lemma WrittenIsUnhit(s: State, adds: seq<Item>, w: Whiteout, i: nat)
    requires ParentsComeFirst(adds) && forall k | 0 <= k < |adds| :: !IsWhiteout(adds[k])
    requires Run(s, adds).Some? && Unmarked(w, Run(s, adds).value)
    requires i < |adds| && Writes(adds[i])
    ensures !Hits(w, adds[i].path)
  {
    WrittenSurvives(s, adds, i);
  }

  ghost predicate Unmarked(w: Whiteout, s: State) {
    forall q | q in s.records :: !Hits(w, q)
  }

  /** If the run from the stripped state ends without a hit path, the whiteout disturbs nothing. */
  lemma AgreementUndisturbed(s: State, adds: seq<Item>, w: Whiteout, i: nat)
    requires ParentsComeFirst(adds) && forall k | 0 <= k < |adds| :: !IsWhiteout(adds[k])
    requires Unmarked(w, s) && Run(s, adds).Some? && Unmarked(w, Run(s, adds).value)
    requires i < |adds|
    ensures !Disturbs(w, adds[i])
  {
    if Writes(adds[i]) {
      WrittenIsUnhit(s, adds, w, i);
      if LinkTarget(adds[i].entry).Some? {
        var target := LinkTarget(adds[i].entry).value;
        LinkFindsTarget(s, adds, i);
        FilesHaveAnOrigin(s, adds[..i], target);
        if target !in s.records {
          var k :| 0 <= k < i && Writes(adds[..i][k]) && adds[..i][k].path == target;
          WrittenIsUnhit(s, adds, w, k);
        }
      }
    }
  }

  lemma {:induction false} AdditionsKeepOrder(items: seq<Item>)
    requires ParentsComeFirst(items)
    ensures ParentsComeFirst(Additions(items))
  {
    if items != [] {
      var front := items[..|items| - 1];
      AdditionsKeepOrder(front);
      AdditionsAreItems(front);
    }
  }

  lemma {:induction false} AdditionsKeepAll(items: seq<Item>, i: nat)
    requires i < |items| && !IsWhiteout(items[i])
    ensures items[i] in Additions(items)
  {
    if i < |items| - 1 {
      AdditionsKeepAll(items[..|items| - 1], i);
    }
  }

  ghost predicate MeaningsAgree(lower: State, items: seq<Item>) {
    TwoPhase(lower, items) == Run(lower, items)
  }

  ghost predicate PrefixesAgree(lower: State, items: seq<Item>) {
    forall n | 0 <= n <= |items| :: MeaningsAgree(lower, items[..n])
  }

  lemma WhiteoutsComeFirstIn(items: seq<Item>, n: nat)
    requires WhiteoutsComeFirst(items) && n <= |items|
    ensures WhiteoutsComeFirst(items[..n])
  {
  }

  /** Every prefix has its two-phase meaning if and only if no whiteout is blocked. */
  lemma PrefixesAgreeIffUnblocked(lower: State, items: seq<Item>)
    requires WhiteoutsComeFirst(items)
    ensures PrefixesAgree(lower, items) <==> Unblocked(lower, items)
  {
    forall n | 0 <= n <= |items|
      ensures Unblocked(lower, items) ==> MeaningsAgree(lower, items[..n])
    {
      WhiteoutsComeFirstIn(items, n);
      UnblockedPrefix(lower, items, n);
      StreamIsTwoPhase(lower, items[..n]);
    }
    if PrefixesAgree(lower, items) {
      forall n | 0 <= n < |items|
        ensures !BlockedAt(lower, items, n)
      {
        var shorter, longer := items[..n], items[..n + 1];
        assert longer[..n] == shorter && longer[n] == items[n];
        WhiteoutsComeFirstIn(items, n + 1);
        assert MeaningsAgree(lower, shorter) && MeaningsAgree(lower, longer);
        LastInTwoPhases(lower, longer);
        assert BlockedAt(lower, longer, n) <==> BlockedAt(lower, items, n);
      }
    }
  }

  lemma UnblockedPrefix(lower: State, items: seq<Item>, n: nat)
    requires n <= |items|
    ensures Unblocked(lower, items) ==> Unblocked(lower, items[..n])
  {
    var front := items[..n];
    forall k | 0 <= k < |front|
      ensures BlockedAt(lower, front, k) ==> BlockedAt(lower, items, k)
    {
      assert front[..k] == items[..k] && front[k] == items[k];
    }
  }

  /** A whiteout that ran without failing was not blocked. */
  lemma {:induction false} RunIsUnblocked(lower: State, items: seq<Item>)
    requires Run(lower, items).Some?
    ensures Unblocked(lower, items)
  {
    if items != [] {
      RunIsUnblocked(lower, items[..|items| - 1]);
      UnblockedFront(lower, items);
    }
  }

  lemma OrderedPrefixesAgree(lower: State, items: seq<Item>)
    requires WhiteoutsComeFirst(items) && Run(lower, items).Some?
    ensures PrefixesAgree(lower, items)
  {
    RunIsUnblocked(lower, items);
    PrefixesAgreeIffUnblocked(lower, items);
  }

  lemma FrontPrefixesAgree(lower: State, items: seq<Item>)
    requires items != [] && PrefixesAgree(lower, items)
    ensures PrefixesAgree(lower, items[..|items| - 1])
    ensures MeaningsAgree(lower, items)
  {
    var front := items[..|items| - 1];
    assert items[..|items|] == items;
    forall n | 0 <= n <= |front|
      ensures MeaningsAgree(lower, front[..n])
    {
      assert front[..n] == items[..n];
    }
  }

  /** The last item, if a whiteout, disturbs nothing before it. */
  predicate LastIsHarmless(items: seq<Item>) {
    items != [] && IsWhiteout(items[|items| - 1]) ==>
      forall i | 0 <= i < |items| - 1 && !IsWhiteout(items[i]) ::
        !Disturbs(MarkOf(items[|items| - 1].path).whiteout, items[i])
  }

  lemma HarmlessExtends(items: seq<Item>)
    requires items != [] && WhiteoutsComeFirst(items[..|items| - 1]) && LastIsHarmless(items)
    ensures WhiteoutsComeFirst(items)
  {
    var front := items[..|items| - 1];
    forall i, j | 0 <= i < j < |items| && !IsWhiteout(items[i]) && IsWhiteout(items[j])
      ensures !Disturbs(MarkOf(items[j].path).whiteout, items[i])
    {
      if j < |front| {
        assert front[i] == items[i] && front[j] == items[j];
      }
    }
  }

  lemma LastLeavesUnmarked(lower: State, items: seq<Item>)
    requires Run(lower, items).Some? && items != [] && IsWhiteout(items[|items| - 1])
    ensures var w := MarkOf(items[|items| - 1].path).whiteout;
            && Unmarked(w, Run(lower, items).value)
            && Unmarked(w, State(StripAll(lower.records, items), StripAll(lower.tree, items)))
  {
    StripAllStep(lower.records, items);
  }

  lemma AgreementIsHarmless(lower: State, items: seq<Item>)
    requires ParentsComeFirst(items) && Run(lower, items).Some?
    requires items != [] && IsWhiteout(items[|items| - 1])
    requires MeaningsAgree(lower, items)
    ensures LastIsHarmless(items)
  {
    var front, last := items[..|items| - 1], items[|items| - 1];
    var w, adds := MarkOf(last.path).whiteout, Additions(front);
    AdditionsAreItems(front);
    AdditionsKeepOrder(front);
    var stripped := State(StripAll(lower.records, items), StripAll(lower.tree, items));
    LastLeavesUnmarked(lower, items);
    forall i | 0 <= i < |front| && !IsWhiteout(items[i])
      ensures !Disturbs(w, items[i])
    {
      assert front[i] == items[i];
      AdditionsKeepAll(front, i);
      var k :| 0 <= k < |adds| && adds[k] == items[i];
      AgreementUndisturbed(stripped, adds, w, k);
    }
  }

  /** How many items of the stream are applied before it fails, if it does. */
  function Reach(lower: State, items: seq<Item>): (n: nat)
    ensures n <= |items| && Run(lower, items[..n]).Some?
    ensures n < |items| ==> Run(lower, items[..n + 1]).None?
  {
    if Run(lower, items).Some? then
      assert items[..|items|] == items;
      |items|
    else
      var front := items[..|items| - 1];
      var n := Reach(lower, front);
      assert front[..n] == items[..n];
      assert n < |front| ==> front[..n + 1] == items[..n + 1];
      assert items[..|items|] == items;
      n
  }

  /**
    For layers that list parents before their contents and no path twice, the condition is
    exact: as far as the stream gets, every prefix has its two-phase meaning if and only if
    no whiteout disturbs an entry before it.
   */
  lemma TwoPhaseIsExact(lower: State, items: seq<Item>)
    requires ParentsComeFirst(items)
    ensures var applied := items[..Reach(lower, items)];
            PrefixesAgree(lower, applied) <==> WhiteoutsComeFirst(applied)
  {
    var applied := items[..Reach(lower, items)];
    assert ParentsComeFirst(applied);
    ExactWhileApplied(lower, applied);
  }

  lemma {:induction false} ExactWhileApplied(lower: State, items: seq<Item>)
    requires ParentsComeFirst(items) && Run(lower, items).Some?
    ensures PrefixesAgree(lower, items) <==> WhiteoutsComeFirst(items)
  {
    if WhiteoutsComeFirst(items) {
      OrderedPrefixesAgree(lower, items);
    } else if PrefixesAgree(lower, items) {
      FrontPrefixesAgree(lower, items);
      ExactWhileApplied(lower, items[..|items| - 1]);
      if IsWhiteout(items[|items| - 1]) {
        AgreementIsHarmless(lower, items);
      }
      HarmlessExtends(items);
    }
  }

  lemma ExampleMarks()
    ensures MarkOf(["a"]) == Plain && MarkOf([".wh.a"]) == Marks(Erase(["a"]))
  {
    assert ".wh.a"[..4] == WHITEOUT_PREFIX && ".wh.a"[4..] == "a";
    assert |".wh.a"| != |OPAQUE_NAME|;
    assert [] + ["a"] == ["a"];
  }

  lemma RunOne(s: State, item: Item)
    requires item.path != [] && !Fails(s, item)
    ensures Run(s, [item]) == Some(After(s, item))
  {
    assert [item][..0] == [];
  }

  lemma RunTwo(s: State, first: Item, second: Item)
    requires first.path != [] && second.path != []
    requires !Fails(s, first) && !Fails(After(s, first), second)
    ensures Run(s, [first, second]) == Some(After(After(s, first), second))
  {
    RunOne(s, first);
    assert [first, second][..1] == [first];
  }

  /** A whiteout after the entry it names removes it, although it is not in the lower tree. */
  lemma LateWhiteoutExample()
    ensures var add := Item(["a"], Entry("a", FileBody("new"), 0, 0, 0));
            var erase := Item([".wh.a"], Entry(".wh.a", FileBody(""), 0, 0, 0));
            var empty := State(map[], map[]);
            && Run(empty, [add, erase]).Some?
            && TwoPhase(empty, [add, erase]) != Run(empty, [add, erase])
  {
    ExampleMarks();
    var add := Item(["a"], Entry("a", FileBody("new"), 0, 0, 0));
    var erase := Item([".wh.a"], Entry(".wh.a", FileBody(""), 0, 0, 0));
    RunTwo(State(map[], map[]), add, erase);
    LateWhiteoutDiffers(State(map[], map[]), add, erase);
  }

  /** The same for every lower tree and every entry that a whiteout right after it disturbs. */
  lemma LateWhiteoutDiffers(lower: State, add: Item, erase: Item)
    requires !IsWhiteout(add) && IsWhiteout(erase) && Run(lower, [add, erase]).Some?
    requires Disturbs(MarkOf(erase.path).whiteout, add)
    ensures TwoPhase(lower, [add, erase]) != Run(lower, [add, erase])
  {
    var items := [add, erase];
    assert items[0] == add && items[1] == erase;
    if TwoPhase(lower, items) == Run(lower, items) {
      AgreementIsHarmless(lower, items);
      assert false;
    }
  }
}
