/**
  Separator-delimited text, and the component view of '/'-separated paths.

  A path value is its list of components: two Rust `PathBuf`s are equal, and one starts
  with the other, exactly when their component lists are equal or one is a prefix of the
  other, so prefix order on component lists is `Path::starts_with`.
 */
module Text {

  type Path = seq<string>

  lemma ConcatAssociative<T>(x: seq<T>, y: seq<T>, z: seq<T>)
    ensures (x + y) + z == x + (y + z)
  {
  }

  lemma ConcatCancel<T>(x: seq<T>, y: seq<T>, z: seq<T>)
    requires x + y == x + z
    ensures y == z
  {
    assert (x + y)[|x|..] == y;
    assert (x + z)[|x|..] == z;
  }

  /** The pieces of `text` between occurrences of `sep`; never empty. */
  function Split(text: string, sep: char): (parts: seq<string>)
    ensures |parts| >= 1
    ensures forall i | 0 <= i < |parts| :: sep !in parts[i]
    ensures Join(parts, sep) == text
  {
    if text == "" then
      [""]
    else
      var rest := Split(text[1..], sep);
      if text[0] == sep then [""] + rest else [[text[0]] + rest[0]] + rest[1..]
  }

  function Join(parts: seq<string>, sep: char): string {
    if parts == [] then
      ""
    else if |parts| == 1 then
      parts[0]
    else
      parts[0] + [sep] + Join(parts[1..], sep)
  }

  /** `Split` undoes `Join` on pieces that do not contain the separator. */
  lemma {:induction false} SplitJoin(parts: seq<string>, sep: char)
    requires parts != []
    requires forall i | 0 <= i < |parts| :: sep !in parts[i]
    ensures Split(Join(parts, sep), sep) == parts
    decreases |parts|, |parts[0]|
  {
    var text := Join(parts, sep);
    if parts[0] != "" {
      var shorter := [parts[0][1..]] + parts[1..];
      SplitJoin(shorter, sep);
      assert text[1..] == Join(shorter, sep) by {
        if |parts| > 1 {
          assert shorter[1..] == parts[1..];
        }
      }
      assert parts[0][0] in parts[0] && text[0] == parts[0][0];
      assert [text[0]] + shorter[0] == parts[0];
    } else if |parts| > 1 {
      SplitJoin(parts[1..], sep);
      assert text[1..] == Join(parts[1..], sep);
    }
  }

  /** Prepending a separator-free piece and a separator prepends one part. */
  lemma {:induction false} SplitFirst(piece: string, rest: string, sep: char)
    requires sep !in piece
    ensures Split(piece + [sep] + rest, sep) == [piece] + Split(rest, sep)
  {
    var text := piece + [sep] + rest;
    if piece == "" {
      assert text[1..] == rest;
    } else {
      SplitFirst(piece[1..], rest, sep);
      assert text[1..] == piece[1..] + [sep] + rest;
      assert piece[0] in piece && text[0] == piece[0];
      var tail := [piece[1..]] + Split(rest, sep);
      assert tail[0] == piece[1..] && tail[1..] == Split(rest, sep);
      assert [text[0]] + tail[0] == piece;
      assert Split(text, sep) == [piece] + tail[1..];
    }
  }

  lemma {:induction false} JoinAppend(p: seq<string>, q: seq<string>, sep: char)
    requires p != [] && q != []
    ensures Join(p + q, sep) == Join(p, sep) + [sep] + Join(q, sep)
  {
    if |p| == 1 {
      assert (p + q)[1..] == q;
    } else {
      JoinAppend(p[1..], q, sep);
      assert (p + q)[1..] == p[1..] + q;
      var first, inner, last := p[0] + [sep], Join(p[1..], sep), Join(q, sep);
      ConcatAssociative(first, inner + [sep], last);
      ConcatAssociative(first, inner, [sep]);
    }
  }

  /** Joining two texts with the separator joins their parts. */
  lemma SplitAppend(a: string, b: string, sep: char)
    ensures Split(a + [sep] + b, sep) == Split(a, sep) + Split(b, sep)
  {
    JoinAppend(Split(a, sep), Split(b, sep), sep);
    SplitJoin(Split(a, sep) + Split(b, sep), sep);
  }

  /** Text without the separator is its own only part. */
  lemma {:induction false} SplitSingle(piece: string, sep: char)
    requires sep !in piece
    ensures Split(piece, sep) == [piece]
  {
    SplitJoin([piece], sep);
  }

  /** The text of an absolute path. */
  function PathText(path: Path): string {
    "/" + Join(path, '/')
  }

  /** Components of a relative or absolute path text: empty and `.` parts vanish. */
  function Components(text: string): Path {
    Named(Split(text, '/'))
  }

  function Named(parts: seq<string>): (kept: seq<string>)
    ensures forall i | 0 <= i < |kept| :: kept[i] in parts && kept[i] != "" && kept[i] != "."
  {
    if parts == [] then
      []
    else if parts[0] == "" || parts[0] == "." then
      Named(parts[1..])
    else
      [parts[0]] + Named(parts[1..])
  }

  predicate PlainName(part: string) {
    part != "" && part != "." && part != ".."
  }

  lemma {:induction false} NamedKeepsPlain(parts: seq<string>)
    requires forall i | 0 <= i < |parts| :: PlainName(parts[i])
    ensures Named(parts) == parts
  {
    if parts != [] {
      NamedKeepsPlain(parts[1..]);
    }
  }

  /** The launcher's lexical rule for absolute payload paths. */
  predicate CleanAbsolute(text: string) {
    && text != "" && text[0] == '/'
    && forall part | part in Split(text[1..], '/') :: PlainName(part)
  }

  /** The builder's lexical rule for the same paths. */
  predicate SafeAbsolute(text: string) {
    text != "" && text[0] == '/' && ".." !in Components(text)
  }

  /** A leading '/' contributes no component. */
  lemma RootedComponents(text: string)
    requires text != "" && text[0] == '/'
    ensures Components(text) == Components(text[1..])
  {
    assert Split(text, '/') == [""] + Split(text[1..], '/');
  }

  /** Whatever the launcher's rule admits, the builder's rule admits, as the same components. */
  lemma CleanIsSafe(text: string)
    requires CleanAbsolute(text)
    ensures SafeAbsolute(text)
    ensures Components(text) == Split(text[1..], '/')
  {
    RootedComponents(text);
    NamedKeepsPlain(Split(text[1..], '/'));
  }

  /** The lexical rule for paths relative to the bundle root. */
  predicate SafeRelative(text: string) {
    && text != "" && text[0] != '/' && '\0' !in text
    && forall part | part in Split(text, '/') :: PlainName(part)
  }
}
