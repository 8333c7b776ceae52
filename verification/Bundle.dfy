/**
  What the HostBundle builder and the launcher both read: a fixed filesystem, the ELF facts
  extracted from it, shebang lines, and the payload resolution rules.

  The filesystem is an arbitrary function from paths to facts; nothing here limits its size
  or rules out cycles between scripts, interpreters and libraries.
 */
module Bundle {
  import opened Wrappers
  import opened Text

  /** The dynamic-linking facts the builder extracts from one ELF file. */
  datatype ElfInfo = ElfInfo(
    interpreter: Option<string>,
    needed: seq<string>,
    rpaths: seq<string>,
    runpaths: seq<string>,
    soname: Option<string>,
    requiredVersions: map<string, set<string>>,
    providedVersions: set<string>)

  /** Outcome of inspecting a directory entry without following it. */
  datatype Entry = Missing | Present | Unreadable

  datatype FileSystem = FileSystem(
    canonicalize: Path -> Option<Path>,
    entry: Path -> Entry,
    isFile: Path -> bool,
    isDirectory: Path -> bool,
    isExecutable: Path -> bool,
    head: Path -> Option<string>,
    // The builder's ELF parser and the launcher's own header inspection: `linkage` is the
    // PT_INTERP text, or no text for a statically linked file.
    elf: Path -> Option<ElfInfo>,
    linkage: Path -> Option<Option<string>>)

  /** Canonical paths are their own canonical form. */
  ghost predicate Canonicalizes(fs: FileSystem) {
    forall p | fs.canonicalize(p).Some? ::
      fs.canonicalize(fs.canonicalize(p).value) == fs.canonicalize(p)
  }

  datatype Bundle = Bundle(
    fs: FileSystem,
    payloadRoot: Path,
    libraryDirs: seq<Path>,
    managedTools: map<string, Path>)

  function ParseElf(b: Bundle, path: Path): Option<ElfInfo> {
    b.fs.elf(path)
  }

  function Lookup(b: Bundle, path: Path): Entry {
    b.fs.entry(path)
  }

  datatype PathError =
    | Unresolved
    | OutsidePayload
    | NotRegularFile
    | NotExecutable
    | UnsafePath

  function ResolveFile(b: Bundle, path: Path): (r: Result<Path, PathError>)
    ensures r.Success? <==>
              && b.fs.canonicalize(path).Some?
              && b.payloadRoot <= b.fs.canonicalize(path).value
              && b.fs.isFile(b.fs.canonicalize(path).value)
    ensures r.Success? ==> b.fs.canonicalize(path) == Some(r.value)
  {
    match b.fs.canonicalize(path)
    case None => Failure(Unresolved)
    case Some(resolved) =>
      if !(b.payloadRoot <= resolved) then Failure(OutsidePayload)
      else if !b.fs.isFile(resolved) then Failure(NotRegularFile)
      else Success(resolved)
  }

  function ResolveExecutable(b: Bundle, path: Path): (r: Result<Path, PathError>)
    ensures r.Success? ==> ResolveFile(b, path) == r && b.fs.isExecutable(r.value)
  {
    var resolved :- ResolveFile(b, path);
    if b.fs.isExecutable(resolved) then Success(resolved) else Failure(NotExecutable)
  }

  /** The builder's reading of an absolute path as a path under the payload root. */
  function ResolveLogical(b: Bundle, logical: string): (r: Result<Path, PathError>)
    ensures r.Success? ==>
              && SafeAbsolute(logical)
              && r == ResolveExecutable(b, b.payloadRoot + Components(logical))
  {
    if !SafeAbsolute(logical) then Failure(UnsafePath)
    else ResolveExecutable(b, b.payloadRoot + Components(logical))
  }

  /** Resolving an already resolved path changes nothing. */
  lemma ResolvedIsStable(b: Bundle, path: Path)
    requires Canonicalizes(b.fs)
    ensures ResolveFile(b, path).Success? ==>
              ResolveFile(b, ResolveFile(b, path).value) == ResolveFile(b, path)
    ensures ResolveExecutable(b, path).Success? ==>
              ResolveExecutable(b, ResolveExecutable(b, path).value) == ResolveExecutable(b, path)
  {
    if ResolveFile(b, path).Success? {
      assert b.fs.canonicalize(path).Some?;
    }
  }

  datatype Shebang = Shebang(interpreter: string, argument: Option<string>)

  datatype Format = Elf(linkage: Option<string>) | Script(shebang: Shebang)

  datatype InspectError =
    | CannotRead
    | BadElf
    | UnknownFormat
    | TruncatedShebang
    | MissingInterpreter
    | InvalidInterpreter
    | ShebangContainsNul

  const SHEBANG_BUFFER_SIZE := 256
  const ELF_MAGIC: string := ['\U{7f}', 'E', 'L', 'F']

  predicate Blank(c: char) {
    c == ' ' || c == '\t'
  }

  function TrimLeft(text: string): (rest: string)
    ensures |rest| <= |text|
  {
    if text != "" && Blank(text[0]) then TrimLeft(text[1..]) else text
  }

  function Trim(text: string): string
    decreases |text|
  {
    var left := TrimLeft(text);
    if left != "" && Blank(left[|left| - 1]) then Trim(left[..|left| - 1]) else left
  }

  /** Index of the first character satisfying `p`, or the length of the text. */
  function FirstIndex(text: string, p: char -> bool): (i: nat)
    ensures i <= |text|
    ensures forall k | 0 <= k < i :: !p(text[k])
    ensures i < |text| ==> p(text[i])
  {
    if text == "" || p(text[0]) then 0 else 1 + FirstIndex(text[1..], p)
  }

  function ParseShebang(head: string): (r: Result<Shebang, InspectError>)
    requires "#!" <= head
    ensures r.Success? ==> CleanAbsolute(r.value.interpreter)
  {
    var newline := FirstIndex(head, c => c == '\n');
    assert head[0] == '#' && head[1] == '!';
    var raw := head[2..newline];
    if '\0' in raw then Failure(ShebangContainsNul)
    else if newline == |head| && |head| == SHEBANG_BUFFER_SIZE then Failure(TruncatedShebang)
    else
      var line := Trim(raw);
      if line == "" then Failure(MissingInterpreter)
      else
        var end := FirstIndex(line, c => Blank(c));
        var argument := Trim(line[end..]);
        if !CleanAbsolute(line[..end]) then Failure(InvalidInterpreter)
        else Success(Shebang(line[..end], if argument == "" then None else Some(argument)))
  }

  /** Identifies an executable from its first bytes, without asking the kernel. */
  function Inspect(fs: FileSystem, path: Path): (r: Result<Format, InspectError>)
    ensures r.Success? && r.value.Script? ==> CleanAbsolute(r.value.shebang.interpreter)
    ensures r.Success? && r.value.Elf? ==> fs.linkage(path) == Some(r.value.linkage)
  {
    match fs.head(path)
    case None => Failure(CannotRead)
    case Some(text) =>
      var head := if |text| > SHEBANG_BUFFER_SIZE then text[..SHEBANG_BUFFER_SIZE] else text;
      if ELF_MAGIC <= head then
        match fs.linkage(path)
        case None => Failure(BadElf)
        case Some(linkage) => Success(Elf(linkage))
      else if "#!" <= head then
        var shebang :- ParseShebang(head);
        Success(Script(shebang))
      else
        Failure(UnknownFormat)
  }
}
