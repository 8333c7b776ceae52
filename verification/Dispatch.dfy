/**
  The launcher's side: recursive shebang dispatch and bundled-loader planning, and the
  proof that it can start exactly what the builder accepted.
 */
module Dispatch {
  import opened Wrappers
  import opened Text
  import opened Bundle
  import opened LibraryRuns
  import opened StartupSearch
  import opened Startup
  import opened StartupVerifier

  datatype DynamicError =
    | InvalidPtInterp
    | UnresolvedLoader
    | LoaderEscapes
    | InvalidLoaderFile
    | InvalidLoaderElf
    | ChainedLoader
    | EmptyLibraryPath
    | BadLibraryDir
    | PathContainsSeparator

  datatype DispatchError =
    | InspectFailed(path: Path, inspect: InspectError)
    | ScriptRecursionLimit(path: Path)
    | UnresolvedInterpreter
    | InterpreterEscapesPayload
    | InvalidInterpreterFile
    | DynamicFailed(dynamic: DynamicError)

  datatype ProcessPlan =
    | Direct(executable: Path, argv0: string, arguments: seq<string>)
    | Dynamic(loader: Path, libraryDirs: seq<Path>, arguments: seq<string>)

  /** The loader section of the bundle's runtime configuration. */
  datatype LoaderConfig = LoaderConfig(location: Path, libraryDirs: seq<string>, inhibitCache: bool)

  // ----- Library directories, as the builder and as the launcher resolve them -----

  function BuilderDir(b: Bundle, root: Path, text: string): Option<Path> {
    var resolved :- b.fs.canonicalize(root + Components(text));
    if root <= resolved && b.payloadRoot <= resolved && b.fs.isDirectory(resolved) then Some(resolved) else None
  }

  function BuilderDirs(b: Bundle, root: Path, texts: seq<string>): (r: Option<seq<Path>>)
    ensures r.Some? ==> |r.value| == |texts|
  {
    if texts == [] then
      Some([])
    else
      var first :- BuilderDir(b, root, texts[0]);
      var rest :- BuilderDirs(b, root, texts[1..]);
      Some([first] + rest)
  }

  function LauncherDir(b: Bundle, root: Path, text: string): Result<Path, DynamicError> {
    if !SafeRelative(text) then Failure(BadLibraryDir)
    else
      match b.fs.canonicalize(root + Components(text))
      case None => Failure(BadLibraryDir)
      case Some(resolved) =>
        if !(b.payloadRoot <= resolved) || !b.fs.isDirectory(resolved) then Failure(BadLibraryDir)
        else if ':' in PathText(resolved) then Failure(PathContainsSeparator)
        else Success(resolved)
  }

  function LauncherDirs(b: Bundle, root: Path, texts: seq<string>): Result<seq<Path>, DynamicError> {
    if texts == [] then
      Success([])
    else
      var first :- LauncherDir(b, root, texts[0]);
      var rest :- LauncherDirs(b, root, texts[1..]);
      Success([first] + rest)
  }

  // ----- Planning -----

  function ResolveLoader(b: Bundle, interpreter: string): Result<Path, DynamicError> {
    if !CleanAbsolute(interpreter) then Failure(InvalidPtInterp)
    else
      match b.fs.canonicalize(b.payloadRoot + Components(interpreter[1..]))
      case None => Failure(UnresolvedLoader)
      case Some(loader) =>
        if !(b.payloadRoot <= loader) then Failure(LoaderEscapes)
        else if !b.fs.isFile(loader) || !b.fs.isExecutable(loader) then Failure(InvalidLoaderFile)
        else
          match b.fs.linkage(loader)
          case None => Failure(InvalidLoaderElf)
          case Some(Some(_)) => Failure(ChainedLoader)
          case Some(None) => Success(loader)
  }

  function PrepareDynamic(
    b: Bundle, config: LoaderConfig, target: Path, argv0: string, interpreter: string, arguments: seq<string>)
    : Result<ProcessPlan, DynamicError>
  {
    var loader :- ResolveLoader(b, interpreter);
    if config.libraryDirs == [] then Failure(EmptyLibraryPath)
    else
      match b.fs.canonicalize(config.location)
      case None => Failure(BadLibraryDir)
      case Some(root) =>
        var dirs :- LauncherDirs(b, root, config.libraryDirs);
        Success(Dynamic(loader, dirs,
          (if config.inhibitCache then ["--inhibit-cache"] else [])
          + ["--argv0", argv0, "--library-path", Join(seq(|dirs|, i requires 0 <= i < |dirs| => PathText(dirs[i])), ':'), PathText(target)]
          + arguments))
  }

  function PrepareElf(
    b: Bundle, config: LoaderConfig, target: Path, argv0: string, linkage: Option<string>, arguments: seq<string>)
    : Result<ProcessPlan, DispatchError>
  {
    match linkage
    case None => Success(Direct(target, argv0, arguments))
    case Some(interpreter) =>
      match PrepareDynamic(b, config, target, argv0, interpreter, arguments)
      case Success(plan) => Success(plan)
      case Failure(error) => Failure(DynamicFailed(error))
  }

  function ResolveScriptInterpreter(b: Bundle, logical: string): Result<Path, DispatchError>
    requires CleanAbsolute(logical)
  {
    match b.fs.canonicalize(b.payloadRoot + Components(logical[1..]))
    case None => Failure(UnresolvedInterpreter)
    case Some(target) =>
      if !(b.payloadRoot <= target) then Failure(InterpreterEscapesPayload)
      else if !b.fs.isFile(target) || !b.fs.isExecutable(target) then Failure(InvalidInterpreterFile)
      else Success(target)
  }

  /** Words a script puts before the arguments it was given: its shebang argument and its path. */
  function ScriptWords(script: Path, shebang: Shebang): seq<string> {
    (if shebang.argument.Some? then [shebang.argument.value] else []) + [PathText(script)]
  }

  function PrepareInspected(
    b: Bundle, config: LoaderConfig, target: Path, argv0: string, arguments: seq<string>, format: Format, depth: nat)
    : Result<ProcessPlan, DispatchError>
    requires format.Script? ==> CleanAbsolute(format.shebang.interpreter)
    decreases MAX_SCRIPT_DEPTH - depth
  {
    match format
    case Elf(linkage) => PrepareElf(b, config, target, argv0, linkage, arguments)
    case Script(shebang) =>
      if depth >= MAX_SCRIPT_DEPTH then Failure(ScriptRecursionLimit(target))
      else
        var interpreter :- ResolveScriptInterpreter(b, shebang.interpreter);
        match Inspect(b.fs, interpreter)
        case Failure(error) => Failure(InspectFailed(interpreter, error))
        case Success(next) =>
          PrepareInspected(b, config, interpreter, shebang.interpreter,
                           ScriptWords(target, shebang) + arguments, next, depth + 1)
  }

  function PrepareToolLaunch(
    b: Bundle, config: LoaderConfig, target: Path, argv0: string, argumentPrefix: seq<string>, arguments: seq<string>)
    : Result<ProcessPlan, DispatchError>
  {
    match Inspect(b.fs, target)
    case Failure(error) => Failure(InspectFailed(target, error))
    case Success(_) => DispatchOf(b, config, target, argv0, argumentPrefix + arguments, 0)
  }

  /** Dispatch of whatever is found at `path`. */
  function DispatchOf(b: Bundle, config: LoaderConfig, path: Path, argv0: string, arguments: seq<string>, depth: nat)
    : Result<ProcessPlan, DispatchError>
    requires Inspect(b.fs, path).Success?
  {
    PrepareInspected(b, config, path, argv0, arguments, Inspect(b.fs, path).value, depth)
  }

  // ----- The script chain of an executable -----

  ghost function InterpreterOf(b: Bundle, path: Path): Option<Path> {
    match Inspect(b.fs, path)
    case Success(Script(shebang)) =>
      (match ResolveLogical(b, shebang.interpreter)
       case Success(interpreter) => Some(interpreter)
       case Failure(_) => None)
    case _ => None
  }

  /** Scripts and interpreters from `chain[0]` down to the ELF file that finally runs. */
  ghost predicate ScriptChain(b: Bundle, chain: seq<Path>) {
    && chain != []
    && (forall i {:trigger InterpreterOf(b, chain[i])} | 0 <= i < |chain| - 1 ::
          InterpreterOf(b, chain[i]) == Some(chain[i + 1]))
    && Inspect(b.fs, chain[|chain| - 1]).Success? && Inspect(b.fs, chain[|chain| - 1]).value.Elf?
  }

  ghost function WordsOf(b: Bundle, path: Path): seq<string> {
    match Inspect(b.fs, path)
    case Success(Script(shebang)) => ScriptWords(path, shebang)
    case _ => []
  }

  /** The words all scripts of the chain contribute, innermost interpreter's script first. */
  ghost function ChainWords(b: Bundle, scripts: seq<Path>): seq<string> {
    if scripts == [] then
      []
    else
      WordsOf(b, scripts[|scripts| - 1]) + ChainWords(b, scripts[..|scripts| - 1])
  }

  /** The program name the ELF file sees: the innermost shebang's own spelling, if any. */
  ghost function ChainArgv0(b: Bundle, chain: seq<Path>, argv0: string): string {
    if |chain| <= 1 then
      argv0
    else
      match Inspect(b.fs, chain[|chain| - 2])
      case Success(Script(shebang)) => shebang.interpreter
      case _ => argv0
  }

  lemma {:induction false} ChainWordsFirst(b: Bundle, first: Path, rest: seq<Path>)
    ensures ChainWords(b, [first] + rest) == ChainWords(b, rest) + WordsOf(b, first)
  {
    var all := [first] + rest;
    if rest == [] {
      assert all == [first] && all[..0] == [];
    } else {
      var front, last := rest[..|rest| - 1], rest[|rest| - 1];
      ChainWordsFirst(b, first, front);
      assert all[..|all| - 1] == [first] + front && all[|all| - 1] == last;
      ConcatAssociative(WordsOf(b, last), ChainWords(b, front), WordsOf(b, first));
    }
  }

  /** On clean interpreter texts the launcher resolves to the file the builder resolved to. */
  lemma SameInterpreter(b: Bundle, logical: string)
    requires CleanAbsolute(logical) && ResolveLogical(b, logical).Success?
    ensures ResolveScriptInterpreter(b, logical) == Success(ResolveLogical(b, logical).value)
  {
    RootedComponents(logical);
  }

  /** One level of dispatch: the launcher moves on to the interpreter the builder verified. */
  lemma DispatchStep(
    b: Bundle, config: LoaderConfig, script: Path, shebang: Shebang, interpreter: Path,
    argv0: string, arguments: seq<string>, depth: nat)
    requires Inspect(b.fs, script) == Success(Script(shebang)) && depth < MAX_SCRIPT_DEPTH
    requires ResolveLogical(b, shebang.interpreter) == Success(interpreter)
    requires Inspect(b.fs, interpreter).Success?
    ensures DispatchOf(b, config, script, argv0, arguments, depth)
         == DispatchOf(b, config, interpreter, shebang.interpreter, WordsOf(b, script) + arguments, depth + 1)
  {
    SameInterpreter(b, shebang.interpreter);
  }

  lemma ChainExtends(b: Bundle, script: Path, rest: seq<Path>)
    requires ScriptChain(b, rest) && InterpreterOf(b, script) == Some(rest[0])
    ensures ScriptChain(b, [script] + rest)
  {
    var chain := [script] + rest;
    assert chain[|chain| - 1] == rest[|rest| - 1];
    forall i | 0 <= i < |chain| - 1
      ensures InterpreterOf(b, chain[i]) == Some(chain[i + 1])
    {
      if i > 0 {
        assert InterpreterOf(b, rest[i - 1]) == Some(rest[i - 1 + 1]);
      }
    }
  }

  lemma ChainArgv0Extends(b: Bundle, script: Path, shebang: Shebang, rest: seq<Path>, argv0: string)
    requires Inspect(b.fs, script) == Success(Script(shebang)) && ScriptChain(b, rest)
    ensures ChainArgv0(b, [script] + rest, argv0) == ChainArgv0(b, rest, shebang.interpreter)
  {
    if |rest| > 1 {
      assert InterpreterOf(b, rest[|rest| - 2]) == Some(rest[|rest| - 2 + 1]);
    }
  }

  lemma {:induction false} ChainWordsExtend(b: Bundle, script: Path, front: seq<Path>, arguments: seq<string>)
    ensures ChainWords(b, [script] + front) + arguments
         == ChainWords(b, front) + (WordsOf(b, script) + arguments)
  {
    ChainWordsFirst(b, script, front);
    ConcatAssociative(ChainWords(b, front), WordsOf(b, script), arguments);
  }

  /** The plan a script chain stands for: its ELF file, run with the words of all its scripts. */
  ghost function ChainPlan(b: Bundle, config: LoaderConfig, chain: seq<Path>, argv0: string, arguments: seq<string>)
    : Result<ProcessPlan, DispatchError>
    requires ScriptChain(b, chain)
  {
    var last := chain[|chain| - 1];
    PrepareElf(b, config, last, ChainArgv0(b, chain, argv0), Inspect(b.fs, last).value.linkage,
               ChainWords(b, chain[..|chain| - 1]) + arguments)
  }

  lemma ChainPlanSingle(b: Bundle, config: LoaderConfig, path: Path, linkage: Option<string>, argv0: string, arguments: seq<string>)
    requires Inspect(b.fs, path) == Success(Elf(linkage))
    ensures ScriptChain(b, [path])
    ensures ChainPlan(b, config, [path], argv0, arguments) == PrepareElf(b, config, path, argv0, linkage, arguments)
  {
    assert [path][..0] == [];
    assert [] + arguments == arguments;
  }

  lemma {:induction false} ChainPlanExtends(
    b: Bundle, config: LoaderConfig, script: Path, shebang: Shebang, rest: seq<Path>, argv0: string, arguments: seq<string>)
    requires Inspect(b.fs, script) == Success(Script(shebang))
    requires ScriptChain(b, rest) && InterpreterOf(b, script) == Some(rest[0])
    ensures ScriptChain(b, [script] + rest)
    ensures ChainPlan(b, config, [script] + rest, argv0, arguments)
         == ChainPlan(b, config, rest, shebang.interpreter, WordsOf(b, script) + arguments)
  {
    ChainExtends(b, script, rest);
    ChainArgv0Extends(b, script, shebang, rest, argv0);
    ChainWordsExtend(b, script, rest[..|rest| - 1], arguments);
    var chain := [script] + rest;
    assert chain[..|chain| - 1] == [script] + rest[..|rest| - 1];
    assert chain[|chain| - 1] == rest[|rest| - 1];
  }

  /** Dispatch at this depth computes the plan of the chain, whatever the name and arguments. */
  ghost predicate FollowsChain(b: Bundle, config: LoaderConfig, chain: seq<Path>, depth: nat) {
    && ScriptChain(b, chain) && Inspect(b.fs, chain[0]).Success?
    && forall argv0, arguments {:trigger ChainPlan(b, config, chain, argv0, arguments)} ::
         DispatchOf(b, config, chain[0], argv0, arguments, depth) == ChainPlan(b, config, chain, argv0, arguments)
  }

  /** The launcher's recursion computes the plan of the script chain. */
  lemma DispatchFollowsChain(b: Bundle, config: LoaderConfig, chain: seq<Path>, depth: nat)
    requires ScriptChain(b, chain) && depth + |chain| <= MAX_SCRIPT_DEPTH + 1
    ensures FollowsChain(b, config, chain, depth)
  {
    FoldedFollowsChain(b, config, chain, depth);
  }

  /** The induction, with its goal kept folded. */
  lemma {:induction false} FoldedFollowsChain(b: Bundle, config: LoaderConfig, chain: seq<Path>, depth: nat)
    requires ScriptChain(b, chain) && depth + |chain| <= MAX_SCRIPT_DEPTH + 1
    ensures FollowsChain(b, config, chain, depth) == true
    decreases |chain|
  {
    if |chain| == 1 {
      FollowsSingle(b, config, chain, depth);
    } else {
      ChainTail(b, chain);
      FoldedFollowsChain(b, config, chain[1..], depth + 1);
      FollowsExtends(b, config, chain, depth);
    }
  }

  lemma FollowsSingle(b: Bundle, config: LoaderConfig, chain: seq<Path>, depth: nat)
    requires ScriptChain(b, chain) && |chain| == 1
    ensures FollowsChain(b, config, chain, depth)
  {
    assert chain == [chain[0]];
    forall argv0, arguments
      ensures DispatchOf(b, config, chain[0], argv0, arguments, depth) == ChainPlan(b, config, chain, argv0, arguments)
    {
      DispatchSingle(b, config, chain[0], argv0, arguments, depth);
    }
  }

  lemma ChainTail(b: Bundle, chain: seq<Path>)
    requires ScriptChain(b, chain) && |chain| > 1
    ensures ScriptChain(b, chain[1..])
  {
    var _ := ChainStep(b, chain);
  }

  lemma FollowsExtends(b: Bundle, config: LoaderConfig, chain: seq<Path>, depth: nat)
    requires |chain| > 1 && depth < MAX_SCRIPT_DEPTH && ScriptChain(b, chain)
    requires FollowsChain(b, config, chain[1..], depth + 1)
    ensures FollowsChain(b, config, chain, depth)
  {
    var shebang := ChainStep(b, chain);
    forall argv0, arguments
      ensures DispatchOf(b, config, chain[0], argv0, arguments, depth) == ChainPlan(b, config, chain, argv0, arguments)
    {
      DispatchExtends(b, config, chain, shebang, argv0, arguments, depth);
    }
  }

  lemma DispatchSingle(b: Bundle, config: LoaderConfig, path: Path, argv0: string, arguments: seq<string>, depth: nat)
    requires Inspect(b.fs, path).Success? && Inspect(b.fs, path).value.Elf?
    ensures ScriptChain(b, [path])
    ensures DispatchOf(b, config, path, argv0, arguments, depth) == ChainPlan(b, config, [path], argv0, arguments)
  {
    ChainPlanSingle(b, config, path, Inspect(b.fs, path).value.linkage, argv0, arguments);
  }

  lemma DispatchExtends(
    b: Bundle, config: LoaderConfig, chain: seq<Path>, shebang: Shebang,
    argv0: string, arguments: seq<string>, depth: nat)
    requires |chain| > 1 && depth < MAX_SCRIPT_DEPTH && ScriptChain(b, chain) && ScriptChain(b, chain[1..])
    requires Inspect(b.fs, chain[0]) == Success(Script(shebang)) && Inspect(b.fs, chain[1..][0]).Success?
    requires DispatchOf(b, config, chain[1..][0], shebang.interpreter, WordsOf(b, chain[0]) + arguments, depth + 1)
          == ChainPlan(b, config, chain[1..], shebang.interpreter, WordsOf(b, chain[0]) + arguments)
    ensures DispatchOf(b, config, chain[0], argv0, arguments, depth) == ChainPlan(b, config, chain, argv0, arguments)
  {
    assert InterpreterOf(b, chain[0]) == Some(chain[0 + 1]);
    assert chain == [chain[0]] + chain[1..];
    DispatchStep(b, config, chain[0], shebang, chain[1], argv0, arguments, depth);
    ChainPlanExtends(b, config, chain[0], shebang, chain[1..], argv0, arguments);
  }

  lemma ChainStep(b: Bundle, chain: seq<Path>) returns (shebang: Shebang)
    requires ScriptChain(b, chain) && |chain| > 1
    ensures Inspect(b.fs, chain[0]) == Success(Script(shebang))
    ensures ResolveLogical(b, shebang.interpreter) == Success(chain[1])
    ensures InterpreterOf(b, chain[0]) == Some(chain[1])
    ensures ScriptChain(b, chain[1..])
  {
    assert InterpreterOf(b, chain[0]) == Some(chain[0 + 1]);
    shebang := Inspect(b.fs, chain[0]).value.shebang;
    var rest := chain[1..];
    forall i | 0 <= i < |rest| - 1
      ensures InterpreterOf(b, rest[i]) == Some(rest[i + 1])
    {
      assert InterpreterOf(b, chain[i + 1]) == Some(chain[i + 1 + 1]);
    }
  }

  /** A verified state has a short enough script chain, ending in an ELF file that passed. */
  lemma {:induction false} VerifiedChain(b: Bundle, a: Audit, s: ExecutableState) returns (chain: seq<Path>)
    requires Sound(b, a) && s in a.rank
    ensures ScriptChain(b, chain) && chain[0] == s.path
    ensures |chain| == 1 || s.depth + |chain| <= MAX_SCRIPT_DEPTH + 1
    ensures ElfEntryOk(b, chain[|chain| - 1], s.inherited, a.verifiedLibraries)
    decreases a.rank[s]
  {
    VerifiedFormat(b, a, s);
    match Inspect(b.fs, s.path) {
      case Success(Elf(_)) =>
        chain := [s.path];
      case Success(Script(shebang)) =>
        var next := VerifiedScript(b, a, s, shebang);
        var rest := VerifiedChain(b, a, next);
        ChainExtends(b, s.path, rest);
        chain := [s.path] + rest;
    }
  }

  // ----- What remains to go wrong -----

  /** The two ELF readers agree on files the builder could parse. */
  ghost predicate ParsersAgree(b: Bundle) {
    forall p | ParseElf(b, p).Some? :: b.fs.linkage(p) == Some(ParseElf(b, p).value.interpreter)
  }

  /** The builder resolved the configured directories to the ones it audited with. */
  ghost predicate DirsResolved(b: Bundle, config: LoaderConfig) {
    && b.fs.canonicalize(config.location).Some?
    && BuilderDirs(b, b.fs.canonicalize(config.location).value, config.libraryDirs) == Some(b.libraryDirs)
    && forall text | text in config.libraryDirs :: SafeRelative(text)
  }

  ghost predicate NoSeparator(dirs: seq<Path>) {
    forall i | 0 <= i < |dirs| :: ':' !in PathText(dirs[i])
  }

  lemma {:induction false} LauncherDirsAgree(b: Bundle, root: Path, texts: seq<string>)
    requires BuilderDirs(b, root, texts).Some?
    requires forall text | text in texts :: SafeRelative(text)
    ensures LauncherDirs(b, root, texts).Success? <==> NoSeparator(BuilderDirs(b, root, texts).value)
    ensures LauncherDirs(b, root, texts).Success? ==>
              LauncherDirs(b, root, texts).value == BuilderDirs(b, root, texts).value
  {
    if texts != [] {
      LauncherDirsAgree(b, root, texts[1..]);
      assert texts[0] in texts;
      var dirs, rest := BuilderDirs(b, root, texts).value, BuilderDirs(b, root, texts[1..]).value;
      assert dirs == [dirs[0]] + rest;
      assert NoSeparator(dirs) <==> ':' !in PathText(dirs[0]) && NoSeparator(rest) by {
        if NoSeparator(dirs) {
          forall i | 0 <= i < |rest|
            ensures ':' !in PathText(rest[i])
          {
            assert rest[i] == dirs[i + 1];
          }
        }
      }
    }
  }

  /** An accepted loader is accepted by the launcher exactly when its text is clean. */
  lemma LoaderAgrees(b: Bundle, interpreter: string)
    requires ParsersAgree(b)
    requires ResolveLogical(b, interpreter).Success? && StandsAlone(b, ResolveLogical(b, interpreter).value)
    ensures ResolveLoader(b, interpreter).Success? <==> CleanAbsolute(interpreter)
    ensures ResolveLoader(b, interpreter).Success? ==>
              ResolveLoader(b, interpreter) == Success(ResolveLogical(b, interpreter).value)
  {
    RootedComponents(interpreter);
    var loader := ResolveLogical(b, interpreter).value;
    assert ParseElf(b, loader).Some?;
  }

  /**
    A tool the builder accepted is dispatched along one script chain of at most four scripts
    to an ELF file, with the shebang words in kernel order. Dispatch itself never fails; the
    launch as a whole succeeds if and only if the ELF file is static, or its PT_INTERP text
    is clean and no library directory contains the list separator.
   */
  lemma AcceptedToolLaunches(
    b: Bundle, a: Audit, targets: seq<Path>, config: LoaderConfig,
    target: Path, argv0: string, argumentPrefix: seq<string>, arguments: seq<string>)
    returns (chain: seq<Path>, linkage: Option<string>)
    requires Accepts(b, a, targets) && target in targets
    requires ResolveExecutable(b, target) == Success(target)
    requires ParsersAgree(b) && DirsResolved(b, config)
    ensures ScriptChain(b, chain) && chain[0] == target && |chain| <= MAX_SCRIPT_DEPTH + 1
    ensures Inspect(b.fs, chain[|chain| - 1]) == Success(Elf(linkage))
    ensures var launch := PrepareToolLaunch(b, config, target, argv0, argumentPrefix, arguments);
            && launch == ChainPlan(b, config, chain, argv0, argumentPrefix + arguments)
            && (launch.Failure? ==> launch.error.DynamicFailed?)
            && (launch.Success? <==>
                  linkage == None || (CleanAbsolute(linkage.value) && NoSeparator(b.libraryDirs)))
  {
    var at :| 0 <= at < |targets| && targets[at] == target;
    assert Accepted(b, a.rank, targets[at]);
    var s := ExecutableState(target, [], 0);
    chain := VerifiedChain(b, a, s);
    DispatchFollowsChain(b, config, chain, 0);
    linkage := Inspect(b.fs, chain[|chain| - 1]).value.linkage;
    if linkage.Some? {
      LoaderAgrees(b, linkage.value);
      LauncherDirsAgree(b, b.fs.canonicalize(config.location).value, config.libraryDirs);
    }
  }

  // ----- A bundle that is accepted and does not launch -----

  /** The builder's rule admits a doubled slash, the launcher's does not. */
  lemma DoubledSlash(name: string)
    requires PlainName(name) && '/' !in name
    ensures var text := "//" + name;
            SafeAbsolute(text) && Components(text) == [name] && !CleanAbsolute(text)
  {
    var text := "//" + name;
    SplitSingle(name, '/');
    SplitFirst("", name, '/');
    SplitFirst("", "/" + name, '/');
    assert "" + ['/'] + name == "/" + name && "" + ['/'] + ("/" + name) == text;
    assert Split(text, '/') == ["", "", name] && text[1..] == "/" + name;
    assert "" in Split("/" + name, '/');
    assert ["", "", name][1..] == ["", name] && ["", name][1..] == [name] && [name][1..] == [];
    assert Named([name]) == [name] && Named(["", name]) == [name];
  }

  lemma SingleSlash(name: string)
    requires PlainName(name) && '/' !in name
    ensures var text := "/" + name;
            SafeAbsolute(text) && Components(text) == [name] && CleanAbsolute(text)
  {
    var text := "/" + name;
    SplitSingle(name, '/');
    assert text[1..] == name;
    CleanIsSafe(text);
    assert Named([name]) == [name] + Named([]);
  }

  /** A payload with one dynamic tool, its loader and an empty library directory. */
  datatype Loose = Loose(root: Path, tool: string, ld: string, lib: string, doubled: bool) {
    /** PT_INTERP of the tool, with a single or a doubled slash. */
    function Interpreter(): string {
      if doubled then "//" + ld else "/" + ld
    }

    predicate Ok() {
      && PlainName(tool) && PlainName(ld) && PlainName(lib) && tool != ld && tool != lib && ld != lib
      && '/' !in ld && '/' !in lib && '\0' !in lib
    }

    function At(name: string): Path {
      root + [name]
    }

    function ElfAt(path: Path): Option<ElfInfo> {
      if path == At(tool) then Some(ElfInfo(Some(Interpreter()), [], [], [], None, map[], {}))
      else if path == At(ld) then Some(ElfInfo(None, [], [], [], None, map[], {}))
      else None
    }

    predicate Directory(path: Path) {
      path == root || path == At(lib)
    }

    function World(): Bundle {
      Bundle(
        FileSystem(
          path => if ElfAt(path).Some? || Directory(path) then Some(path) else None,
          path => if ElfAt(path).Some? || Directory(path) then Present else Missing,
          path => ElfAt(path).Some?,
          path => Directory(path),
          path => ElfAt(path).Some?,
          path => if ElfAt(path).Some? then Some(ELF_MAGIC) else None,
          path => ElfAt(path),
          path => if ElfAt(path).Some? then Some(ElfAt(path).value.interpreter) else None),
        root, [At(lib)], map[])
    }

    function Config(): LoaderConfig {
      LoaderConfig(root, [lib], true)
    }
  }

  lemma LooseFiles(w: Loose)
    requires w.Ok()
    ensures var b := w.World();
            && Canonicalizes(b.fs) && ParsersAgree(b)
            && ParseElf(b, w.At(w.tool)) == Some(ElfInfo(Some(w.Interpreter()), [], [], [], None, map[], {}))
            && ParseElf(b, w.At(w.ld)) == Some(ElfInfo(None, [], [], [], None, map[], {}))
            && ResolveExecutable(b, w.At(w.tool)) == Success(w.At(w.tool))
            && ResolveExecutable(b, w.At(w.ld)) == Success(w.At(w.ld))
            && Inspect(b.fs, w.At(w.tool)) == Success(Elf(Some(w.Interpreter())))
  {
    assert w.At(w.tool)[|w.root|] == w.tool && w.At(w.ld)[|w.root|] == w.ld;
    assert w.root <= w.At(w.tool) && w.root <= w.At(w.ld);
  }

  lemma LooseInterpreter(w: Loose)
    requires w.Ok()
    ensures var text := w.Interpreter();
            SafeAbsolute(text) && Components(text) == [w.ld] && (CleanAbsolute(text) <==> !w.doubled)
  {
    if w.doubled {
      DoubledSlash(w.ld);
    } else {
      SingleSlash(w.ld);
    }
  }

  lemma LooseDirs(w: Loose)
    requires w.Ok()
    ensures DirsResolved(w.World(), w.Config())
  {
    var b := w.World();
    SplitSingle(w.lib, '/');
    NamedKeepsPlain([w.lib]);
    assert w.lib[0] in w.lib;
    assert SafeRelative(w.lib);
    assert w.root <= w.At(w.lib);
    assert BuilderDir(b, w.root, w.lib) == Some(w.At(w.lib));
    assert [w.lib][1..] == [] && BuilderDirs(b, w.root, []) == Some([]);
    assert [w.At(w.lib)] + [] == [w.At(w.lib)];
  }

  lemma LooseAccepted(w: Loose)
    requires w.Ok()
    ensures Accepts(w.World(), SingleAudit(w.At(w.tool), {}), [w.At(w.tool)])
  {
    var b := w.World();
    LooseFiles(w);
    LooseInterpreter(w);
    assert ResolveLogical(b, w.Interpreter()) == Success(w.At(w.ld));
    assert LoaderOk(b, w.Interpreter());
    var file := LibraryState(w.At(w.tool), []);
    assert Planned(b, file) && InfoOf(b, file).needed == [];
    assert Deps(b, file) == Some([]);
    SingleIsAccepted(b, w.At(w.tool), {});
  }

  /**
    The builder accepts the tool in any case. The launcher refuses to start it if PT_INTERP
    has a doubled slash, and also if the library directory contains a colon, and only then.
   */
  lemma AcceptedButNotLaunched(w: Loose, argv0: string, arguments: seq<string>)
    requires w.Ok()
    ensures Accepts(w.World(), SingleAudit(w.At(w.tool), {}), [w.At(w.tool)])
    ensures PrepareToolLaunch(w.World(), w.Config(), w.At(w.tool), argv0, [], arguments).Failure?
            <==> w.doubled || ':' in PathText(w.At(w.lib))
  {
    LooseAccepted(w);
    LooseFiles(w);
    LooseDirs(w);
    LooseInterpreter(w);
    var b := w.World();
    var chain, linkage := AcceptedToolLaunches(b, SingleAudit(w.At(w.tool), {}), [w.At(w.tool)], w.Config(), w.At(w.tool), argv0, [], arguments);
    assert InterpreterOf(b, chain[0]) == None;
    assert |chain| == 1;
    assert NoSeparator([w.At(w.lib)]) <==> ':' !in PathText([w.At(w.lib)][0]);
  }
}
