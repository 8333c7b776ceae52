/** Lowering of a build-time bundle declaration into the configuration the launcher reads. */
module HostBundle {
  import opened Wrappers
  import opened Text
  import opened Environment

  const PAYLOAD_ROOT := "root"
  const OVERRIDES_ROOT := "overrides"
  const WRAPPED_BIN := "libexec" + "/" + "wrapped-bin"
  const LAUNCHER_NAME := "bobr-bundle-launcher"
  const U64_MAX: nat := 0xffff_ffff_ffff_ffff

  // ----- Declarations -----

  datatype BundlePath = Payload(path: string) | Overrides(path: string)

  datatype DeclaredRule = DeclaredRule(
    operation: Operation, paths: seq<BundlePath>, values: seq<string>, inherit: bool, hostDefault: seq<string>)

  datatype DeclaredArgument = DeclaredLiteral(value: string) | DeclaredPath(declared: BundlePath)

  datatype DeclaredTool = DeclaredTool(
    path: string, argv0: Option<string>, environment: map<string, DeclaredRule>, arguments: seq<DeclaredArgument>)

  datatype Declaration = Declaration(
    publicTools: map<string, DeclaredTool>,
    internalTools: map<string, DeclaredTool>,
    environment: map<string, DeclaredRule>,
    libraryDirs: seq<string>,
    minKernel: string)

  // ----- Runtime configuration -----

  datatype Visibility = Public | Internal

  datatype Argument = Literal(value: string) | BundleFile(path: string)

  datatype ToolConfig = ToolConfig(
    path: string, argv0: string, visibility: Visibility, arguments: seq<Argument>, environment: Rules)

  datatype BundleConfig = BundleConfig(
    libraryDirs: seq<string>, environment: Rules, tools: map<string, ToolConfig>, minKernel: string)

  const PATH_RULE := Rule(Prepend, [WRAPPED_BIN], [], true, [])

  // ----- Lowering paths, rules and tools -----

  function LowerPath(declared: BundlePath, hasOverrides: bool): Option<string> {
    if declared.Overrides? && !hasOverrides then
      None
    else if !SafeRelative(declared.path) then
      None
    else
      Some((if declared.Payload? then PAYLOAD_ROOT else OVERRIDES_ROOT) + "/" + declared.path)
  }

  function LowerPaths(declared: seq<BundlePath>, hasOverrides: bool): Option<seq<string>> {
    if declared == [] then
      Some([])
    else
      var first :- LowerPath(declared[0], hasOverrides);
      var rest :- LowerPaths(declared[1..], hasOverrides);
      Some([first] + rest)
  }

  function LowerRule(variable: string, declared: DeclaredRule, hasOverrides: bool): Option<Rule> {
    var paths :- LowerPaths(declared.paths, hasOverrides);
    var rule := Rule(declared.operation, paths, declared.values, declared.inherit, declared.hostDefault);
    if ValidateRule(variable, rule).Pass? then Some(rule) else None
  }

  predicate RulesLower(declared: map<string, DeclaredRule>, hasOverrides: bool) {
    forall variable | variable in declared :: LowerRule(variable, declared[variable], hasOverrides).Some?
  }

  function LowerEnvironment(declared: map<string, DeclaredRule>, hasOverrides: bool): Option<Rules> {
    if RulesLower(declared, hasOverrides) then
      Some(map variable | variable in declared :: LowerRule(variable, declared[variable], hasOverrides).value)
    else
      None
  }

  function LowerArguments(declared: seq<DeclaredArgument>, hasOverrides: bool): Option<seq<Argument>> {
    if declared == [] then
      Some([])
    else
      var first :- match declared[0]
        case DeclaredLiteral(value) => Some(Literal(value))
        case DeclaredPath(path) =>
          var lowered :- LowerPath(path, hasOverrides);
          Some(BundleFile(lowered));
      var rest :- LowerArguments(declared[1..], hasOverrides);
      Some([first] + rest)
  }

  function LowerTool(name: string, tool: DeclaredTool, visibility: Visibility, hasOverrides: bool): Option<ToolConfig> {
    var argv0 := if tool.argv0.Some? then tool.argv0.value else name;
    if !SafeRelative(tool.path) || argv0 == "" || '\0' in argv0 || "PATH" in tool.environment then
      None
    else
      var environment :- LowerEnvironment(tool.environment, hasOverrides);
      var arguments :- LowerArguments(tool.arguments, hasOverrides);
      Some(ToolConfig(PAYLOAD_ROOT + "/" + tool.path, argv0, visibility, arguments, environment))
  }

  predicate ToolsLower(tools: map<string, DeclaredTool>, hasOverrides: bool) {
    forall name | name in tools :: LowerTool(name, tools[name], Public, hasOverrides).Some?
  }

  /** Adds the tools to those lowered before, one after the other. */
  method LowerTools(declared: map<string, DeclaredTool>, visibility: Visibility, hasOverrides: bool, output: map<string, ToolConfig>)
    returns (r: Option<map<string, ToolConfig>>)
    requires declared.Keys !! output.Keys
    ensures r.Some? <==> ToolsLower(declared, hasOverrides)
    ensures r.Some? ==> r.value.Keys == output.Keys + declared.Keys
    ensures r.Some? ==>
              forall name | name in r.value ::
                if name in declared then LowerTool(name, declared[name], visibility, hasOverrides) == Some(r.value[name])
                else name in output && r.value[name] == output[name]
  {
    var tools := output;
    var rest := declared.Keys;
    while rest != {}
      invariant rest <= declared.Keys && tools.Keys == output.Keys + (declared.Keys - rest)
      invariant forall name | name in declared && name !in rest ::
                  LowerTool(name, declared[name], visibility, hasOverrides) == Some(tools[name])
      invariant forall name | name in output :: tools[name] == output[name]
    {
      var name :| name in rest;
      var lowered := LowerTool(name, declared[name], visibility, hasOverrides);
      VisibilityIsFree(name, declared[name], visibility, hasOverrides);
      if lowered.None? {
        return None;
      }
      tools := tools[name := lowered.value];
      rest := rest - {name};
    }
    forall name | name in declared
      ensures LowerTool(name, declared[name], Public, hasOverrides).Some?
    {
      VisibilityIsFree(name, declared[name], visibility, hasOverrides);
    }
    return Some(tools);
  }

  lemma VisibilityIsFree(name: string, tool: DeclaredTool, visibility: Visibility, hasOverrides: bool)
    ensures LowerTool(name, tool, visibility, hasOverrides).Some? <==> LowerTool(name, tool, Public, hasOverrides).Some?
  {
  }

  // ----- Validation of the runtime configuration -----

  predicate Digits(part: string) {
    part != "" && forall i | 0 <= i < |part| :: '0' <= part[i] <= '9'
  }

  function Decimal(part: string): nat
    requires forall i | 0 <= i < |part| :: '0' <= part[i] <= '9'
  {
    if part == "" then 0 else 10 * Decimal(part[..|part| - 1]) + (part[|part| - 1] as int - '0' as int)
  }

  predicate KernelOk(text: string) {
    var parts := Split(text, '.');
    && (|parts| == 2 || |parts| == 3)
    && forall i | 0 <= i < |parts| :: Digits(parts[i]) && Decimal(parts[i]) <= U64_MAX
  }

  predicate ToolNameOk(name: string) {
    name != LAUNCHER_NAME && PlainName(name) && '/' !in name && '\0' !in name
  }

  predicate ArgumentOk(argument: Argument) {
    match argument
    case Literal(value) => '\0' !in value
    case BundleFile(path) => SafeRelative(path)
  }

  predicate BundleOk(config: BundleConfig) {
    && config.tools != map[]
    && KernelOk(config.minKernel)
    && (forall name | name in config.tools :: ToolNameOk(name))
    && (forall name | name in config.tools :: ArgumentsOk(config.tools[name].arguments))
  }

  // ----- The whole lowering -----

  /** The declarations that are accepted. */
  predicate Acceptable(d: Declaration, hasOverrides: bool) {
    && d.publicTools != map[]
    && d.publicTools.Keys !! d.internalTools.Keys
    && "PATH" !in d.environment
    && (forall i | 0 <= i < |d.libraryDirs| :: SafeRelative(d.libraryDirs[i]))
    && RulesLower(d.environment, hasOverrides)
    && ToolsLower(d.publicTools, hasOverrides)
    && ToolsLower(d.internalTools, hasOverrides)
    && KernelOk(d.minKernel)
    && NamesAndLiteralsOk(d)
  }

  predicate NamesAndLiteralsOk(d: Declaration) {
    var tools := DeclaredTools(d);
    forall name | name in tools :: ToolNameOk(name) && LiteralsOk(tools[name].arguments)
  }

  function DeclaredTools(d: Declaration): map<string, DeclaredTool> {
    d.publicTools + d.internalTools
  }

  predicate LiteralsOk(arguments: seq<DeclaredArgument>) {
    forall i | 0 <= i < |arguments| :: arguments[i].DeclaredLiteral? ==> '\0' !in arguments[i].value
  }

  /** What the launcher may rely on. */
  predicate Trustworthy(config: BundleConfig) {
    && (forall i | 0 <= i < |config.libraryDirs| :: SafeRelative(config.libraryDirs[i]))
    && ConfigurationOk(config.environment)
    && "PATH" in config.environment && config.environment["PATH"] == PATH_RULE
    && (forall name | name in config.tools :: TrustworthyTool(config.tools[name]))
  }

  predicate TrustworthyTool(tool: ToolConfig) {
    && SafeRelative(tool.path) && tool.argv0 != "" && '\0' !in tool.argv0
    && ArgumentsOk(tool.arguments)
    && ConfigurationOk(tool.environment)
    && "PATH" !in tool.environment
  }

  lemma UnderRoot(root: string, path: string)
    requires PlainName(root) && '/' !in root && '\0' !in root && SafeRelative(path)
    ensures SafeRelative(root + "/" + path)
  {
    SplitFirst(root, path, '/');
    assert root[0] in root;
  }

  lemma RootsArePlain()
    ensures PlainName(PAYLOAD_ROOT) && '/' !in PAYLOAD_ROOT && '\0' !in PAYLOAD_ROOT
    ensures PlainName(OVERRIDES_ROOT) && '/' !in OVERRIDES_ROOT && '\0' !in OVERRIDES_ROOT
  {
  }

  lemma PlainIsSafe(name: string)
    requires PlainName(name) && '/' !in name && '\0' !in name
    ensures SafeRelative(name)
  {
    SplitSingle(name, '/');
    assert name[0] in name;
  }

  lemma WrappedBinIsSafe()
    ensures SafeRelative(WRAPPED_BIN)
  {
    PlainIsSafe("wrapped-bin");
    UnderRoot("libexec", "wrapped-bin");
  }

  lemma LoweredPathIsSafe(declared: BundlePath, hasOverrides: bool)
    ensures LowerPath(declared, hasOverrides).Some? ==> SafeRelative(LowerPath(declared, hasOverrides).value)
  {
    RootsArePlain();
    if LowerPath(declared, hasOverrides).Some? {
      UnderRoot(if declared.Payload? then PAYLOAD_ROOT else OVERRIDES_ROOT, declared.path);
    }
  }

  /** Lowering keeps apart what was declared apart: payload and overrides, and different paths. */
  lemma LoweringIsInjective(x: BundlePath, y: BundlePath, hasOverrides: bool)
    requires LowerPath(x, hasOverrides).Some? && LowerPath(x, hasOverrides) == LowerPath(y, hasOverrides)
    ensures x == y
  {
    RootsArePlain();
    var rootX := if x.Payload? then PAYLOAD_ROOT else OVERRIDES_ROOT;
    var rootY := if y.Payload? then PAYLOAD_ROOT else OVERRIDES_ROOT;
    SplitFirst(rootX, x.path, '/');
    SplitFirst(rootY, y.path, '/');
    var parts := [rootX] + Split(x.path, '/');
    assert parts == [rootY] + Split(y.path, '/');
    assert parts[0] == rootX == rootY && parts[1..] == Split(x.path, '/') == Split(y.path, '/');
    assert |PAYLOAD_ROOT| != |OVERRIDES_ROOT|;
  }

  lemma {:induction false} LoweredPathsAreSafe(declared: seq<BundlePath>, hasOverrides: bool)
    requires LowerPaths(declared, hasOverrides).Some?
    ensures forall path | path in LowerPaths(declared, hasOverrides).value :: SafeRelative(path)
  {
    if declared != [] {
      LoweredPathIsSafe(declared[0], hasOverrides);
      LoweredPathsAreSafe(declared[1..], hasOverrides);
    }
  }

  lemma LoweredEnvironmentIsOk(declared: map<string, DeclaredRule>, hasOverrides: bool)
    requires RulesLower(declared, hasOverrides)
    ensures ConfigurationOk(LowerEnvironment(declared, hasOverrides).value)
  {
    var rules := LowerEnvironment(declared, hasOverrides).value;
    forall variable | variable in rules
      ensures ValidateRule(variable, rules[variable]).Pass?
      ensures forall path | path in rules[variable].paths :: SafeRelative(path)
    {
      LoweredPathsAreSafe(declared[variable].paths, hasOverrides);
    }
  }

  predicate ArgumentsOk(arguments: seq<Argument>) {
    forall i | 0 <= i < |arguments| :: ArgumentOk(arguments[i])
  }

  lemma {:induction false} LoweredArgumentsAreOk(declared: seq<DeclaredArgument>, hasOverrides: bool)
    requires LowerArguments(declared, hasOverrides).Some?
    ensures LiteralsOk(declared) <==> ArgumentsOk(LowerArguments(declared, hasOverrides).value)
  {
    if declared != [] {
      LoweredArgumentsAreOk(declared[1..], hasOverrides);
      var lowered, rest := LowerArguments(declared, hasOverrides).value, LowerArguments(declared[1..], hasOverrides).value;
      if declared[0].DeclaredPath? {
        LoweredPathIsSafe(declared[0].declared, hasOverrides);
      }
      assert lowered == [lowered[0]] + rest;
      assert ArgumentOk(lowered[0]) <==> (declared[0].DeclaredLiteral? ==> '\0' !in declared[0].value);
      ArgumentsSplit(lowered[0], rest);
      LiteralsSplit(declared);
    }
  }

  lemma ArgumentsSplit(first: Argument, rest: seq<Argument>)
    ensures ArgumentsOk([first] + rest) <==> ArgumentOk(first) && ArgumentsOk(rest)
  {
    var all := [first] + rest;
    assert all[0] == first && forall i | 0 <= i < |rest| :: all[i + 1] == rest[i];
  }

  lemma LiteralsSplit(declared: seq<DeclaredArgument>)
    requires declared != []
    ensures LiteralsOk(declared) <==>
              (declared[0].DeclaredLiteral? ==> '\0' !in declared[0].value) && LiteralsOk(declared[1..])
  {
    if LiteralsOk(declared) {
      assert forall i | 0 <= i < |declared[1..]| :: declared[1..][i] == declared[i + 1];
    } else {
      var i :| 0 <= i < |declared| && declared[i].DeclaredLiteral? && '\0' in declared[i].value;
      assert i > 0 ==> declared[1..][i - 1] == declared[i];
    }
  }

  lemma LoweredToolIsTrustworthy(name: string, tool: DeclaredTool, visibility: Visibility, hasOverrides: bool)
    requires LowerTool(name, tool, visibility, hasOverrides).Some?
    ensures var lowered := LowerTool(name, tool, visibility, hasOverrides).value;
            && (LiteralsOk(tool.arguments) <==> ArgumentsOk(lowered.arguments))
            && (LiteralsOk(tool.arguments) ==> TrustworthyTool(lowered))
  {
    RootsArePlain();
    UnderRoot(PAYLOAD_ROOT, tool.path);
    LoweredEnvironmentIsOk(tool.environment, hasOverrides);
    LoweredArgumentsAreOk(tool.arguments, hasOverrides);
  }

  /**
    Accepts exactly the acceptable declarations, and gives a configuration in which nothing
    is left for the launcher to refuse on lexical grounds.
   */
  method LowerRuntimeConfig(d: Declaration, hasOverrides: bool) returns (r: Option<BundleConfig>)
    ensures r.Some? <==> Acceptable(d, hasOverrides)
    ensures r.Some? ==> Trustworthy(r.value) && r.value.tools.Keys == DeclaredTools(d).Keys
    ensures r.Some? ==> forall name | name in r.value.tools :: LowersTo(d, hasOverrides, name, r.value.tools[name])
    ensures r.Some? ==> r.value.environment - {"PATH"} == LowerEnvironment(d.environment, hasOverrides).value
  {
    if d.publicTools == map[] {
      return None;
    }
    if exists name | name in d.publicTools :: name in d.internalTools {
      return None;
    }
    if "PATH" in d.environment {
      return None;
    }
    var libraryDirs := LowerLibraryDirs(d.libraryDirs);
    if libraryDirs.None? {
      return None;
    }
    var environment := LowerEnvironment(d.environment, hasOverrides);
    if environment.None? {
      return None;
    }
    var tools := LowerAllTools(d, hasOverrides);
    if tools.None? {
      return None;
    }
    LoweredRules(d, hasOverrides);
    var rules := environment.value["PATH" := PATH_RULE];
    var config := BundleConfig(libraryDirs.value, rules, tools.value, d.minKernel);
    LoweredBundle(d, hasOverrides, config);
    if !BundleOk(config) {
      return None;
    }
    return Some(config);
  }

  method LowerAllTools(d: Declaration, hasOverrides: bool) returns (r: Option<map<string, ToolConfig>>)
    requires d.publicTools.Keys !! d.internalTools.Keys
    ensures r.Some? <==> ToolsLower(d.publicTools, hasOverrides) && ToolsLower(d.internalTools, hasOverrides)
    ensures r.Some? ==> r.value.Keys == DeclaredTools(d).Keys
    ensures r.Some? ==> forall name | name in r.value :: LowersTo(d, hasOverrides, name, r.value[name])
  {
    var public := LowerTools(d.publicTools, Public, hasOverrides, map[]);
    if public.None? {
      return None;
    }
    r := LowerTools(d.internalTools, Internal, hasOverrides, public.value);
  }

  predicate LowersTo(d: Declaration, hasOverrides: bool, name: string, lowered: ToolConfig) {
    if name in d.internalTools then
      LowerTool(name, d.internalTools[name], Internal, hasOverrides) == Some(lowered)
    else
      name in d.publicTools && LowerTool(name, d.publicTools[name], Public, hasOverrides) == Some(lowered)
  }

  /** The library directories, moved under the payload root; none if one is unsafe. */
  method LowerLibraryDirs(dirs: seq<string>) returns (r: Option<seq<string>>)
    ensures r.Some? <==> forall i | 0 <= i < |dirs| :: SafeRelative(dirs[i])
    ensures r.Some? ==> |r.value| == |dirs| && forall i | 0 <= i < |dirs| ::
                r.value[i] == PAYLOAD_ROOT + "/" + dirs[i] && SafeRelative(r.value[i])
  {
    var lowered: seq<string> := [];
    RootsArePlain();
    for i := 0 to |dirs|
      invariant |lowered| == i
      invariant forall k | 0 <= k < i ::
                  SafeRelative(dirs[k]) && lowered[k] == PAYLOAD_ROOT + "/" + dirs[k] && SafeRelative(lowered[k])
    {
      if !SafeRelative(dirs[i]) {
        return None;
      }
      UnderRoot(PAYLOAD_ROOT, dirs[i]);
      lowered := lowered + [PAYLOAD_ROOT + "/" + dirs[i]];
    }
    return Some(lowered);
  }

  /** The final validation adds the conditions on names, literals and the kernel, and no others. */
  lemma LoweredBundle(d: Declaration, hasOverrides: bool, config: BundleConfig)
    requires d.publicTools != map[] && config.minKernel == d.minKernel
    requires config.tools.Keys == DeclaredTools(d).Keys
    requires forall name | name in config.tools :: LowersTo(d, hasOverrides, name, config.tools[name])
    ensures BundleOk(config) <==> KernelOk(d.minKernel) && NamesAndLiteralsOk(d)
    ensures BundleOk(config) ==> forall name | name in config.tools :: TrustworthyTool(config.tools[name])
  {
    var some :| some in d.publicTools;
    assert some in config.tools;
    forall name | name in DeclaredTools(d)
      ensures LiteralsOk(DeclaredTools(d)[name].arguments) <==> ArgumentsOk(config.tools[name].arguments)
      ensures LiteralsOk(DeclaredTools(d)[name].arguments) ==> TrustworthyTool(config.tools[name])
    {
      LoweredToolOf(d, hasOverrides, name, config.tools[name]);
    }
  }

  lemma LoweredToolOf(d: Declaration, hasOverrides: bool, name: string, lowered: ToolConfig)
    requires name in DeclaredTools(d) && LowersTo(d, hasOverrides, name, lowered)
    ensures LiteralsOk(DeclaredTools(d)[name].arguments) <==> ArgumentsOk(lowered.arguments)
    ensures LiteralsOk(DeclaredTools(d)[name].arguments) ==> TrustworthyTool(lowered)
  {
    var visibility := if name in d.internalTools then Internal else Public;
    LoweredToolIsTrustworthy(name, DeclaredTools(d)[name], visibility, hasOverrides);
  }

  /** The common rules with the reserved one for PATH. */
  lemma LoweredRules(d: Declaration, hasOverrides: bool)
    requires RulesLower(d.environment, hasOverrides) && "PATH" !in d.environment
    ensures var rules := LowerEnvironment(d.environment, hasOverrides).value;
            && ConfigurationOk(rules["PATH" := PATH_RULE])
            && rules["PATH" := PATH_RULE] - {"PATH"} == rules
  {
    LoweredEnvironmentIsOk(d.environment, hasOverrides);
    PathRuleIsOk();
  }

  lemma PathRuleIsOk()
    ensures ValidateRule("PATH", PATH_RULE).Pass? && SafeRelative(WRAPPED_BIN)
  {
    WrappedBinIsSafe();
  }

  // ----- The launcher's view -----

  lemma ResolveOne(files: BundleFiles, path: string)
    requires ResolveValues(files, [path]).Success?
    ensures ResolveValue(files, path).Success?
    ensures ResolveValues(files, [path]) == Success([ResolveValue(files, path).value])
  {
    assert [path][1..] == [];
    var value := ResolveValue(files, path).value;
    assert [value] + [] == [value];
  }

  /** In a trustworthy configuration the first entry of PATH is the wrapped-bin directory. */
  lemma WrappedBinComesFirst(config: BundleConfig, name: string, files: BundleFiles, host: map<string, string>)
    requires Trustworthy(config) && name in config.tools
    requires RulesOk(files, config.environment) && RulesOk(files, config.tools[name].environment)
    ensures var path := Final(files, config.environment, config.tools[name].environment, host, "PATH");
            && path.Some? && ResolveValue(files, WRAPPED_BIN).Success?
            && Split(path.value.value, ':')[0] == ResolveValue(files, WRAPPED_BIN).value
  {
    assert RuleOk(files, "PATH", PATH_RULE);
    var wrapped := ResolveValue(files, WRAPPED_BIN);
    ResolveOne(files, WRAPPED_BIN);
    var initial := HostSetting(host, "PATH");
    var own := Join([wrapped.value], ':');
    if initial.Some? && initial.value.value != "" {
      var inherited := initial.value.value;
      assert [wrapped.value, inherited][1..] == [inherited];
      assert Join([wrapped.value, inherited], ':') == wrapped.value + ":" + inherited;
      SplitFirst(wrapped.value, inherited, ':');
    } else {
      SplitSingle(wrapped.value, ':');
    }
  }

  /**
    The whole pipeline: for an accepted declaration, any tool, bundle and host environment,
    evaluation fails only because of the bundle's files, and otherwise puts wrapped-bin first.
   */
  method EvaluateTool(d: Declaration, hasOverrides: bool, name: string, files: BundleFiles, host: map<string, string>)
    returns (r: Result<map<string, Setting>, EnvironmentError>)
    requires Acceptable(d, hasOverrides) && name in DeclaredTools(d)
    ensures r.Failure? ==> FromFiles(r.error)
    ensures r.Success? ==>
              && "PATH" in r.value && ResolveValue(files, WRAPPED_BIN).Success?
              && Split(r.value["PATH"].value, ':')[0] == ResolveValue(files, WRAPPED_BIN).value
  {
    var config := LowerRuntimeConfig(d, hasOverrides);
    r := BuildEnvironment(files, config.value.environment, config.value.tools[name].environment, host);
    if r.Success? {
      WrappedBinComesFirst(config.value, name, files, host);
    }
  }
}
