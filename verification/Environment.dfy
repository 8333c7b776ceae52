/** Evaluation of a bundle's environment rules over a captured host environment. */
module Environment {
  import opened Wrappers
  import opened Text

  datatype Operation = Unset | Replace | Prepend | Append | Default

  datatype Rule = Rule(
    operation: Operation, paths: seq<string>, values: seq<string>, inherit: bool, hostDefault: seq<string>)

  type Rules = map<string, Rule>

  datatype EnvironmentError =
    | InvalidVariableName
    | InvalidRule
    | InvalidPath
    | Unresolved
    | EscapesBundle
    | ContainsSeparator

  /** Errors that depend on the files of the bundle and not on its configuration. */
  predicate FromFiles(e: EnvironmentError) {
    e.Unresolved? || e.EscapesBundle? || e.ContainsSeparator?
  }

  /** The canonical bundle root, and the canonical path of each relative path below it. */
  datatype BundleFiles = BundleFiles(root: Path, canonical: string -> Option<Path>)

  // ----- Rules -----

  predicate NameOk(variable: string) {
    variable != "" && '=' !in variable && '\0' !in variable
  }

  predicate RuleShapeOk(rule: Rule) {
    var unconfigured := rule.paths == [] && rule.values == [];
    && (rule.paths == [] || rule.values == [])
    && (forall value | value in rule.values + rule.hostDefault :: '\0' !in value)
    && match rule.operation
       case Replace => !unconfigured && !rule.inherit && rule.hostDefault == []
       case Prepend => !unconfigured && (rule.inherit || rule.hostDefault == [])
       case Append => !unconfigured && (rule.inherit || rule.hostDefault == [])
       case Unset => unconfigured && !rule.inherit && rule.hostDefault == []
       case Default => !rule.inherit && !(unconfigured && rule.hostDefault == [])
  }

  function ValidateRule(variable: string, rule: Rule): Outcome<EnvironmentError> {
    if !NameOk(variable) then Fail(InvalidVariableName)
    else if !RuleShapeOk(rule) then Fail(InvalidRule)
    else Pass
  }

  function LookUp(files: BundleFiles, relative: string): Option<Path> {
    files.canonical(relative)
  }

  function ResolveValue(files: BundleFiles, relative: string): (r: Result<string, EnvironmentError>)
    ensures r.Success? ==> r.value != "" && ':' !in r.value
  {
    if !SafeRelative(relative) then
      Failure(InvalidPath)
    else
      match LookUp(files, relative)
      case None => Failure(Unresolved)
      case Some(path) =>
        if !(files.root <= path) then Failure(EscapesBundle)
        else if ':' in PathText(path) then Failure(ContainsSeparator)
        else Success(PathText(path))
  }

  function ResolveValues(files: BundleFiles, paths: seq<string>): (r: Result<seq<string>, EnvironmentError>)
    ensures r.Success? ==> |r.value| == |paths|
  {
    if paths == [] then
      Success([])
    else
      var first :- ResolveValue(files, paths[0]);
      var rest :- ResolveValues(files, paths[1..]);
      Success([first] + rest)
  }

  function Configured(files: BundleFiles, rule: Rule): Result<seq<string>, EnvironmentError> {
    if rule.paths != [] then ResolveValues(files, rule.paths) else Success(rule.values)
  }

  // ----- Joining -----

  /** Appends the values one by one, separated by colons. */
  method JoinList(values: seq<string>) returns (output: string)
    ensures output == Join(values, ':')
  {
    output := "";
    for i := 0 to |values|
      invariant output + JoinLeft(values, i) == Join(values, ':')
    {
      JoinStep(values, i, output);
      if i != 0 {
        output := output + ":";
      }
      output := output + values[i];
    }
  }

  function JoinLeft(values: seq<string>, i: nat): string
    requires i <= |values|
  {
    if i == |values| then "" else (if i > 0 then ":" else "") + Join(values[i..], ':')
  }

  lemma JoinStep(values: seq<string>, i: nat, before: string)
    requires i < |values|
    ensures before + JoinLeft(values, i)
            == (if i > 0 then before + ":" else before) + values[i] + JoinLeft(values, i + 1)
  {
    var separator, value, left := if i > 0 then ":" else "", values[i], JoinLeft(values, i + 1);
    assert values[i..][1..] == values[i + 1..];
    assert Join(values[i..], ':') == value + left by {
      if i + 1 < |values| {
        ConcatAssociative(value, ":", Join(values[i + 1..], ':'));
      }
    }
    ConcatAssociative(before, separator, value + left);
    ConcatAssociative(before + separator, value, left);
  }

  function JoinPair(first: string, second: string): string {
    if first == "" then second
    else if second == "" then first
    else Join([first, second], ':')
  }

  function HostDefaultValue(defaults: seq<string>): Option<string> {
    if defaults == [] then None else Some(Join(defaults, ':'))
  }

  // ----- One rule on one variable -----

  datatype Scope = CommonScope | ToolScope

  datatype Origin = Host | Common(operation: Operation) | Tool(operation: Operation)

  function OriginOf(scope: Scope, operation: Operation): Origin {
    if scope.CommonScope? then Common(operation) else Tool(operation)
  }

  /** The value of a variable and where it came from. */
  datatype Setting = Setting(value: string, trace: seq<Origin>)

  function Inherited(rule: Rule, old_: Option<Setting>): Option<string> {
    if !rule.inherit then None
    else if old_.Some? then Some(old_.value.value)
    else HostDefaultValue(rule.hostDefault)
  }

  /** What a rule makes of a variable, given its resolved values. */
  function ApplyRule(scope: Scope, rule: Rule, configured: seq<string>, old_: Option<Setting>): Option<Setting> {
    var origin := OriginOf(scope, rule.operation);
    var own := Join(configured, ':');
    match rule.operation
    case Unset => None
    case Replace => Some(Setting(own, [origin]))
    case Default =>
      if old_.Some? then old_
      else if configured != [] then Some(Setting(own, [origin]))
      else
        var fallback := HostDefaultValue(rule.hostDefault);
        Some(Setting(if fallback.Some? then fallback.value else "", [origin]))
    case _ => Some(Combined(rule, configured, origin, old_))
  }

  function Combined(rule: Rule, configured: seq<string>, origin: Origin, old_: Option<Setting>): Setting {
    var own, inherited := Join(configured, ':'), Inherited(rule, old_);
    var contributes := inherited.Some? && inherited.value != "";
    var value :=
      if inherited.None? then own
      else if rule.operation.Prepend? then JoinPair(own, inherited.value)
      else JoinPair(inherited.value, own);
    Setting(value, if contributes && old_.Some? then old_.value.trace + [origin] else [origin])
  }

  // ----- All rules on all variables -----

  predicate RuleOk(files: BundleFiles, variable: string, rule: Rule) {
    ValidateRule(variable, rule).Pass? && Configured(files, rule).Success?
  }

  predicate RulesOk(files: BundleFiles, rules: Rules) {
    forall variable | variable in rules :: RuleOk(files, variable, rules[variable])
  }

  /** One variable under all rules of a scope: at most its own rule applies. */
  function Evaluate(files: BundleFiles, rules: Rules, scope: Scope, variable: string, old_: Option<Setting>): Option<Setting>
    requires RulesOk(files, rules)
  {
    if variable in rules then
      ApplyRule(scope, rules[variable], Configured(files, rules[variable]).value, old_)
    else
      old_
  }

  predicate LoaderSensitive(name: string) {
    "LD_" <= name || name == "GLIBC_TUNABLES"
  }

  function HostSetting(host: map<string, string>, variable: string): Option<Setting> {
    if variable in host && !LoaderSensitive(variable) then Some(Setting(host[variable], [Host])) else None
  }

  /** The final setting of one variable: the common rule, then the tool's rule. */
  function Final(files: BundleFiles, common: Rules, tool: Rules, host: map<string, string>, variable: string): Option<Setting>
    requires RulesOk(files, common) && RulesOk(files, tool)
  {
    Evaluate(files, tool, ToolScope, variable,
             Evaluate(files, common, CommonScope, variable, HostSetting(host, variable)))
  }

  function SettingOf(values: map<string, string>, traces: map<string, seq<Origin>>, variable: string): Option<Setting> {
    if variable in values && variable in traces then Some(Setting(values[variable], traces[variable])) else None
  }

  class ProcessEnvironment {
    var values: map<string, string>
    var traces: map<string, seq<Origin>>

    /** Starts from the host environment without the variables the loader reacts to. */
    constructor (host: map<string, string>)
      ensures values.Keys == traces.Keys
      ensures forall variable :: Get(variable) == HostSetting(host, variable)
    {
      values := map name | name in host && !LoaderSensitive(name) :: host[name];
      traces := map name | name in host && !LoaderSensitive(name) :: [Host];
    }

    function Get(variable: string): Option<Setting>
      reads this
    {
      SettingOf(values, traces, variable)
    }

    /** Applies one rule to the two maps. */
    method ApplyOne(variable: string, rule: Rule, configured: seq<string>, scope: Scope)
      requires values.Keys == traces.Keys
      modifies this
      ensures values.Keys == traces.Keys
      ensures Get(variable) == ApplyRule(scope, rule, configured, old(Get(variable)))
      ensures forall other | other != variable :: Get(other) == old(Get(other))
    {
      var origin := OriginOf(scope, rule.operation);
      match rule.operation {
        case Unset =>
          values := values - {variable};
          traces := traces - {variable};
        case Replace =>
          var own := JoinList(configured);
          values := values[variable := own];
          traces := traces[variable := [origin]];
        case Default =>
          if variable !in values {
            var value := Join(configured, ':');
            if configured == [] {
              var fallback := HostDefaultValue(rule.hostDefault);
              value := if fallback.Some? then fallback.value else "";
            }
            values := values[variable := value];
            traces := traces[variable := [origin]];
          }
        case _ =>
          Combine(variable, rule, configured, origin);
      }
    }

    /** Prepends or appends to what the variable had, if the rule inherits it. */
    method Combine(variable: string, rule: Rule, configured: seq<string>, origin: Origin)
      requires values.Keys == traces.Keys
      requires rule.operation.Prepend? || rule.operation.Append?
      modifies this
      ensures values.Keys == traces.Keys
      ensures Get(variable) == Some(Combined(rule, configured, origin, old(Get(variable))))
      ensures forall other | other != variable :: Get(other) == old(Get(other))
    {
      var inherited := Inherited(rule, Get(variable));
      var contributes := inherited.Some? && inherited.value != "";
      var combined := JoinList(configured);
      if inherited.Some? {
        var host := inherited.value;
        combined := if rule.operation.Prepend? then JoinPair(combined, host) else JoinPair(host, combined);
      }
      values := values[variable := combined];
      if contributes {
        var trace := if variable in traces then traces[variable] else [];
        traces := traces[variable := trace + [origin]];
        assert [] + [origin] == [origin];
      } else {
        traces := traces[variable := [origin]];
      }
    }

    /** Applies the rules one after the other, in whatever order they are listed. */
    method ApplyRules(files: BundleFiles, rules: Rules, scope: Scope) returns (o: Outcome<EnvironmentError>)
      requires values.Keys == traces.Keys
      modifies this
      ensures values.Keys == traces.Keys
      ensures o.Pass? <==> RulesOk(files, rules)
      ensures o.Pass? ==>
                forall variable :: Get(variable) == Evaluate(files, rules, scope, variable, old(Get(variable)))
      ensures o.Fail? && ConfigurationOk(rules) ==> FromFiles(o.error)
    {
      var rest := rules.Keys;
      while rest != {}
        invariant rest <= rules.Keys && values.Keys == traces.Keys
        invariant forall variable | variable in rules && variable !in rest :: RuleOk(files, variable, rules[variable])
        invariant forall variable | variable in rules && variable !in rest ::
                    Get(variable) == ApplyRule(scope, rules[variable], Configured(files, rules[variable]).value, old(Get(variable)))
        invariant forall variable | variable !in rules || variable in rest :: Get(variable) == old(Get(variable))
      {
        var variable :| variable in rest;
        var rule := rules[variable];
        ConfiguredErrors(files, rule);
        :- ValidateRule(variable, rule);
        var configured := Configured(files, rule);
        if configured.Failure? {
          return Fail(configured.error);
        }
        ApplyOne(variable, rule, configured.value, scope);
        rest := rest - {variable};
      }
      return Pass;
    }
  }

  /** The rules have the right shape and their paths are lexically safe. */
  predicate ConfigurationOk(rules: Rules) {
    forall variable | variable in rules ::
      ValidateRule(variable, rules[variable]).Pass? && forall path | path in rules[variable].paths :: SafeRelative(path)
  }

  lemma {:induction false} ResolveErrors(files: BundleFiles, paths: seq<string>)
    requires forall path | path in paths :: SafeRelative(path)
    ensures ResolveValues(files, paths).Failure? ==> FromFiles(ResolveValues(files, paths).error)
  {
    if paths != [] {
      ResolveErrors(files, paths[1..]);
    }
  }

  lemma ConfiguredErrors(files: BundleFiles, rule: Rule)
    ensures (forall path | path in rule.paths :: SafeRelative(path)) && Configured(files, rule).Failure? ==>
              FromFiles(Configured(files, rule).error)
  {
    if forall path | path in rule.paths :: SafeRelative(path) {
      ResolveErrors(files, rule.paths);
    }
  }

  /** Evaluates the environment of one tool: the map-wide loops amount to `Final` on each variable. */
  method BuildEnvironment(files: BundleFiles, common: Rules, tool: Rules, host: map<string, string>)
    returns (r: Result<map<string, Setting>, EnvironmentError>)
    ensures r.Success? <==> RulesOk(files, common) && RulesOk(files, tool)
    ensures r.Success? ==>
              forall variable ::
                Final(files, common, tool, host, variable) == if variable in r.value then Some(r.value[variable]) else None
    ensures r.Failure? && ConfigurationOk(common) && ConfigurationOk(tool) ==> FromFiles(r.error)
  {
    var environment := new ProcessEnvironment(host);
    var applied := environment.ApplyRules(files, common, CommonScope);
    if applied.Fail? {
      return Failure(applied.error);
    }
    applied := environment.ApplyRules(files, tool, ToolScope);
    if applied.Fail? {
      return Failure(applied.error);
    }
    return Success(map variable | variable in environment.values :: Setting(environment.values[variable], environment.traces[variable]));
  }

  // ----- The entries of a combined value -----

  /** Prepending puts the rule's entries before the inherited ones, appending puts them after. */
  lemma CombinedEntries(rule: Rule, configured: seq<string>, origin: Origin, old_: Option<Setting>)
    requires Join(configured, ':') != ""
    requires Inherited(rule, old_).Some? && Inherited(rule, old_).value != ""
    ensures var own, inherited := Split(Join(configured, ':'), ':'), Split(Inherited(rule, old_).value, ':');
            var entries := Split(Combined(rule, configured, origin, old_).value, ':');
            entries == if rule.operation.Prepend? then own + inherited else inherited + own
  {
    var own, inherited := Join(configured, ':'), Inherited(rule, old_).value;
    JoinPairEntries(own, inherited);
    JoinPairEntries(inherited, own);
  }

  lemma JoinPairEntries(first: string, second: string)
    requires first != "" && second != ""
    ensures Split(JoinPair(first, second), ':') == Split(first, ':') + Split(second, ':')
  {
    assert [first, second][1..] == [second];
    assert Join([first, second], ':') == first + [':'] + Join([second], ':');
    SplitAppend(first, second, ':');
  }

  // ----- What traces tell -----

  ghost predicate Contains(text: string, part: string) {
    exists before, after :: text == before + part + after
  }

  lemma ContainsJoined(text: string, part: string, other: string)
    requires Contains(text, part)
    ensures Contains(text + other, part) && Contains(other + text, part)
  {
    var before, after :| text == before + part + after;
    ConcatAssociative(before + part, after, other);
    assert text + other == before + part + (after + other);
    ConcatAssociative(other, before + part, after);
    ConcatAssociative(other, before, part);
    assert other + text == (other + before) + part + after;
  }

  /** A trace that names the host belongs to a value that contains the host's. */
  ghost predicate Truthful(setting: Option<Setting>, host: string) {
    setting.Some? && Host in setting.value.trace ==> Contains(setting.value.value, host)
  }

  lemma JoinPairContains(first: string, second: string, part: string)
    ensures Contains(first, part) && first != "" ==> Contains(JoinPair(first, second), part)
    ensures Contains(second, part) && second != "" ==> Contains(JoinPair(first, second), part)
  {
    assert [first, second][1..] == [second];
    assert Join([first, second], ':') == first + ":" + second;
    if Contains(first, part) {
      ConcatAssociative(first, ":", second);
      ContainsJoined(first, part, ":" + second);
    }
    if Contains(second, part) {
      ContainsJoined(second, part, first + ":");
    }
  }

  lemma RuleIsTruthful(scope: Scope, rule: Rule, configured: seq<string>, old_: Option<Setting>, host: string)
    requires Truthful(old_, host)
    ensures Truthful(ApplyRule(scope, rule, configured, old_), host)
  {
    var origin := OriginOf(scope, rule.operation);
    assert Host !in [origin];
    var inherited := Inherited(rule, old_);
    if (rule.operation.Prepend? || rule.operation.Append?) && inherited.Some? {
      JoinPairContains(Join(configured, ':'), inherited.value, host);
      JoinPairContains(inherited.value, Join(configured, ':'), host);
    }
  }

  /**
    Variables the loader reacts to never reach the tool from the host, and any other final
    value whose trace names the host contains the host's value.
   */
  lemma HostInfluence(files: BundleFiles, common: Rules, tool: Rules, host: map<string, string>, variable: string)
    requires RulesOk(files, common) && RulesOk(files, tool)
    ensures LoaderSensitive(variable) || variable !in host ==>
              Final(files, common, tool, host, variable) == Final(files, common, tool, map[], variable)
    ensures variable in host ==> Truthful(Final(files, common, tool, host, variable), host[variable])
  {
    if variable in host {
      var value, initial := host[variable], HostSetting(host, variable);
      assert value == "" + value + "";
      assert Truthful(initial, value);
      if variable in common {
        RuleIsTruthful(CommonScope, common[variable], Configured(files, common[variable]).value, initial, value);
      }
      var between := Evaluate(files, common, CommonScope, variable, initial);
      if variable in tool {
        RuleIsTruthful(ToolScope, tool[variable], Configured(files, tool[variable]).value, between, value);
      }
    }
  }
}
