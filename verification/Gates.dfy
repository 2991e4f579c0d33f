/** Repository configuration and the gates it requires for a set of changed paths. */
module Gates {
  import opened Wrappers
  import opened Text
  import opened Paths
  import opened Patterns
  import opened Graphs
  import opened WorkItems

  const INDEPENDENT_REVIEW := "independent_review"
  const HUMAN_APPROVAL := "human_approval"

  const MIN_INT64 := -0x8000_0000_0000_0000
  const MAX_INT64 := 0x7FFF_FFFF_FFFF_FFFF

  type Int64 = n: int | MIN_INT64 <= n <= MAX_INT64

  datatype Profile = Profile(command: string, timeoutSeconds: Int64)

  datatype Isolation = NoIsolation | Worktree | Container | UnknownIsolation(name: string)

  datatype RiskRule = RiskRule(paths: seq<string>, level: RiskLevel, requiredGates: seq<string>)

  datatype Config = Config(
    version: int, verification: map<string, Profile>, isolation: Isolation, maxParallelCost: int, risk: seq<RiskRule>)

  // ---- Which configurations are valid

  predicate IsReview(gate: string) {
    gate == INDEPENDENT_REVIEW || gate == HUMAN_APPROVAL
  }

  predicate KnownGate(cfg: Config, gate: string) {
    IsReview(TrimSpace(gate)) || TrimSpace(gate) in cfg.verification
  }

  predicate ValidProfile(name: string, p: Profile) {
    !Blank(name) && !Blank(p.command) && p.timeoutSeconds >= 0
  }

  predicate ValidRule(cfg: Config, r: RiskRule) {
    && !r.level.UnknownRisk? && r.paths != []
    && (forall i :: 0 <= i < |r.paths| ==> NormalizePattern(r.paths[i]).Success?)
    && (forall i :: 0 <= i < |r.requiredGates| ==> KnownGate(cfg, r.requiredGates[i]))
  }

  predicate ValidConfig(cfg: Config) {
    && cfg.version == 1 && cfg.verification != map[]
    && (forall name :: name in cfg.verification ==> ValidProfile(name, cfg.verification[name]))
    && !cfg.isolation.UnknownIsolation? && cfg.maxParallelCost > 0
    && (forall i :: 0 <= i < |cfg.risk| ==> ValidRule(cfg, cfg.risk[i]))
  }

  method ValidateRule(cfg: Config, r: RiskRule) returns (ok: bool)
    ensures ok <==> ValidRule(cfg, r)
  {
    hide NormalizePattern, KnownGate;
    if r.level.UnknownRisk? || r.paths == [] {
      return false;
    }
    for i := 0 to |r.paths|
      invariant forall k :: 0 <= k < i ==> NormalizePattern(r.paths[k]).Success?
    {
      var normal := NormalizePattern(r.paths[i]);
      if normal.Failure? {
        return false;
      }
    }
    for i := 0 to |r.requiredGates|
      invariant forall k :: 0 <= k < i ==> KnownGate(cfg, r.requiredGates[k])
    {
      if !KnownGate(cfg, r.requiredGates[i]) {
        return false;
      }
    }
    return true;
  }

  method ValidateConfig(cfg: Config) returns (ok: bool)
    ensures ok <==> ValidConfig(cfg)
  {
    hide ValidRule, Blank;
    if cfg.version != 1 || cfg.verification == map[] {
      return false;
    }
    var names := cfg.verification.Keys;
    while names != {}
      invariant names <= cfg.verification.Keys
      invariant forall name :: name in cfg.verification && name !in names ==> ValidProfile(name, cfg.verification[name])
    {
      var name :| name in names;
      if !ValidProfile(name, cfg.verification[name]) {
        return false;
      }
      names := names - {name};
    }
    if cfg.isolation.UnknownIsolation? || cfg.maxParallelCost <= 0 {
      return false;
    }
    for i := 0 to |cfg.risk|
      invariant forall k :: 0 <= k < i ==> ValidRule(cfg, cfg.risk[k])
    {
      var ok' := ValidateRule(cfg, cfg.risk[i]);
      if !ok' {
        return false;
      }
    }
    return true;
  }

  // ---- Gates required by the rules that match

  /** The components of the pattern reach those of the changed path, both in normal form. */
  predicate Touches(pattern: string, changed: string) {
    && NormalizePattern(pattern).Success? && NormalizeRepositoryPath(changed).Success?
    && Reaches(Split(NormalizePattern(pattern).value), Split(NormalizeRepositoryPath(changed).value))
  }

  predicate RuleMatches(r: RiskRule, changed: seq<string>) {
    exists p, c :: p in r.paths && c in changed && Touches(p, c)
  }

  lemma TouchesExactly(pattern: string, changed: string)
    ensures PathMatches(pattern, changed) <==> Touches(pattern, changed)
  {
    hide PathMatches, NormalizePattern, NormalizeRepositoryPath, Split, Reaches;
    MatchesExactly(pattern, changed);
  }

  method CheckRule(r: RiskRule, changed: seq<string>) returns (matches: bool)
    ensures matches <==> RuleMatches(r, changed)
  {
    hide PathMatches, Touches;
    for i := 0 to |r.paths|
      invariant forall p, c :: p in r.paths[..i] && c in changed ==> !Touches(p, c)
    {
      for j := 0 to |changed|
        invariant forall c :: c in changed[..j] ==> !Touches(r.paths[i], c)
      {
        TouchesExactly(r.paths[i], changed[j]);
        if PathMatches(r.paths[i], changed[j]) {
          return true;
        }
      }
      assert changed[..|changed|] == changed && r.paths[..i + 1] == r.paths[..i] + [r.paths[i]];
    }
    assert r.paths[..|r.paths|] == r.paths;
    return false;
  }

  /** Some matching rule asks for the gate. */
  predicate RuleRequires(cfg: Config, changed: seq<string>, gate: string) {
    exists i :: 0 <= i < |cfg.risk| && RuleMatches(cfg.risk[i], changed) && gate in cfg.risk[i].requiredGates
  }

  method RequiredGatesForPaths(cfg: Config, changed: seq<string>) returns (result: seq<string>)
    ensures NoRepeats(result)
    ensures forall g :: g in result <==> RuleRequires(cfg, changed, g)
  {
    hide RuleMatches;
    var seen: set<string> := {};
    result := [];
    for i := 0 to |cfg.risk|
      invariant NoRepeats(result) && forall g :: g in seen <==> g in result
      invariant forall g :: g in result <==>
                  exists k :: 0 <= k < i && RuleMatches(cfg.risk[k], changed) && g in cfg.risk[k].requiredGates
    {
      var matches := CheckRule(cfg.risk[i], changed);
      if !matches {
        continue;
      }
      ghost var before := result;
      var gates := cfg.risk[i].requiredGates;
      for j := 0 to |gates|
        invariant NoRepeats(result) && forall g :: g in seen <==> g in result
        invariant forall g :: g in result <==> g in before || g in gates[..j]
      {
        if gates[j] !in seen {
          seen := seen + {gates[j]};
          result := result + [gates[j]];
        }
        assert gates[..j + 1] == gates[..j] + [gates[j]];
      }
      assert gates[..|gates|] == gates;
    }
  }

  // ---- What a work item has to pass

  /** Named, trimmed, by the work item or by a matching rule. */
  ghost predicate Required(cfg: Config, workGates: seq<string>, changed: seq<string>, gate: string) {
    gate != "" && exists g :: TrimSpace(g) == gate && (g in workGates || RuleRequires(cfg, changed, g))
  }

  /** More changed paths never drop a required gate. */
  lemma MorePathsMoreGates(cfg: Config, workGates: seq<string>, changed: seq<string>, more: seq<string>, gate: string)
    requires (forall c :: c in changed ==> c in more) && Required(cfg, workGates, changed, gate)
    ensures Required(cfg, workGates, more, gate)
  {
    hide Touches, TrimSpace;
    var g :| TrimSpace(g) == gate && (g in workGates || RuleRequires(cfg, changed, g));
    if RuleRequires(cfg, changed, g) {
      var i :| 0 <= i < |cfg.risk| && RuleMatches(cfg.risk[i], changed) && g in cfg.risk[i].requiredGates;
      var p, c :| p in cfg.risk[i].paths && c in changed && Touches(p, c);
      assert c in more;
      assert RuleMatches(cfg.risk[i], more);
    }
    assert g in workGates || RuleRequires(cfg, more, g);
  }

  class GateList {
    var required: seq<string>
    var seen: set<string>

    ghost predicate Valid()
      reads this
    {
      NoRepeats(required) && (forall g :: g in seen <==> g in required) && "" !in required
    }

    constructor ()
      ensures Valid() && required == []
    {
      required, seen := [], {};
    }

    method AppendUnique(gate: string)
      requires Valid()
      modifies this
      ensures Valid() && old(required) <= required
      ensures forall g :: g in required <==> g in old(required) || (g == TrimSpace(gate) && g != "")
    {
      hide TrimSpace;
      var trimmed := TrimSpace(gate);
      if trimmed == "" || trimmed in seen {
        return;
      }
      seen := seen + {trimmed};
      required := required + [trimmed];
    }
  }

  datatype Resolution = Resolution(executable: seq<string>, pending: seq<string>)

  /** Splits the required gates: those with a profile to run, and the two kinds of review. */
  ghost predicate Resolves(cfg: Config, workGates: seq<string>, changed: seq<string>, r: Resolution) {
    && NoRepeats(r.executable) && NoRepeats(r.pending)
    && (forall g :: g in r.executable <==> Required(cfg, workGates, changed, g) && !IsReview(g))
    && (forall g :: g in r.pending <==> Required(cfg, workGates, changed, g) && IsReview(g))
    && (forall g :: g in r.executable ==> g in cfg.verification)
  }

  ghost predicate AllKnown(cfg: Config, workGates: seq<string>, changed: seq<string>) {
    forall g :: Required(cfg, workGates, changed, g) ==> IsReview(g) || g in cfg.verification
  }

  method CollectRequired(cfg: Config, workGates: seq<string>, changed: seq<string>) returns (required: seq<string>)
    ensures NoRepeats(required) && forall g :: g in required <==> Required(cfg, workGates, changed, g)
  {
    hide TrimSpace, RuleRequires;
    var gates := new GateList();
    for i := 0 to |workGates|
      invariant fresh(gates) && gates.Valid()
      invariant forall g :: g in gates.required <==> g != "" && exists w :: w in workGates[..i] && TrimSpace(w) == g
    {
      gates.AppendUnique(workGates[i]);
      assert workGates[..i + 1] == workGates[..i] + [workGates[i]];
    }
    assert workGates[..|workGates|] == workGates;
    var ofRules := RequiredGatesForPaths(cfg, changed);
    for i := 0 to |ofRules|
      invariant fresh(gates) && gates.Valid()
      invariant forall g :: g in gates.required <==>
                  g != "" && exists w :: (w in workGates || w in ofRules[..i]) && TrimSpace(w) == g
    {
      gates.AppendUnique(ofRules[i]);
      assert ofRules[..i + 1] == ofRules[..i] + [ofRules[i]];
    }
    assert ofRules[..|ofRules|] == ofRules;
    return gates.required;
  }

  method ResolveGates(cfg: Config, workGates: seq<string>, changed: seq<string>) returns (r: Result<Resolution, string>)
    ensures r.Success? <==> AllKnown(cfg, workGates, changed)
    ensures r.Success? ==> Resolves(cfg, workGates, changed, r.value)
    ensures r.Failure? ==> Required(cfg, workGates, changed, r.error) && !IsReview(r.error) && r.error !in cfg.verification
  {
    hide Required;
    var required := CollectRequired(cfg, workGates, changed);
    var executable: seq<string>, pending: seq<string> := [], [];
    for i := 0 to |required|
      invariant NoRepeats(executable) && NoRepeats(pending)
      invariant forall g :: g in executable <==> g in required[..i] && !IsReview(g)
      invariant forall g :: g in pending <==> g in required[..i] && IsReview(g)
      invariant forall g :: g in executable ==> g in cfg.verification
    {
      var gate := required[i];
      assert gate !in required[..i] && required[..i + 1] == required[..i] + [gate];
      if gate == INDEPENDENT_REVIEW || gate == HUMAN_APPROVAL {
        pending := pending + [gate];
      } else {
        if gate !in cfg.verification {
          return Failure(gate);
        }
        executable := executable + [gate];
      }
    }
    assert required[..|required|] == required;
    return Success(Resolution(executable, pending));
  }

  lemma RuleGatesAreKnown(cfg: Config, changed: seq<string>, g: string)
    requires ValidConfig(cfg) && RuleRequires(cfg, changed, g)
    ensures KnownGate(cfg, g)
  {
    hide TrimSpace, RuleMatches, NormalizePattern;
    var i :| 0 <= i < |cfg.risk| && RuleMatches(cfg.risk[i], changed) && g in cfg.risk[i].requiredGates;
    assert ValidRule(cfg, cfg.risk[i]);
    var k :| 0 <= k < |cfg.risk[i].requiredGates| && cfg.risk[i].requiredGates[k] == g;
    assert KnownGate(cfg, cfg.risk[i].requiredGates[k]);
  }

  /** With a valid configuration only the work item itself can name an unknown gate. */
  lemma UnknownGateIsTheItems(cfg: Config, workGates: seq<string>, changed: seq<string>, gate: string)
    requires ValidConfig(cfg) && Required(cfg, workGates, changed, gate) && !IsReview(gate) && gate !in cfg.verification
    ensures exists g :: g in workGates && TrimSpace(g) == gate
  {
    hide TrimSpace, RuleRequires, ValidConfig;
    var g :| TrimSpace(g) == gate && (g in workGates || RuleRequires(cfg, changed, g));
    if g !in workGates {
      RuleGatesAreKnown(cfg, changed, g);
    }
  }
}
