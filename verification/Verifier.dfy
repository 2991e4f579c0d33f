/** Running the required gates against a workspace that commands may change. */
module Verifier {
  import opened Wrappers
  import opened Text
  import opened Graphs
  import opened WorkItems
  import opened Gates

  datatype Command = ReadHead | ReadStatus | RunGate(command: string, timeout: int)

  /** What came back for a command: an error, nothing, or an exit code with output. */
  datatype Reply = NoAnswer(failed: bool) | Answer(failed: bool, exitCode: int, stdout: string)

  datatype GateStatus = GatePassed | GateFailed | GatePending | GateSkipped

  datatype GateEvidence = GateEvidence(name: string, status: GateStatus, command: string)

  datatype EvidenceBundle = EvidenceBundle(workItemID: string, baseSHA: string, headSHA: string, gates: seq<GateEvidence>)

  predicate ValidHead(e: EvidenceBundle, candidate: string) {
    && !Blank(candidate) && !Blank(e.baseSHA) && !Blank(e.headSHA) && e.headSHA == TrimSpace(candidate)
    && e.gates != []
    && forall i :: 0 <= i < |e.gates| ==> !Blank(e.gates[i].name) && e.gates[i].status == GatePassed
  }

  method ValidateHead(e: EvidenceBundle, candidate: string) returns (ok: bool)
    ensures ok <==> ValidHead(e, candidate)
  {
    hide TrimSpace;
    var head := TrimSpace(candidate);
    if head == "" || Blank(e.baseSHA) || Blank(e.headSHA) || e.headSHA != head || e.gates == [] {
      return false;
    }
    for i := 0 to |e.gates|
      invariant forall k :: 0 <= k < i ==> !Blank(e.gates[k].name) && e.gates[k].status == GatePassed
    {
      if Blank(e.gates[i].name) || e.gates[i].status != GatePassed {
        return false;
      }
    }
    return true;
  }

  /** Evidence is accepted for one head at most, however it is spelled. */
  lemma EvidenceIsForOneHead(e: EvidenceBundle, a: string, b: string)
    requires ValidHead(e, a) && ValidHead(e, b)
    ensures TrimSpace(a) == TrimSpace(b) == TrimSpace(e.headSHA)
  {
    TrimSpaceIdempotent(a);
    hide TrimSpace;
  }

  // ---- The workspace and the store, as far as they can be seen

  predicate Succeeded(r: Reply) {
    !r.failed && r.Answer? && r.exitCode == 0
  }

  predicate HeadIs(r: Reply, head: string) {
    Succeeded(r) && TrimSpace(r.stdout) == head
  }

  predicate NothingUncommitted(r: Reply) {
    Succeeded(r) && Blank(r.stdout)
  }

  /** A workspace answers each command depending on everything it was asked to do so far. */
  class Workspace {
    const reply: seq<Command> -> Reply
    var issued: seq<Command>

    constructor (reply: seq<Command> -> Reply)
      ensures this.reply == reply && issued == []
    {
      this.reply := reply;
      issued := [];
    }

    method Execute(c: Command) returns (r: Reply)
      modifies this
      ensures issued == old(issued) + [c] && r == reply(issued)
    {
      issued := issued + [c];
      r := reply(issued);
    }
  }

  /** What a store holds after a number of writes. */
  datatype Records = Records(writes: nat, bundles: seq<EvidenceBundle>, items: seq<WorkItem>)

  function WithBundle(s: Records, o: WriteOutcome, e: EvidenceBundle): Records {
    Records(s.writes + 1, if o == Refused then s.bundles else s.bundles + [e], s.items)
  }

  function WithItem(s: Records, o: WriteOutcome, w: WorkItem): Records {
    Records(s.writes + 1, s.bundles, if o == Refused then s.items else s.items + [w])
  }

  class EvidenceStore {
    const outcome: nat -> WriteOutcome
    var writes: nat
    var bundles: seq<EvidenceBundle>
    var items: seq<WorkItem>

    ghost function Value(): Records
      reads this
    {
      Records(writes, bundles, items)
    }

    constructor (outcome: nat -> WriteOutcome)
      ensures this.outcome == outcome && Value() == Records(0, [], [])
    {
      this.outcome := outcome;
      writes, bundles, items := 0, [], [];
    }

    method PutEvidenceBundle(e: EvidenceBundle) returns (ok: bool)
      modifies this
      ensures ok <==> outcome(old(writes)) == Stored
      ensures Value() == WithBundle(old(Value()), outcome(old(writes)), e)
    {
      var o := outcome(writes);
      writes := writes + 1;
      if o != Refused {
        bundles := bundles + [e];
      }
      return o == Stored;
    }

    method PutWorkItem(w: WorkItem) returns (ok: bool)
      modifies this
      ensures ok <==> outcome(old(writes)) == Stored
      ensures Value() == WithItem(old(Value()), outcome(old(writes)), w)
    {
      var o := outcome(writes);
      writes := writes + 1;
      if o != Refused {
        items := items + [w];
      }
      return o == Stored;
    }
  }

  // ---- What has to be observed, command by command

  /** A time.Duration, in nanoseconds. */
  type Duration = d: int | MIN_INT64 <= d <= MAX_INT64

  const SECOND := 1_000_000_000
  const DEFAULT_TIMEOUT: Duration := 300 * SECOND
  const MAX_TIMEOUT: Duration := 1800 * SECOND

  /** The value of x in 64 bits, two's complement. */
  function Wrap64(x: int): Duration {
    var low := x % 0x1_0000_0000_0000_0000;
    if low > MAX_INT64 then low - 0x1_0000_0000_0000_0000 else low
  }

  function ProfileTimeout(seconds: Int64): Duration {
    if seconds <= 0 then DEFAULT_TIMEOUT
    else
      var timeout := Wrap64(seconds * SECOND);
      if timeout > MAX_TIMEOUT then MAX_TIMEOUT else timeout
  }

  /** The timeout is positive and at most thirty minutes exactly when the product in nanoseconds, in 64 bits, is positive. */
  lemma TimeoutBoundedExactly(seconds: Int64)
    ensures 0 < ProfileTimeout(seconds) <= MAX_TIMEOUT
            <==> seconds <= 0 || 0 < seconds * SECOND % 0x1_0000_0000_0000_0000 <= MAX_INT64
  {
  }

  /** Below the first overflow the timeout is what the profile says, up to thirty minutes. */
  lemma TimeoutBeforeOverflow(seconds: Int64)
    requires seconds <= MAX_INT64 / SECOND
    ensures ProfileTimeout(seconds)
            == if seconds <= 0 then DEFAULT_TIMEOUT else if seconds <= 1800 then seconds * SECOND else MAX_TIMEOUT
  {
  }

  /** One second more than fits yields a negative timeout, and some larger values yield none at all. */
  lemma TimeoutOverflows()
    ensures MAX_INT64 / SECOND == 9_223_372_036
    ensures ProfileTimeout(9_223_372_037) < 0 && ProfileTimeout(0x80_0000_0000_0000) == 0
  {
  }

  /** A run to be made: gates with profiles, on a workspace with a history, at a candidate head. */
  datatype Plan = Plan(reply: seq<Command> -> Reply, before: seq<Command>, cfg: Config, gates: seq<string>, head: string) {
    predicate Runnable() {
      forall g :: g in gates ==> g in cfg.verification
    }

    function GateCommand(k: nat): (c: Command)
      requires Runnable() && k < |gates|
      ensures c == RunGate(cfg.verification[gates[k]].command, ProfileTimeout(cfg.verification[gates[k]].timeoutSeconds))
    {
      var profile := cfg.verification[gates[k]];
      RunGate(profile.command, ProfileTimeout(profile.timeoutSeconds))
    }

    /** The history once the first n gates have been run and checked. */
    function After(n: nat): seq<Command>
      requires Runnable() && n <= |gates|
    {
      if n == 0 then before + [ReadHead, ReadStatus]
      else After(n - 1) + [GateCommand(n - 1)] + [ReadHead, ReadStatus]
    }

    /** After history h, the head is the candidate and then the tree is clean. */
    predicate AtCleanHead(h: seq<Command>) {
      HeadIs(reply(h + [ReadHead]), head) && NothingUncommitted(reply(h + [ReadHead] + [ReadStatus]))
    }

    predicate ExitedZero(k: nat)
      requires Runnable() && k < |gates|
    {
      Succeeded(reply(After(k) + [GateCommand(k)]))
    }

    predicate LeftCleanHead(k: nat)
      requires Runnable() && k < |gates|
    {
      AtCleanHead(After(k) + [GateCommand(k)])
    }

    /** The first n gates all exited 0, each with the candidate head and a clean tree right after it. */
    predicate VerifiedUpTo(n: nat)
      requires Runnable() && n <= |gates|
    {
      AtCleanHead(before) && forall k :: 0 <= k < n ==> ExitedZero(k) && LeftCleanHead(k)
    }

    /** Gate k was the first to fail, and it failed at the candidate head on a clean tree. */
    predicate FailsAt(k: nat)
      requires Runnable()
    {
      k < |gates| && VerifiedUpTo(k) && !ExitedZero(k) && LeftCleanHead(k)
    }

    function PassedEvidence(n: nat): (r: seq<GateEvidence>)
      requires Runnable() && n <= |gates|
      ensures |r| == n && forall k :: 0 <= k < n ==> r[k].name == gates[k] && r[k].status == GatePassed
      ensures forall k :: 0 <= k < n ==> GateCommand(k).RunGate? && r[k].command == GateCommand(k).command
    {
      seq(n, k requires 0 <= k < n => GateEvidence(gates[k], GatePassed, cfg.verification[gates[k]].command))
    }

    function FailedEvidence(k: nat): (r: GateEvidence)
      requires Runnable() && k < |gates|
      ensures r.name == gates[k] && r.status == GateFailed
      ensures GateCommand(k).RunGate? && r.command == GateCommand(k).command
    {
      GateEvidence(gates[k], GateFailed, cfg.verification[gates[k]].command)
    }

    /** The first gate that does not exit 0 at a clean candidate head settles how the run ends. */
    lemma FirstBadGateDecides(n: nat)
      requires Runnable() && n < |gates| && VerifiedUpTo(n) && !(ExitedZero(n) && LeftCleanHead(n))
      ensures !VerifiedUpTo(|gates|)
      ensures forall k: nat :: FailsAt(k) <==> k == n && LeftCleanHead(n)
    {
      hide After, AtCleanHead, ExitedZero, LeftCleanHead;
      forall k: nat
        ensures FailsAt(k) <==> k == n && LeftCleanHead(n)
      {
        if k < n {
          assert ExitedZero(k);
        } else if k > n && k < |gates| {
          assert !VerifiedUpTo(k);
        }
      }
    }

    lemma NoGateFails()
      requires Runnable() && VerifiedUpTo(|gates|)
      ensures forall k: nat :: !FailsAt(k)
    {
      hide After, AtCleanHead, ExitedZero, LeftCleanHead;
    }
  }

  datatype Request = Request(sessionID: string, item: WorkItem, candidateHead: string, changedPaths: seq<string>)

  datatype VerifyResult = VerifyResult(evidence: EvidenceBundle, pendingGates: seq<string>, nextState: Option<WorkState>)

  datatype VerifyError =
    | NoSession | NoCandidate | InvalidItem | NoConfig | UnknownGate(gate: string)
    | HeadOrTreeWrong | PersistFailedEvidence | PersistEvidence | PersistState

  datatype Verdict = Done(result: VerifyResult) | FailedGate(result: VerifyResult, gate: string) | Stopped(error: VerifyError)

  /** What is checked before the workspace is looked at; config is None when it cannot be read or decoded. */
  ghost predicate Admissible(req: Request, config: Option<Config>) {
    && !Blank(req.sessionID) && !Blank(req.candidateHead) && WellFormed(req.item)
    && config.Some? && ValidConfig(config.value) && AllKnown(config.value, req.item.requiredGates, req.changedPaths)
  }

  datatype GateRun = AllPassed | FailedAt(k: nat) | Disturbed

  function FinishedItem(w: WorkItem, next: WorkState): WorkItem {
    w.(state := next, claimedBy := "", leaseUntil := None)
  }

  function NextState(pending: seq<string>): WorkState {
    if pending == [] then ReadyToLand else Reviewing
  }

  /** Evidence that names the item, its base and the candidate head, and is accepted whenever all its gates passed. */
  function BundleFor(req: Request, gates: seq<GateEvidence>): (e: EvidenceBundle)
    ensures e.workItemID == req.item.id && e.baseSHA == req.item.baseSHA && e.gates == gates
    ensures e.headSHA == TrimSpace(req.candidateHead)
  {
    EvidenceBundle(req.item.id, req.item.baseSHA, TrimSpace(req.candidateHead), gates)
  }

  /** The evidence of a verified run is accepted for its head, and that of a failed gate for none. */
  lemma EvidenceHeads(req: Request, p: Plan, pending: seq<string>, k: nat)
    requires Admissible(req, Some(p.cfg)) && p.Runnable()
    requires Resolves(p.cfg, req.item.requiredGates, req.changedPaths, Resolution(p.gates, pending))
    ensures p.gates != [] ==> ValidHead(BundleFor(req, p.PassedEvidence(|p.gates|)), req.candidateHead)
    ensures k < |p.gates| ==>
              forall head :: !ValidHead(BundleFor(req, p.PassedEvidence(k) + [p.FailedEvidence(k)]), head)
  {
    hide ValidConfig, AllKnown, TrimSpace;
    TrimSpaceIdempotent(req.candidateHead);
    forall i | 0 <= i < |p.gates|
      ensures !Blank(p.gates[i])
    {
      assert p.gates[i] in p.gates;
      var g :| TrimSpace(g) == p.gates[i];
      TrimSpaceIdempotent(g);
    }
    if k < |p.gates| {
      var gates := p.PassedEvidence(k) + [p.FailedEvidence(k)];
      assert gates[k].status == GateFailed;
    }
  }

  /** A command was answered, without error and with exit code 0. */
  predicate AnsweredZero(r: Reply) {
    r.Answer? && !r.failed && r.exitCode == 0
  }

  /** Gate k's command, with its profile's timeout, exited 0; asked right after it, the head was the candidate and then
      nothing was uncommitted. */
  predicate Settled(p: Plan, k: nat)
    requires p.Runnable() && k < |p.gates|
  {
    var profile := p.cfg.verification[p.gates[k]];
    var ran := p.After(k) + [RunGate(profile.command, ProfileTimeout(profile.timeoutSeconds))];
    var head, status := p.reply(ran + [ReadHead]), p.reply(ran + [ReadHead] + [ReadStatus]);
    && AnsweredZero(p.reply(ran))
    && AnsweredZero(head) && TrimSpace(head.stdout) == p.head
    && AnsweredZero(status) && Blank(status.stdout)
  }

  /** After a verified run every required gate is settled: it awaits review, or it exited 0 at a clean candidate head. */
  lemma RequiredGatesAreSettled(req: Request, p: Plan, pending: seq<string>, gate: string)
    requires p.Runnable() && p.VerifiedUpTo(|p.gates|)
    requires Resolves(p.cfg, req.item.requiredGates, req.changedPaths, Resolution(p.gates, pending))
    requires Required(p.cfg, req.item.requiredGates, req.changedPaths, gate)
    ensures gate in {INDEPENDENT_REVIEW, HUMAN_APPROVAL} ==> gate in pending && NextState(pending) == Reviewing
    ensures gate !in {INDEPENDENT_REVIEW, HUMAN_APPROVAL} ==>
              exists k :: 0 <= k < |p.gates| && p.gates[k] == gate && Settled(p, k)
  {
    hide TrimSpace;
    if !IsReview(gate) {
      var k :| 0 <= k < |p.gates| && p.gates[k] == gate;
      assert p.ExitedZero(k) && p.LeftCleanHead(k);
      assert Settled(p, k);
    }
  }

  ghost predicate AcceptedNowhere(e: EvidenceBundle) {
    forall head :: !ValidHead(e, head)
  }

  /** After a verified run the passed evidence is written, unless there is none, and once that is stored the released
      item; the evidence is valid for the candidate head. */
  predicate VerifiedEnds(req: Request, p: Plan, pending: seq<string>, o: nat -> WriteOutcome, s: Records, r: Verdict, s': Records)
    requires p.Runnable()
  {
    var bundle := BundleFor(req, p.PassedEvidence(|p.gates|));
    var held := if p.gates == [] then s else WithBundle(s, o(s.writes), bundle);
    var next := NextState(pending);
    && (p.gates != [] ==> ValidHead(bundle, req.candidateHead))
    && if p.gates != [] && o(s.writes) != Stored then r == Stopped(PersistEvidence) && s' == held
       else
         && s' == WithItem(held, o(held.writes), FinishedItem(req.item, next))
         && r == if o(held.writes) == Stored then Done(VerifyResult(bundle, pending, Some(next))) else Stopped(PersistState)
  }

  /** After a failed gate its evidence is written, which no head accepts, and no item. */
  ghost predicate FailedEnds(req: Request, p: Plan, pending: seq<string>, k: nat, o: nat -> WriteOutcome,
                             s: Records, r: Verdict, s': Records)
    requires p.Runnable() && k < |p.gates|
  {
    var bundle := BundleFor(req, p.PassedEvidence(k) + [p.FailedEvidence(k)]);
    && AcceptedNowhere(bundle)
    && s' == WithBundle(s, o(s.writes), bundle)
    && r == if o(s.writes) == Stored then FailedGate(VerifyResult(bundle, pending, None), p.gates[k])
            else Stopped(PersistFailedEvidence)
  }

  /** What is reported and written follows from what was observed; a disturbed run writes nothing. */
  ghost predicate RunEnds(req: Request, p: Plan, pending: seq<string>, o: nat -> WriteOutcome, s: Records, r: Verdict, s': Records)
    requires p.Runnable()
  {
    && (p.VerifiedUpTo(|p.gates|) ==> VerifiedEnds(req, p, pending, o, s, r, s'))
    && (forall k: nat :: p.FailsAt(k) ==> FailedEnds(req, p, pending, k, o, s, r, s'))
    && (!p.VerifiedUpTo(|p.gates|) && (forall k: nat :: !p.FailsAt(k)) ==> r == Stopped(HeadOrTreeWrong) && s' == s)
  }

  /** Success is claimed exactly for verified runs whose writes were stored, and a gate failure likewise. */
  lemma VerdictIsExact(req: Request, p: Plan, pending: seq<string>, o: nat -> WriteOutcome, s: Records, r: Verdict, s': Records)
    requires p.Runnable() && RunEnds(req, p, pending, o, s, r, s')
    ensures r.Done? <==> p.VerifiedUpTo(|p.gates|) && forall n :: s.writes <= n < s'.writes ==> o(n) == Stored
    ensures r.FailedGate? <==> (exists k: nat :: p.FailsAt(k)) && o(s.writes) == Stored
    ensures s.items <= s'.items <= s.items + [FinishedItem(req.item, NextState(pending))]
    ensures s'.items != s.items ==> p.VerifiedUpTo(|p.gates|)
  {
    hide ValidHead, Plan.VerifiedUpTo, Plan.FailsAt;
  }

  /** A successful verification moves the item on to review exactly when a required gate is a review, and otherwise to
      landing, and writes it so, released. */
  lemma ReviewsDecideTheNextState(req: Request, p: Plan, pending: seq<string>, o: nat -> WriteOutcome,
                                  s: Records, r: Verdict, s': Records)
    requires p.Runnable() && RunEnds(req, p, pending, o, s, r, s') && r.Done?
    requires Resolves(p.cfg, req.item.requiredGates, req.changedPaths, Resolution(p.gates, pending))
    ensures r.result.nextState == Some(ReadyToLand) <==>
              forall g :: Required(p.cfg, req.item.requiredGates, req.changedPaths, g) ==> g !in {INDEPENDENT_REVIEW, HUMAN_APPROVAL}
    ensures r.result.nextState != Some(ReadyToLand) ==> r.result.nextState == Some(Reviewing)
    ensures s'.items == s.items + [req.item.(state := r.result.nextState.value, claimedBy := "", leaseUntil := None)]
  {
    hide ValidHead, Required;
    VerdictIsExact(req, p, pending, o, s, r, s');
    hide Plan.VerifiedUpTo, Plan.FailsAt;
    if pending != [] {
      assert pending[0] in pending;
    }
  }

  lemma ResolvedIsRunnable(cfg: Config, workGates: seq<string>, changed: seq<string>, r: Resolution)
    requires Resolves(cfg, workGates, changed, r)
    ensures forall g :: g in r.executable ==> g in cfg.verification
  {
  }

  class Verifier {
    const workspace: Workspace
    const store: EvidenceStore

    constructor (workspace: Workspace, store: EvidenceStore)
      ensures this.workspace == workspace && this.store == store
    {
      this.workspace, this.store := workspace, store;
    }

    /** The two git queries, in order; the second is asked only if the first is as wanted. */
    method AssertCleanHead(head: string, ghost p: Plan) returns (ok: bool)
      requires p.reply == workspace.reply && p.head == head
      modifies workspace
      ensures ok <==> p.AtCleanHead(old(workspace.issued))
      ensures ok ==> workspace.issued == old(workspace.issued) + [ReadHead, ReadStatus]
    {
      hide TrimSpace;
      var answer := workspace.Execute(ReadHead);
      if answer.failed || answer.NoAnswer? || answer.exitCode != 0 || TrimSpace(answer.stdout) != head {
        return false;
      }
      answer := workspace.Execute(ReadStatus);
      assert old(workspace.issued) + [ReadHead] + [ReadStatus] == old(workspace.issued) + [ReadHead, ReadStatus];
      ok := !(answer.failed || answer.NoAnswer? || answer.exitCode != 0 || TrimSpace(answer.stdout) != "");
    }

    /** Runs gate k and looks at head and tree right after it. */
    method RunGate(p: Plan, k: nat) returns (exited: bool, clean: bool)
      requires p.Runnable() && k < |p.gates| && p.reply == workspace.reply && workspace.issued == p.After(k)
      modifies workspace
      ensures exited <==> p.ExitedZero(k)
      ensures clean <==> p.LeftCleanHead(k)
      ensures clean ==> workspace.issued == p.After(k + 1)
    {
      var answer := workspace.Execute(p.GateCommand(k));
      clean := AssertCleanHead(p.head, p);
      exited := !(answer.failed || answer.NoAnswer? || answer.exitCode != 0);
    }

    /** Runs the gates in turn until one fails or disturbs the workspace. */
    method RunGates(p: Plan) returns (r: GateRun, evidence: seq<GateEvidence>)
      requires p.Runnable() && p.reply == workspace.reply
      requires workspace.issued == p.After(0) && p.AtCleanHead(p.before)
      modifies workspace
      ensures r.AllPassed? <==> p.VerifiedUpTo(|p.gates|)
      ensures r.AllPassed? ==> evidence == p.PassedEvidence(|p.gates|) && workspace.issued == p.After(|p.gates|)
      ensures forall k: nat :: r == FailedAt(k) <==> p.FailsAt(k)
      ensures r.FailedAt? ==> r.k < |p.gates| && evidence == p.PassedEvidence(r.k) + [p.FailedEvidence(r.k)]
    {
      hide Plan.After, Plan.AtCleanHead, Plan.ExitedZero, Plan.LeftCleanHead;
      evidence := [];
      for k := 0 to |p.gates|
        invariant workspace.issued == p.After(k)
        invariant p.VerifiedUpTo(k)
        invariant evidence == p.PassedEvidence(k)
      {
        var gate := p.gates[k];
        var profile := p.cfg.verification[gate];
        var exited, clean := RunGate(p, k);
        if !clean {
          p.FirstBadGateDecides(k);
          return Disturbed, evidence;
        }
        if !exited {
          p.FirstBadGateDecides(k);
          return FailedAt(k), evidence + [GateEvidence(gate, GateFailed, profile.command)];
        }
        evidence := evidence + [GateEvidence(gate, GatePassed, profile.command)];
      }
      p.NoGateFails();
      return AllPassed, evidence;
    }

    /** Writes the passed evidence, if there is any, and then the released item. */
    method RecordVerified(req: Request, p: Plan, pending: seq<string>, evidence: seq<GateEvidence>) returns (r: Verdict)
      requires p.Runnable() && evidence == p.PassedEvidence(|p.gates|)
      requires p.gates != [] ==> ValidHead(BundleFor(req, evidence), req.candidateHead)
      modifies store
      ensures VerifiedEnds(req, p, pending, store.outcome, old(store.Value()), r, store.Value())
    {
      hide ValidHead, TrimSpace;
      var bundle := BundleFor(req, evidence);
      if evidence != [] {
        var ok := store.PutEvidenceBundle(bundle);
        if !ok {
          return Stopped(PersistEvidence);
        }
      }
      var next := if pending != [] then Reviewing else ReadyToLand;
      var ok := store.PutWorkItem(FinishedItem(req.item, next));
      if !ok {
        return Stopped(PersistState);
      }
      return Done(VerifyResult(bundle, pending, Some(next)));
    }

    /** Writes the evidence that ends with the failure of gate k. */
    method RecordFailure(req: Request, p: Plan, pending: seq<string>, k: nat, evidence: seq<GateEvidence>) returns (r: Verdict)
      requires p.Runnable() && k < |p.gates| && evidence == p.PassedEvidence(k) + [p.FailedEvidence(k)]
      requires AcceptedNowhere(BundleFor(req, evidence))
      modifies store
      ensures FailedEnds(req, p, pending, k, store.outcome, old(store.Value()), r, store.Value())
    {
      hide AcceptedNowhere, TrimSpace;
      var bundle := BundleFor(req, evidence);
      var ok := store.PutEvidenceBundle(bundle);
      if !ok {
        return Stopped(PersistFailedEvidence);
      }
      return FailedGate(VerifyResult(bundle, pending, None), p.gates[k]);
    }

    /** Checks the workspace, runs the gates and writes what they showed. */
    method RunPlan(req: Request, p: Plan, pending: seq<string>) returns (r: Verdict)
      requires Admissible(req, Some(p.cfg)) && p.Runnable()
      requires Resolves(p.cfg, req.item.requiredGates, req.changedPaths, Resolution(p.gates, pending))
      requires p.reply == workspace.reply && p.before == workspace.issued && p.head == TrimSpace(req.candidateHead)
      modifies workspace, store
      ensures RunEnds(req, p, pending, store.outcome, old(store.Value()), r, store.Value())
    {
      hide Admissible, Resolves, TrimSpace, ValidHead, VerifiedEnds, FailedEnds;
      var ok := AssertCleanHead(p.head, p);
      if !ok {
        return Stopped(HeadOrTreeWrong);
      }
      assert workspace.issued == p.After(0);
      var run, evidence := RunGates(p);
      hide Plan.After, Plan.AtCleanHead, Plan.ExitedZero, Plan.LeftCleanHead;
      match run
      case Disturbed =>
        return Stopped(HeadOrTreeWrong);
      case FailedAt(k) =>
        EvidenceHeads(req, p, pending, k);
        r := RecordFailure(req, p, pending, k, evidence);
        p.FirstBadGateDecides(k);
      case AllPassed =>
        EvidenceHeads(req, p, pending, 0);
        r := RecordVerified(req, p, pending, evidence);
        p.NoGateFails();
    }

    /** p and pending are what an admissible request resolves to; an inadmissible one touches nothing. */
    method Verify(req: Request, config: Option<Config>) returns (r: Verdict, ghost p: Plan, ghost pending: seq<string>)
      modifies workspace, store
      ensures Admissible(req, config) ==>
                && p.reply == workspace.reply && p.before == old(workspace.issued) && config == Some(p.cfg)
                && p.head == TrimSpace(req.candidateHead) && p.Runnable()
                && Resolves(p.cfg, req.item.requiredGates, req.changedPaths, Resolution(p.gates, pending))
                && RunEnds(req, p, pending, store.outcome, old(store.Value()), r, store.Value())
      ensures !r.Stopped? ==>
                && !Blank(req.sessionID) && !Blank(req.candidateHead) && WellFormed(req.item)
                && config.Some? && ValidConfig(config.value)
      ensures !Admissible(req, config) ==>
                r.Stopped? && workspace.issued == old(workspace.issued) && store.Value() == old(store.Value())
    {
      hide Blank, WellFormed, ValidConfig, AllKnown, Resolves, ValidHead, TrimSpace, RunEnds;
      p, pending := Plan(workspace.reply, [], Config(1, map[], NoIsolation, 1, []), [], ""), [];
      if Blank(req.sessionID) {
        return Stopped(NoSession), p, pending;
      }
      var head := TrimSpace(req.candidateHead);
      if Blank(req.candidateHead) {
        return Stopped(NoCandidate), p, pending;
      }
      var ok := Validate(req.item);
      if !ok {
        return Stopped(InvalidItem), p, pending;
      }
      if config.None? {
        return Stopped(NoConfig), p, pending;
      }
      var cfg := config.value;
      ok := ValidateConfig(cfg);
      if !ok {
        return Stopped(NoConfig), p, pending;
      }
      var resolution := ResolveGates(cfg, req.item.requiredGates, req.changedPaths);
      if resolution.Failure? {
        return Stopped(UnknownGate(resolution.error)), p, pending;
      }
      var plan := Plan(workspace.reply, workspace.issued, cfg, resolution.value.executable, head);
      assert plan.Runnable() by {
        ResolvedIsRunnable(cfg, req.item.requiredGates, req.changedPaths, resolution.value);
      }
      p, pending := plan, resolution.value.pending;
      r := RunPlan(req, plan, resolution.value.pending);
    }
  }
}
