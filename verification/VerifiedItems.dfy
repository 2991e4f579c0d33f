/** What a verification run writes, seen from the loop of scheduling and claiming. */
module VerifiedItems {
  import opened Wrappers
  import opened Text
  import opened WorkItems
  import opened WorkScheduler
  import opened WorkProtocol
  import Ownership
  import Paths
  import Graphs
  import Scheduler
  import Verifier

  /** The items once a verified run has written item i. */
  function AfterVerify(s: System, i: nat, pending: seq<string>): System
    requires i < |s.items|
  {
    s.(items := s.items[i := Verifier.FinishedItem(s.items[i], Verifier.NextState(pending))])
  }

  /** The written item is active, whatever it was before. */
  lemma WrittenIsActive(s: System, i: nat, pending: seq<string>)
    requires i < |s.items|
    ensures SameWork(s.items[i], AfterVerify(s, i, pending).items[i]) && ActiveAt(AfterVerify(s, i, pending).items[i], s.now)
  {
  }

  /** The write is a move of the loop exactly when the item is active at that instant. */
  lemma WriteIsMoveExactly(s: System, maxCost: int, i: nat, pending: seq<string>)
    requires i < |s.items|
    ensures Step(s, maxCost, Move(i, AfterVerify(s, i, pending).items[i]), AfterVerify(s, i, pending)) <==> ActiveAt(s.items[i], s.now)
  {
    hide ActiveAt, ClaimsOfDecision;
    WrittenIsActive(s, i, pending);
  }

  /** Changing one item changes the active cost by what that item contributes. */
  lemma {:induction false} CostOfChange(items: seq<WorkItem>, i: nat, w: WorkItem, now: Time)
    requires i < |items| && w.cost == items[i].cost
    ensures ActiveCost(items[i := w], now) == ActiveCost(items, now)
              + (if ActiveAt(w, now) then w.cost else 0) - (if ActiveAt(items[i], now) then w.cost else 0)
  {
    hide ActiveAt;
    var n := |items| - 1;
    if i == n {
      assert items[i := w][..n] == items[..n];
    } else {
      CostOfChange(items[..n], i, w, now);
      assert items[i := w][..n] == items[..n][i := w];
    }
  }

  predicate ClashesWithActive(s: System, i: nat)
    requires i < |s.items|
  {
    exists j :: 0 <= j < |s.items| && j != i && ActiveAt(s.items[j], s.now)
      && !(NoClash(s.items[i], s.items[j]) && NoClash(s.items[j], s.items[i]))
  }

  /** Some active item, the written one included, then waits for something that is not landed. */
  predicate LosesDependency(s': System) {
    exists j :: 0 <= j < |s'.items| && ActiveAt(s'.items[j], s'.now) && !DependenciesLanded(s'.items, s'.items[j])
  }

  /** The write keeps the loop's invariant exactly when the item was active, or fits the budget, clashes with no active
      item, and leaves every active item's dependencies landed. */
  lemma WriteKeepsInvariantExactly(s: System, maxCost: int, i: nat, pending: seq<string>)
    requires Invariant(s, maxCost) && i < |s.items|
    ensures Invariant(AfterVerify(s, i, pending), maxCost) <==>
              || ActiveAt(s.items[i], s.now)
              || (&& ActiveCost(s.items, s.now) + s.items[i].cost <= maxCost
                  && !ClashesWithActive(s, i) && !LosesDependency(AfterVerify(s, i, pending)))
  {
    var s' := AfterVerify(s, i, pending);
    WrittenIsActive(s, i, pending);
    if ActiveAt(s.items[i], s.now) {
      WriteIsMoveExactly(s, maxCost, i, pending);
      StepKeepsInvariant(s, maxCost, Move(i, s'.items[i]), s');
    } else {
      CostOfChange(s.items, i, s'.items[i], s.now);
      SeparateExactly(s, i, pending);
      hide ActiveAt, AfterVerify, ActiveSeparate, ClashesWithActive, DependenciesLanded, ActiveCost;
    }
  }

  lemma SeparateExactly(s: System, i: nat, pending: seq<string>)
    requires ActiveSeparate(s) && i < |s.items|
    ensures ActiveSeparate(AfterVerify(s, i, pending)) <==> !ClashesWithActive(s, i)
  {
    var s' := AfterVerify(s, i, pending);
    WrittenIsActive(s, i, pending);
    hide ActiveAt, Ownership.Conflict;
    assert forall j :: 0 <= j < |s.items| && j != i ==> s'.items[j] == s.items[j];
    assert s'.items[i].ownershipPaths == s.items[i].ownershipPaths;
  }

  // ---- A run in which the budget is broken

  function Plain(id: string, path: string, state: WorkState): WorkItem {
    WorkItem(id, "repo", "work", [], [path], Low, 1, [], "base", "", None, state)
  }

  const QUIET := System([Plain("a", "x", Ready), Plain("b", "y", Landed)], 1)
  const CLAIM := ClaimBatch([ClaimRequest(0, "worker", 10)])

  function AfterClaim(): System {
    System([WithLease(QUIET.items[0], "worker", 11), QUIET.items[1]], 1)
  }

  lemma PlainIsWellFormed(id: string, path: string, state: WorkState)
    requires id in {"a", "b"} && path in {"x", "y"} && state in {Ready, Landed}
    ensures WellFormed(Plain(id, path, state)) && TrimSpace(id) == id && Ownership.Normalizes(path)
  {
    hide Blank, TrimSpace, Paths.NormalizePattern, Ownership.Normalizes;
    NamesNotBlank();
    Ownership.LetterOwns(path);
  }

  lemma NamesNotBlank()
    ensures !Blank("a") && !Blank("b") && !Blank("repo") && !Blank("work") && !Blank("base") && !Blank("worker")
    ensures TrimSpace("a") == "a" && TrimSpace("b") == "b" && TrimSpace("worker") == "worker"
  {
    TrimSpaceKeeps("a");
    TrimSpaceKeeps("b");
    TrimSpaceKeeps("repo");
    TrimSpaceKeeps("work");
    TrimSpaceKeeps("base");
    TrimSpaceKeeps("worker");
  }

  /** Tasks that wait for nothing have no cycle. */
  lemma NoDependenciesNoCycle(ts: seq<Scheduler.Task>)
    requires forall i :: 0 <= i < |ts| ==> ts[i].dependsOn == []
    ensures !Graphs.CycleReachable(Scheduler.GraphOf(ts), Scheduler.RawIds(ts))
  {
    Scheduler.EntriesAreTasks(ts);
    var g := Scheduler.GraphOf(ts);
    forall p | Graphs.Lasso(g, p)
      ensures p[0] !in Scheduler.RawIds(ts)
    {
      assert p[0 + 1] in Graphs.Deps(g, p[0]);
    }
  }

  lemma QuietIsAccepted()
    ensures WorkAccepted(QUIET.items, 1, QUIET.now)
  {
    hide WellFormed, TrimSpace, Ownership.Normalizes, Graphs.CycleReachable, Scheduler.GraphOf;
    PlainIsWellFormed("a", "x", Ready);
    PlainIsWellFormed("b", "y", Landed);
    var m := ManifestOf(QUIET.items, 1);
    NoDependenciesNoCycle(m.tasks);
    assert m.tasks[0] == TaskOf(QUIET.items[0]) && m.tasks[1] == TaskOf(QUIET.items[1]);
  }

  lemma FirstIsChosen()
    ensures CostChosen(QUIET.items, 1, QUIET.now, 0) == [] && CostChosen(QUIET.items, 1, QUIET.now, 1) == [QUIET.items[0]]
  {
    assert QUIET.items[..1] == [QUIET.items[0]] && QUIET.items[..1][..0] == [];
    assert ActiveItems(QUIET.items[..1], 1) == [] == ActiveItems(QUIET.items, 1);
  }

  lemma FirstIsReady()
    ensures "a" in WorkDecision(QUIET.items, 1, QUIET.now).ready
  {
    hide WorkAccepted, WorkDecision, CostChosen;
    QuietIsAccepted();
    ReadyIffChosen(QUIET, 1, 0);
    FirstIsChosen();
  }

  /** The claim of the ready item is a step. */
  lemma ClaimIsStep()
    ensures Step(QUIET, 1, CLAIM, AfterClaim())
  {
    hide TrimSpace, WorkAccepted, WorkDecision;
    FirstIsReady();
    QuietIsAccepted();
    NamesNotBlank();
    assert CLAIM.claims[..0] == [];
    assert AfterClaims(QUIET.items, [], 1) == QUIET.items;
    assert AfterClaims(QUIET.items, CLAIM.claims, 1) == AfterClaim().items;
  }

  lemma BothTooMuch()
    ensures !Invariant(AfterVerify(AfterClaim(), 1, []), 1)
  {
    hide TrimSpace, ActiveSeparate, DependenciesLanded;
    NamesNotBlank();
    WrittenIsActive(AfterClaim(), 1, []);
    var items := AfterVerify(AfterClaim(), 1, []).items;
    assert items[..1] == [items[0]] && items[..1][..0] == [];
    assert ActiveAt(items[0], 1);
    assert ActiveCost(items, 1) == 2;
  }

  lemma QuietIsFine()
    ensures Invariant(QUIET, 1) && |AfterClaim().items| == 2 && WellFormed(AfterClaim().items[1])
  {
    hide WellFormed, Invariant, TrimSpace, Ownership.Normalizes;
    PlainIsWellFormed("b", "y", Landed);
    QuietSystemIsFine(QUIET, 1);
  }

  lemma OneStepRun(s: System, maxCost: int, e: Event, s': System)
    requires Step(s, maxCost, e, s')
    ensures Run([s, s'], [e], maxCost)
  {
    hide Step;
  }

  /** From a quiet start with a budget of one: an item is claimed, the landed one is verified once more, and both are active. */
  lemma LandedItemBecomesActive()
    ensures Invariant(QUIET, 1) && Run([QUIET, AfterClaim()], [CLAIM], 1)
    ensures WellFormed(AfterClaim().items[1]) && Invariant(AfterClaim(), 1)
    ensures !Invariant(AfterVerify(AfterClaim(), 1, []), 1)
  {
    hide *;
    ClaimIsStep();
    QuietIsFine();
    OneStepRun(QUIET, 1, CLAIM, AfterClaim());
    StepKeepsInvariant(QUIET, 1, CLAIM, AfterClaim());
    BothTooMuch();
  }
}
