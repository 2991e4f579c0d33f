/** Choosing the next batch: greedy admission under capacity, parallelism and ownership. */
module Admission {
  import opened Wrappers
  import opened Ownership
  import opened Scheduler

  const REASON := "dependency-failed"

  function StatusOf(st: State, id: string): Status {
    if id in st && st[id] != Unset then st[id] else Pending
  }

  predicate IsRunning(st: State, t: Task) {
    t.id in st && st[t.id] == Running
  }

  predicate DependencyFailed(t: Task, st: State) {
    exists d :: d in t.dependsOn && StatusOf(st, d) in {Failed, Skipped}
  }

  predicate DependenciesSucceeded(t: Task, st: State) {
    forall d :: d in t.dependsOn ==> StatusOf(st, d) == Succeeded
  }

  predicate ConflictsAny(t: Task, others: seq<Task>) {
    exists k :: 0 <= k < |others| && Conflict(t.owns, others[k].owns)
  }

  function Total(ts: seq<Task>): Resources {
    if ts == [] then Resources(0.0, 0)
    else
      var rest, last := Total(ts[..|ts| - 1]), ts[|ts| - 1].resources;
      Resources(rest.cpu + last.cpu, rest.memoryMB + last.memoryMB)
  }

  function Ids(ts: seq<Task>): (r: seq<string>)
    ensures |r| == |ts| && forall i :: 0 <= i < |ts| ==> r[i] == ts[i].id
  {
    seq(|ts|, i requires 0 <= i < |ts| => ts[i].id)
  }

  // ---- The rule, task by task

  function RunningTasks(ts: seq<Task>, st: State): seq<Task> {
    if ts == [] then []
    else
      var rest := RunningTasks(ts[..|ts| - 1], st);
      if IsRunning(st, ts[|ts| - 1]) then rest + [ts[|ts| - 1]] else rest
  }

  /** Waiting, with every dependency succeeded. */
  predicate Eligible(st: State, t: Task) {
    StatusOf(st, t.id) == Pending && DependenciesSucceeded(t, st)
  }

  predicate Fits(used: Resources, t: Task, capacity: Resources) {
    used.cpu + t.resources.cpu <= capacity.cpu && used.memoryMB + t.resources.memoryMB <= capacity.memoryMB
  }

  predicate LimitReached(m: Manifest, selected: seq<Task>) {
    |selected| >= m.maxParallel
  }

  /** Nothing already selected, running tasks included, stands in the way of t. */
  predicate Room(m: Manifest, selected: seq<Task>, t: Task) {
    && !LimitReached(m, selected)
    && Fits(Total(selected), t, m.capacity)
    && !ConflictsAny(t, selected)
  }

  /** The tasks admitted among the first n, each judged against running tasks and those admitted before it. */
  function Chosen(m: Manifest, st: State, n: nat): seq<Task>
    requires n <= |m.tasks|
  {
    if n == 0 then []
    else
      var before, t := Chosen(m, st, n - 1), m.tasks[n - 1];
      if Eligible(st, t) && Room(m, RunningTasks(m.tasks, st) + before, t) then before + [t] else before
  }

  function SkippedIds(ts: seq<Task>, st: State): set<string> {
    set i | 0 <= i < |ts| && StatusOf(st, ts[i].id) == Pending && DependencyFailed(ts[i], st) :: ts[i].id
  }

  function Decide(m: Manifest, st: State): Decision {
    Decision(Ids(Chosen(m, st, |m.tasks|)), map id | id in SkippedIds(m.tasks, st) :: REASON)
  }

  predicate IdsDistinct(ts: seq<Task>) {
    forall i, j :: 0 <= i < j < |ts| ==> ts[i].id != ts[j].id
  }

  /** The state with every task listed and nothing left unset. */
  function Explicit(m: Manifest, st: State): State {
    map id | id in st.Keys + RawIds(m.tasks) :: if id in st && st[id] != Unset then st[id] else Pending
  }

  lemma {:induction false} ExplicitRunning(m: Manifest, st: State, n: nat)
    requires n <= |m.tasks|
    ensures RunningTasks(m.tasks[..n], Explicit(m, st)) == RunningTasks(m.tasks[..n], st)
  {
    if n > 0 {
      ExplicitRunning(m, st, n - 1);
      assert m.tasks[..n][..n - 1] == m.tasks[..n - 1];
      assert m.tasks[n - 1].id in RawIds(m.tasks);
    } else {
      assert m.tasks[..0] == [];
    }
  }

  lemma {:induction false} ExplicitChosen(m: Manifest, st: State, n: nat)
    requires n <= |m.tasks|
    ensures Chosen(m, Explicit(m, st), n) == Chosen(m, st, n)
  {
    hide Room;
    if n > 0 {
      ExplicitChosen(m, st, n - 1);
      ExplicitRunning(m, st, |m.tasks|);
      assert m.tasks[..|m.tasks|] == m.tasks;
      assert forall id :: StatusOf(Explicit(m, st), id) == StatusOf(st, id);
    }
  }

  /** A task that the state does not list, or lists without a status, counts as pending. */
  lemma UnlistedIsPending(m: Manifest, st: State)
    ensures Decide(m, Explicit(m, st)) == Decide(m, st)
  {
    hide Chosen;
    ExplicitChosen(m, st, |m.tasks|);
    assert forall id :: StatusOf(Explicit(m, st), id) == StatusOf(st, id);
    assert SkippedIds(m.tasks, Explicit(m, st)) == SkippedIds(m.tasks, st);
  }

  lemma KeysDistinctGivesIds(ts: seq<Task>)
    requires KeysDistinct(ts)
    ensures IdsDistinct(ts)
  {
    forall i, j | 0 <= i < j < |ts|
      ensures ts[i].id != ts[j].id
    {
      assert TrimmedId(ts[i]) != TrimmedId(ts[j]);
    }
  }

  // ---- The loops

  method ConflictsWithAny(t: Task, others: seq<Task>) returns (conflict: bool)
    ensures conflict <==> ConflictsAny(t, others)
  {
    hide Conflict;
    for k := 0 to |others|
      invariant forall j :: 0 <= j < k ==> !Conflict(t.owns, others[j].owns)
    {
      var c := OwnershipConflict(t.owns, others[k].owns);
      if c {
        return true;
      }
    }
    return false;
  }

  method AnyDependencyFailed(t: Task, st: State) returns (failed: bool)
    ensures failed <==> DependencyFailed(t, st)
  {
    for k := 0 to |t.dependsOn|
      invariant forall j :: 0 <= j < k ==> StatusOf(st, t.dependsOn[j]) !in {Failed, Skipped}
    {
      if StatusOf(st, t.dependsOn[k]) in {Failed, Skipped} {
        assert t.dependsOn[k] in t.dependsOn;
        return true;
      }
    }
    return false;
  }

  method AllDependenciesSucceeded(t: Task, st: State) returns (succeeded: bool)
    ensures succeeded <==> DependenciesSucceeded(t, st)
  {
    for k := 0 to |t.dependsOn|
      invariant forall j :: 0 <= j < k ==> StatusOf(st, t.dependsOn[j]) == Succeeded
    {
      if StatusOf(st, t.dependsOn[k]) != Succeeded {
        assert t.dependsOn[k] in t.dependsOn;
        return false;
      }
    }
    return true;
  }

  /** Once the limit is reached no later task is admitted: what makes leaving the loop early harmless. */
  lemma {:induction false} LimitStopsAdmission(m: Manifest, st: State, i: nat, n: nat)
    requires i <= n <= |m.tasks| && LimitReached(m, RunningTasks(m.tasks, st) + Chosen(m, st, i))
    ensures Chosen(m, st, n) == Chosen(m, st, i)
    decreases n
  {
    hide Eligible, Fits, ConflictsAny;
    if i < n {
      LimitStopsAdmission(m, st, i, n - 1);
    }
  }

  lemma SkippedIsNotEligible(ts: seq<Task>, st: State, i: nat)
    requires i < |ts| && IdsDistinct(ts)
    ensures ts[i].id in SkippedIds(ts, st) ==> DependencyFailed(ts[i], st) && !Eligible(st, ts[i])
  {
  }

  method CountRunning(m: Manifest, st: State) returns (running: seq<Task>, used: Resources)
    ensures running == RunningTasks(m.tasks, st) && used == Total(running)
  {
    running, used := [], Resources(0.0, 0);
    for i := 0 to |m.tasks|
      invariant running == RunningTasks(m.tasks[..i], st) && used == Total(running)
    {
      var t := m.tasks[i];
      assert m.tasks[..i + 1][..i] == m.tasks[..i];
      if t.id in st && st[t.id] == Running {
        assert (running + [t])[..|running|] == running;
        running := running + [t];
        used := Resources(used.cpu + t.resources.cpu, used.memoryMB + t.resources.memoryMB);
      }
    }
    assert m.tasks[..|m.tasks|] == m.tasks;
  }

  method FindSkipped(m: Manifest, st: State) returns (skipped: map<string, string>)
    ensures skipped == map id | id in SkippedIds(m.tasks, st) :: REASON
  {
    skipped := map[];
    for i := 0 to |m.tasks|
      invariant skipped == map id | id in SkippedIds(m.tasks[..i], st) :: REASON
    {
      var t := m.tasks[i];
      ghost var before, after := m.tasks[..i], m.tasks[..i + 1];
      assert after == before + [t];
      var failed := AnyDependencyFailed(t, st);
      if StatusOf(st, t.id) == Pending && failed {
        assert after[i] == t && SkippedIds(after, st) == SkippedIds(before, st) + {t.id} by {
          SkippedGrows(before, t, st);
        }
        skipped := skipped[t.id := REASON];
      } else {
        SkippedGrows(before, t, st);
      }
    }
    assert m.tasks[..|m.tasks|] == m.tasks;
  }

  lemma SkippedGrows(ts: seq<Task>, t: Task, st: State)
    ensures SkippedIds(ts + [t], st)
            == SkippedIds(ts, st) + (if StatusOf(st, t.id) == Pending && DependencyFailed(t, st) then {t.id} else {})
  {
    var longer := ts + [t];
    forall id
      ensures id in SkippedIds(longer, st)
              <==> id in SkippedIds(ts, st) || (id == t.id && StatusOf(st, t.id) == Pending && DependencyFailed(t, st))
    {
      if id in SkippedIds(ts, st) {
        var i :| 0 <= i < |ts| && StatusOf(st, ts[i].id) == Pending && DependencyFailed(ts[i], st) && ts[i].id == id;
        assert longer[i] == ts[i];
      }
      if id == t.id && StatusOf(st, t.id) == Pending && DependencyFailed(t, st) {
        assert longer[|ts|] == t;
      }
    }
  }

  lemma TotalGrows(ts: seq<Task>, t: Task)
    ensures Total(ts + [t]).cpu == Total(ts).cpu + t.resources.cpu
    ensures Total(ts + [t]).memoryMB == Total(ts).memoryMB + t.resources.memoryMB
  {
    assert (ts + [t])[..|ts|] == ts;
  }

  /** The tests that let a task be passed over: CPU, memory, and conflict with what is selected. */
  method FitsBeside(m: Manifest, selected: seq<Task>, used: Resources, t: Task) returns (ok: bool)
    requires used == Total(selected)
    ensures ok <==> Fits(Total(selected), t, m.capacity) && !ConflictsAny(t, selected)
  {
    hide ConflictsAny, Total;
    if used.cpu + t.resources.cpu > m.capacity.cpu || used.memoryMB + t.resources.memoryMB > m.capacity.memoryMB {
      return false;
    }
    var conflict := ConflictsWithAny(t, selected);
    return !conflict;
  }

  /** One greedy pass: running totals decide what still fits, and reaching the parallel limit ends it early. */
  method Admit(m: Manifest, st: State, running: seq<Task>, total: Resources, skipped: map<string, string>) returns (ready: seq<Task>)
    requires IdsDistinct(m.tasks) && running == RunningTasks(m.tasks, st) && total == Total(running)
    requires skipped.Keys == SkippedIds(m.tasks, st)
    ensures ready == Chosen(m, st, |m.tasks|)
  {
    hide ConflictsAny, RunningTasks, Total, DependencyFailed, DependenciesSucceeded, Fits, IdsDistinct, SkippedIds;
    var used := total;
    ready := [];
    assert running + ready == running;
    var i := 0;
    while i < |m.tasks|
      invariant 0 <= i <= |m.tasks|
      invariant ready == Chosen(m, st, i)
      invariant used == Total(running + ready)
    {
      var t := m.tasks[i];
      var succeeded := AllDependenciesSucceeded(t, st);
      SkippedIsNotEligible(m.tasks, st, i);
      if StatusOf(st, t.id) == Pending && t.id !in skipped && succeeded {
        if |running| + |ready| >= m.maxParallel {
          LimitStopsAdmission(m, st, i, |m.tasks|);
          break;
        }
        var fits := FitsBeside(m, running + ready, used, t);
        if fits {
          assert running + (ready + [t]) == (running + ready) + [t];
          TotalGrows(running + ready, t);
          ready := ready + [t];
          used := Resources(used.cpu + t.resources.cpu, used.memoryMB + t.resources.memoryMB);
        }
      }
      i := i + 1;
    }
  }

  /** Validates, counts what runs, marks what can no longer run, and picks the batch. */
  method Next(m: Manifest, st: State) returns (r: Result<Decision, ValidationError>)
    ensures r.Success? <==> Accepts(m)
    ensures r.Success? ==> r.value == Decide(m, st)
    ensures r.Failure? ==> Justified(m, r.error)
  {
    hide Accepts, Justified, RunningTasks, Total, Chosen, SkippedIds;
    var valid, order := Validate(m);
    if valid.Fail? {
      return Failure(valid.error);
    }
    AcceptedIdsDistinct(m);
    var running, used := CountRunning(m, st);
    var skipped := FindSkipped(m, st);
    var ready := Admit(m, st, running, used, skipped);
    return Success(Decision(Ids(ready), skipped));
  }

  lemma AcceptedIdsDistinct(m: Manifest)
    requires Accepts(m)
    ensures IdsDistinct(m.tasks)
  {
    KeysDistinctGivesIds(m.tasks);
  }

  // ---- What the rule guarantees

  predicate Within(r: Resources, capacity: Resources) {
    r.cpu <= capacity.cpu && r.memoryMB <= capacity.memoryMB
  }

  lemma {:induction false} ChosenComeFromTasks(m: Manifest, st: State, n: nat)
    requires n <= |m.tasks| && IdsDistinct(m.tasks)
    ensures forall k :: 0 <= k < |Chosen(m, st, n)| ==>
              Eligible(st, Chosen(m, st, n)[k]) && exists i :: 0 <= i < n && m.tasks[i] == Chosen(m, st, n)[k]
    ensures IdsDistinct(Chosen(m, st, n))
  {
    hide Eligible, Room;
    if n > 0 {
      ChosenComeFromTasks(m, st, n - 1);
    }
  }

  lemma {:induction false} ChosenFit(m: Manifest, st: State, n: nat)
    requires n <= |m.tasks|
    ensures var run, ready := RunningTasks(m.tasks, st), Chosen(m, st, n);
            ready != [] ==> Within(Total(run + ready), m.capacity) && |run| + |ready| <= m.maxParallel
  {
    hide Eligible, ConflictsAny, RunningTasks;
    if n > 0 {
      ChosenFit(m, st, n - 1);
      var run, before, t := RunningTasks(m.tasks, st), Chosen(m, st, n - 1), m.tasks[n - 1];
      assert (run + (before + [t]))[..|run + before|] == run + before;
    }
  }

  /** No task conflicts with a running one or with one listed before it. */
  predicate Separate(run: seq<Task>, ready: seq<Task>) {
    forall k :: 0 <= k < |ready| ==> !ConflictsAny(ready[k], run + ready[..k])
  }

  lemma {:induction false} ChosenAreSeparate(m: Manifest, st: State, n: nat)
    requires n <= |m.tasks|
    ensures Separate(RunningTasks(m.tasks, st), Chosen(m, st, n))
  {
    hide Eligible, ConflictsAny, RunningTasks, Fits;
    if n > 0 {
      ChosenAreSeparate(m, st, n - 1);
      var before, ready := Chosen(m, st, n - 1), Chosen(m, st, n);
      forall k | 0 <= k < |ready|
        ensures !ConflictsAny(ready[k], RunningTasks(m.tasks, st) + ready[..k])
      {
        if k < |before| {
          assert ready[..k] == before[..k];
        } else {
          assert ready[..k] == before;
        }
      }
    }
  }

  /** Two tasks whose ownership cannot be told apart from a clash, in either order. */
  predicate Disjoint(a: Task, b: Task) {
    !Conflict(a.owns, b.owns) && !Conflict(b.owns, a.owns)
  }

  lemma AcceptedConflictsAreSymmetric(m: Manifest, a: Task, b: Task)
    requires TaskWellFormed(m, a) && TaskWellFormed(m, b) && !Conflict(a.owns, b.owns)
    ensures Disjoint(a, b)
  {
    hide TrimmedId, Conflict, HasMalformed;
    ConflictSymmetry(a.owns, b.owns);
  }

  lemma {:induction false} RunningComeFromTasks(ts: seq<Task>, st: State)
    ensures forall t :: t in RunningTasks(ts, st) <==> t in ts && IsRunning(st, t)
  {
    if ts != [] {
      RunningComeFromTasks(ts[..|ts| - 1], st);
      assert ts == ts[..|ts| - 1] + [ts[|ts| - 1]];
    }
  }

  /** The chosen tasks clash neither with running ones nor with each other. */
  predicate Unclashing(run: seq<Task>, ready: seq<Task>) {
    && (forall k, j :: 0 <= k < |ready| && 0 <= j < |run| ==> Disjoint(ready[k], run[j]))
    && (forall j, k :: 0 <= j < k < |ready| ==> Disjoint(ready[j], ready[k]))
  }

  lemma SeparateIsUnclashing(m: Manifest, run: seq<Task>, ready: seq<Task>)
    requires Separate(run, ready)
    requires forall t :: t in run || t in ready ==> TaskWellFormed(m, t)
    ensures Unclashing(run, ready)
  {
    hide Conflict, TaskWellFormed;
    forall k, j | 0 <= k < |ready| && 0 <= j < |run|
      ensures Disjoint(ready[k], run[j])
    {
      assert (run + ready[..k])[j] == run[j] && ready[k] in ready && run[j] in run;
      AcceptedConflictsAreSymmetric(m, ready[k], run[j]);
    }
    forall j, k | 0 <= j < k < |ready|
      ensures Disjoint(ready[j], ready[k])
    {
      assert (run + ready[..k])[|run| + j] == ready[j] && ready[k] in ready && ready[j] in ready;
      AcceptedConflictsAreSymmetric(m, ready[k], ready[j]);
    }
  }

  lemma ChosenNotSkipped(m: Manifest, st: State, k: nat)
    requires IdsDistinct(m.tasks) && k < |Chosen(m, st, |m.tasks|)|
    ensures Chosen(m, st, |m.tasks|)[k].id !in SkippedIds(m.tasks, st)
  {
    hide Room, DependencyFailed, DependenciesSucceeded;
    ChosenComeFromTasks(m, st, |m.tasks|);
    var i :| 0 <= i < |m.tasks| && m.tasks[i] == Chosen(m, st, |m.tasks|)[k];
    SkippedIsNotEligible(m.tasks, st, i);
  }

  /** Safety of one decision, from any state, even one already over capacity. */
  lemma DecisionIsSafe(m: Manifest, st: State)
    requires Accepts(m)
    ensures var run := RunningTasks(m.tasks, st);
            var ready := Chosen(m, st, |m.tasks|);
            var d := Decide(m, st);
            && d.ready == Ids(ready)
            && (d.ready != [] ==> Within(Total(run + ready), m.capacity) && |run| + |ready| <= m.maxParallel)
            && (forall k :: 0 <= k < |ready| ==> ready[k] in m.tasks && Eligible(st, ready[k]))
            && Unclashing(run, ready)
            && IdsDistinct(ready)
            && (forall k :: 0 <= k < |ready| ==> ready[k].id !in d.skipped)
  {
    hide TaskWellFormed, Room, Chosen, Eligible, SkippedIds, Unclashing, Within, RunningTasks;
    var n := |m.tasks|;
    var run, ready := RunningTasks(m.tasks, st), Chosen(m, st, n);
    AcceptedIdsDistinct(m);
    ChosenComeFromTasks(m, st, n);
    ChosenFit(m, st, n);
    ChosenAreSeparate(m, st, n);
    RunningComeFromTasks(m.tasks, st);
    SeparateIsUnclashing(m, run, ready);
    forall k | 0 <= k < |ready|
      ensures ready[k].id !in SkippedIds(m.tasks, st)
    {
      ChosenNotSkipped(m, st, k);
    }
  }

  lemma {:induction false} TotalOfConcat(a: seq<Task>, b: seq<Task>)
    ensures Total(a + b).cpu == Total(a).cpu + Total(b).cpu
    ensures Total(a + b).memoryMB == Total(a).memoryMB + Total(b).memoryMB
  {
    if b == [] {
      assert a + b == a;
    } else {
      assert (a + b)[..|a + b| - 1] == a + b[..|b| - 1];
      TotalOfConcat(a, b[..|b| - 1]);
    }
  }

  predicate Positive(ts: seq<Task>) {
    forall i :: 0 <= i < |ts| ==> ts[i].resources.cpu > 0.0 && ts[i].resources.memoryMB > 0
  }

  lemma {:induction false} TotalNotNegative(ts: seq<Task>)
    requires Positive(ts)
    ensures Total(ts).cpu >= 0.0 && Total(ts).memoryMB >= |ts|
  {
    if ts != [] {
      TotalNotNegative(ts[..|ts| - 1]);
    }
  }

  lemma {:induction false} ChosenGrows(m: Manifest, st: State, i: nat, n: nat)
    requires i <= n <= |m.tasks|
    ensures Chosen(m, st, i) <= Chosen(m, st, n)
    decreases n
  {
    hide Eligible, Room;
    if i < n {
      ChosenGrows(m, st, i, n - 1);
    }
  }

  /** Room only shrinks as tasks are selected. */
  lemma RoomShrinks(m: Manifest, selected: seq<Task>, more: seq<Task>, t: Task)
    requires Positive(more) && Room(m, selected + more, t)
    ensures Room(m, selected, t)
  {
    hide Conflict;
    TotalOfConcat(selected, more);
    TotalNotNegative(more);
    forall k | 0 <= k < |selected|
      ensures !Conflict(t.owns, selected[k].owns)
    {
      assert (selected + more)[k] == selected[k];
    }
  }

  /** A task is admitted exactly when it is eligible and has room next to running tasks and those admitted before it. */
  lemma AdmittedExactly(m: Manifest, st: State, i: nat)
    requires i < |m.tasks| && IdsDistinct(m.tasks)
    ensures m.tasks[i] in Chosen(m, st, |m.tasks|)
            <==> Eligible(st, m.tasks[i]) && Room(m, RunningTasks(m.tasks, st) + Chosen(m, st, i), m.tasks[i])
  {
    hide Eligible, Room;
    var t, before, after := m.tasks[i], Chosen(m, st, i), Chosen(m, st, i + 1);
    ChosenComeFromTasks(m, st, i);
    ChosenGrows(m, st, i + 1, |m.tasks|);
    if t in after {
      assert t !in before;
    } else {
      NotAdmittedLater(m, st, i, |m.tasks|);
    }
  }

  lemma {:induction false} NotAdmittedLater(m: Manifest, st: State, i: nat, n: nat)
    requires i < n <= |m.tasks| && IdsDistinct(m.tasks) && m.tasks[i] !in Chosen(m, st, i + 1)
    ensures m.tasks[i] !in Chosen(m, st, n)
    decreases n
  {
    hide Eligible, Room;
    if i + 1 < n {
      NotAdmittedLater(m, st, i, n - 1);
      assert m.tasks[i].id != m.tasks[n - 1].id;
    }
  }

  /** No eligible task left out could be added to the final decision. */
  lemma DecisionIsMaximal(m: Manifest, st: State, i: nat)
    requires Accepts(m) && i < |m.tasks| && Eligible(st, m.tasks[i])
    requires m.tasks[i].id !in Decide(m, st).ready
    ensures !Room(m, RunningTasks(m.tasks, st) + Chosen(m, st, |m.tasks|), m.tasks[i])
  {
    hide TrimmedId, Conflict, HasMalformed, Room, Eligible;
    var n, t := |m.tasks|, m.tasks[i];
    var run, all := RunningTasks(m.tasks, st), Chosen(m, st, n);
    AcceptedIdsDistinct(m);
    assert t !in all by {
      assert forall k :: 0 <= k < |all| ==> Decide(m, st).ready[k] == all[k].id;
    }
    AdmittedExactly(m, st, i);
    ChosenGrows(m, st, i, n);
    ChosenComeFromTasks(m, st, n);
    var early := Chosen(m, st, i);
    var more := all[|early|..];
    assert run + all == (run + early) + more;
    assert Positive(more);
    if Room(m, run + all, t) {
      RoomShrinks(m, run + early, more, t);
    }
  }
}
