/** Unrolling a manifest into waves, and why the deadlock error cannot be reached. */
module Waves {
  import opened Wrappers
  import opened Text
  import opened Graphs
  import opened Paths
  import Ownership
  import opened Scheduler
  import opened Admission

  datatype PlanError = Invalid(error: ValidationError) | Deadlocked

  function Flatten(ws: seq<seq<string>>): seq<string> {
    if ws == [] then [] else Flatten(ws[..|ws| - 1]) + ws[|ws| - 1]
  }

  /** The waves list every task once and nothing else. */
  ghost predicate ListsEachTaskOnce(m: Manifest, ws: seq<seq<string>>) {
    NoRepeats(Flatten(ws)) && forall id :: id in Flatten(ws) <==> id in RawIds(m.tasks)
  }

  /** Whatever a task of wave w depends on lies in a wave before w. */
  predicate DependenciesEarlier(m: Manifest, ws: seq<seq<string>>) {
    forall w, i, d :: 0 <= w < |ws| && 0 <= i < |m.tasks| && m.tasks[i].id in ws[w] && d in m.tasks[i].dependsOn
      ==> d in Flatten(ws[..w])
  }

  /** A wave may run at once: it fits, and no two of its tasks clash. */
  ghost predicate RunsTogether(m: Manifest, wave: seq<string>) {
    exists ts: seq<Task> {:trigger Ids(ts)} ::
      && wave == Ids(ts) && (forall t :: t in ts ==> t in m.tasks)
      && Within(Total(ts), m.capacity) && 0 < |ts| <= m.maxParallel
      && forall j, k :: 0 <= j < k < |ts| ==> Disjoint(ts[j], ts[k])
  }

  /** Exactly the listed ids have succeeded and all other tasks wait. */
  predicate Progress(m: Manifest, st: State, done: seq<string>) {
    && st.Keys == RawIds(m.tasks) && NoRepeats(done)
    && (forall id :: id in done ==> id in RawIds(m.tasks))
    && (forall id :: id in st ==> st[id] == if id in done then Succeeded else Pending)
  }

  /** Wave w is the decision made once exactly the waves before it have succeeded. */
  ghost predicate Decided(m: Manifest, ws: seq<seq<string>>, w: nat)
    requires w < |ws|
  {
    exists st :: Progress(m, st, Flatten(ws[..w])) && ws[w] == Decide(m, st).ready
  }

  /** A plan lists each task once, dependencies first, in waves that may run at once and follow the scheduler. */
  ghost predicate Plan(m: Manifest, ws: seq<seq<string>>) {
    && Accepts(m) && ListsEachTaskOnce(m, ws) && DependenciesEarlier(m, ws)
    && forall w :: 0 <= w < |ws| ==> RunsTogether(m, ws[w]) && Decided(m, ws, w)
  }

  lemma {:induction false} NoRepeatsFits(p: seq<string>, s: set<string>)
    requires NoRepeats(p) && forall id :: id in p ==> id in s
    ensures |p| <= |s| && (|p| == |s| ==> forall id :: id in s ==> id in p)
  {
    if p != [] {
      var last := p[|p| - 1];
      var init := p[..|p| - 1];
      assert forall id :: id in init ==> id in p;
      assert last !in init;
      NoRepeatsFits(init, s - {last});
      if |p| == |s| {
        forall id | id in s
          ensures id in p
        {
          if id != last {
            assert id in init;
          }
        }
      }
    }
  }

  lemma RawIdsGrow(ts: seq<Task>, t: Task)
    ensures RawIds(ts + [t]) == RawIds(ts) + {t.id}
  {
    var longer := ts + [t];
    forall id
      ensures id in RawIds(longer) <==> id in RawIds(ts) || id == t.id
    {
      if id in RawIds(ts) {
        var i :| 0 <= i < |ts| && ts[i].id == id;
        assert longer[i].id == id;
      }
      assert longer[|ts|].id == t.id;
    }
  }

  lemma {:induction false} RawIdCount(ts: seq<Task>)
    requires IdsDistinct(ts)
    ensures |RawIds(ts)| == |ts|
  {
    if ts != [] {
      var init, last := ts[..|ts| - 1], ts[|ts| - 1];
      RawIdCount(init);
      assert last.id !in RawIds(init);
      RawIdsGrow(init, last);
      assert ts == init + [last];
    }
  }

  lemma {:induction false} NoneRunning(ts: seq<Task>, st: State)
    requires forall i :: 0 <= i < |ts| ==> !IsRunning(st, ts[i])
    ensures RunningTasks(ts, st) == []
  {
    if ts != [] {
      NoneRunning(ts[..|ts| - 1], st);
    }
  }

  lemma ProgressIsQuiet(m: Manifest, st: State, done: seq<string>)
    requires Progress(m, st, done)
    ensures RunningTasks(m.tasks, st) == [] && SkippedIds(m.tasks, st) == {}
  {
    NoneRunning(m.tasks, st);
    assert forall d :: StatusOf(st, d) !in {Failed, Skipped};
  }

  // ---- Progress is always possible

  /** An id that is both a table key and spelled as some task's id names that task's entry. */
  lemma TaskNamed(m: Manifest, id: string) returns (i: nat)
    requires TasksWellFormed(m) && id in RawIds(m.tasks) && id in GraphOf(m.tasks)
    ensures i < |m.tasks| && m.tasks[i].id == id && GraphOf(m.tasks)[id] == m.tasks[i].dependsOn
  {
    hide TaskWellFormed, TrimSpace;
    GraphOfKeys(m.tasks);
    i :| 0 <= i < |m.tasks| && m.tasks[i].id == id;
    assert HasKey(m.tasks, id);
    var j :| 0 <= j < |m.tasks| && TrimmedId(m.tasks[j]) == id;
    TrimSpaceIdempotent(m.tasks[j].id);
  }

  /** In an accepted, closed manifest a walk never meets a dependency it has already passed. */
  lemma WalkExtends(m: Manifest, p: seq<string>, i: nat, d: string)
    requires Accepts(m) && Closed(m) && i < |m.tasks| && d in m.tasks[i].dependsOn
    requires p != [] && NoRepeats(p) && IsPath(GraphOf(m.tasks), p) && p[0] in RawIds(m.tasks)
    requires p[|p| - 1] in GraphOf(m.tasks) && GraphOf(m.tasks)[p[|p| - 1]] == m.tasks[i].dependsOn
    ensures NoRepeats(p + [d]) && IsPath(GraphOf(m.tasks), p + [d]) && d in RawIds(m.tasks) && d in GraphOf(m.tasks)
  {
    hide TaskWellFormed, TrimSpace, GraphOf, RawIds;
    var q := p + [d];
    assert ListKnown(GraphOf(m.tasks), m.tasks[i]);
    assert IsPath(GraphOf(m.tasks), q);
    assert q[..|q| - 1] == p && q[0] == p[0];
    assert !Lasso(GraphOf(m.tasks), q);
  }

  /** Follow unfinished dependencies: without a cycle the walk ends at a task that may start. */
  lemma {:induction false} WalkFindsEligible(m: Manifest, st: State, done: seq<string>, p: seq<string>)
    requires Accepts(m) && Closed(m) && Progress(m, st, done)
    requires p != [] && NoRepeats(p) && IsPath(GraphOf(m.tasks), p)
    requires forall id :: id in p ==> id in RawIds(m.tasks) && id in GraphOf(m.tasks) && id !in done
    ensures exists i :: 0 <= i < |m.tasks| && Eligible(st, m.tasks[i])
    decreases |RawIds(m.tasks)| - |p|
  {
    hide TaskWellFormed, TrimSpace;
    var last := p[|p| - 1];
    var i := TaskNamed(m, last);
    if !Eligible(st, m.tasks[i]) {
      var d :| d in m.tasks[i].dependsOn && StatusOf(st, d) != Succeeded;
      assert d !in done;
      WalkExtends(m, p, i, d);
      NoRepeatsFits(p + [d], RawIds(m.tasks));
      WalkFindsEligible(m, st, done, p + [d]);
    }
  }

  /** While a task of an accepted, closed manifest is unfinished, the next decision starts something. */
  lemma NeverDeadlocked(m: Manifest, st: State, done: seq<string>)
    requires Accepts(m) && Closed(m) && Progress(m, st, done)
    requires exists id :: id in RawIds(m.tasks) && id !in done
    ensures Decide(m, st).ready != []
  {
    hide TaskWellFormed, TrimSpace, Room;
    var id :| id in RawIds(m.tasks) && id !in done;
    var i :| 0 <= i < |m.tasks| && m.tasks[i].id == id;
    if !Eligible(st, m.tasks[i]) {
      var d :| d in m.tasks[i].dependsOn && StatusOf(st, d) != Succeeded;
      assert ListKnown(GraphOf(m.tasks), m.tasks[i]);
      assert IsPath(GraphOf(m.tasks), [d]);
      WalkFindsEligible(m, st, done, [d]);
      i :| 0 <= i < |m.tasks| && Eligible(st, m.tasks[i]);
    }
    ProgressIsQuiet(m, st, done);
    EligibleStartsAlone(m, st, i);
  }

  lemma EligibleStartsAlone(m: Manifest, st: State, i: nat)
    requires Accepts(m) && i < |m.tasks| && Eligible(st, m.tasks[i]) && RunningTasks(m.tasks, st) == []
    ensures Decide(m, st).ready != []
  {
    hide TrimmedId, Ownership.HasMalformed, Eligible;
    assert TaskWellFormed(m, m.tasks[i]);
    var ready := Chosen(m, st, |m.tasks|);
    var selected := RunningTasks(m.tasks, st) + ready;
    if m.tasks[i].id !in Decide(m, st).ready {
      DecisionIsMaximal(m, st, i);
      assert selected != [];
      assert selected == ready;
    }
  }

  // ---- The loop

  /** The state with every listed id marked skipped. */
  ghost predicate SkippedMarked(st: State, skipped: set<string>, st': State) {
    && st'.Keys == st.Keys + skipped
    && forall id :: id in st' ==> st'[id] == if id in skipped then Skipped else st[id]
  }

  lemma UnmarkedState(st: State)
    ensures SkippedMarked(st, {}, st)
  {
  }

  lemma NothingMarked(st: State, st': State)
    requires SkippedMarked(st, {}, st')
    ensures st' == st
  {
  }

  lemma MarkMore(st: State, marked: set<string>, st': State, id: string)
    requires SkippedMarked(st, marked, st')
    ensures SkippedMarked(st, marked + {id}, st'[id := Skipped])
  {
  }

  method MarkSkipped(st: State, skipped: map<string, string>, remaining: int) returns (st': State, remaining': int)
    ensures SkippedMarked(st, skipped.Keys, st')
    ensures remaining' == remaining - |skipped.Keys|
  {
    hide SkippedMarked;
    st', remaining' := st, remaining;
    var marked: set<string> := {};
    UnmarkedState(st);
    while skipped.Keys - marked != {}
      invariant marked <= skipped.Keys
      invariant SkippedMarked(st, marked, st')
      invariant remaining' == remaining - |marked|
      decreases skipped.Keys - marked
    {
      var id :| id in skipped.Keys - marked;
      MarkMore(st, marked, st', id);
      st' := st'[id := Skipped];
      remaining' := remaining' - 1;
      marked := marked + {id};
    }
    assert marked == skipped.Keys;
  }

  ghost predicate PlannedSoFar(m: Manifest, st: State, ws: seq<seq<string>>) {
    && Progress(m, st, Flatten(ws)) && DependenciesEarlier(m, ws)
    && (forall w :: 0 <= w < |ws| ==> RunsTogether(m, ws[w]))
    && |ws| <= |Flatten(ws)|
  }

  /** One decision from a quiet state runs together and lists only waiting tasks. */
  lemma DecisionRunsTogether(m: Manifest, st: State, done: seq<string>)
    requires Accepts(m) && Progress(m, st, done) && Decide(m, st).ready != []
    ensures RunsTogether(m, Decide(m, st).ready)
  {
    hide TrimmedId, Room, Disjoint, TaskWellFormed, Eligible;
    ProgressIsQuiet(m, st, done);
    DecisionIsSafe(m, st);
    var ready := Chosen(m, st, |m.tasks|);
    assert RunningTasks(m.tasks, st) + ready == ready;
    assert Decide(m, st).ready == Ids(ready);
  }

  lemma DecisionIsFresh(m: Manifest, st: State, done: seq<string>)
    requires Accepts(m) && Progress(m, st, done)
    ensures NoRepeats(done + Decide(m, st).ready)
    ensures forall id :: id in Decide(m, st).ready ==> id in RawIds(m.tasks)
  {
    hide TrimmedId, Room, TaskWellFormed, DependenciesSucceeded, Accepts, Chosen;
    AcceptedIdsDistinct(m);
    ChosenComeFromTasks(m, st, |m.tasks|);
    var ready, wave := Chosen(m, st, |m.tasks|), Decide(m, st).ready;
    forall k | 0 <= k < |wave|
      ensures wave[k] in RawIds(m.tasks) && wave[k] !in done
    {
      assert Eligible(st, ready[k]) && wave[k] == ready[k].id;
    }
  }

  lemma DecisionIsReady(m: Manifest, st: State)
    requires Accepts(m)
    ensures forall i :: 0 <= i < |m.tasks| && m.tasks[i].id in Decide(m, st).ready ==> DependenciesSucceeded(m.tasks[i], st)
  {
    hide TrimmedId, Room, TaskWellFormed, DependenciesSucceeded, Accepts, Chosen;
    AcceptedIdsDistinct(m);
    ChosenComeFromTasks(m, st, |m.tasks|);
    var ready, wave := Chosen(m, st, |m.tasks|), Decide(m, st).ready;
    forall i | 0 <= i < |m.tasks| && m.tasks[i].id in wave
      ensures DependenciesSucceeded(m.tasks[i], st)
    {
      var k :| 0 <= k < |wave| && wave[k] == m.tasks[i].id;
      assert ready[k].id == m.tasks[i].id && Eligible(st, ready[k]);
    }
  }

  lemma WaveKeepsOrder(m: Manifest, st: State, ws: seq<seq<string>>, wave: seq<string>)
    requires Progress(m, st, Flatten(ws)) && DependenciesEarlier(m, ws)
    requires forall i :: 0 <= i < |m.tasks| && m.tasks[i].id in wave ==> DependenciesSucceeded(m.tasks[i], st)
    ensures DependenciesEarlier(m, ws + [wave])
  {
    var longer := ws + [wave];
    forall w, i, d | 0 <= w < |longer| && 0 <= i < |m.tasks| && m.tasks[i].id in longer[w] && d in m.tasks[i].dependsOn
      ensures d in Flatten(longer[..w])
    {
      if w < |ws| {
        assert longer[..w] == ws[..w] && longer[w] == ws[w];
      } else {
        assert longer[..w] == ws;
        assert StatusOf(st, d) == Succeeded;
      }
    }
  }

  method InitialState(m: Manifest) returns (state: State)
    ensures PlannedSoFar(m, state, [])
  {
    state := map[];
    for i := 0 to |m.tasks|
      invariant state == map id | id in RawIds(m.tasks[..i]) :: Pending
    {
      assert m.tasks[..i + 1] == m.tasks[..i] + [m.tasks[i]];
      RawIdsGrow(m.tasks[..i], m.tasks[i]);
      state := state[m.tasks[i].id := Pending];
    }
    assert m.tasks[..|m.tasks|] == m.tasks;
  }

  method MarkSucceeded(m: Manifest, st: State, wave: seq<string>, remaining: int, ghost done: seq<string>)
    returns (st': State, remaining': int)
    requires Progress(m, st, done) && NoRepeats(done + wave) && forall id :: id in wave ==> id in RawIds(m.tasks)
    ensures Progress(m, st', done + wave) && remaining' == remaining - |wave|
  {
    hide Progress, NoRepeats;
    st', remaining' := st, remaining;
    assert done + wave[..0] == done;
    for k := 0 to |wave|
      invariant Progress(m, st', done + wave[..k]) && remaining' == remaining - k
    {
      MarkOne(m, st', done, wave, k);
      st' := st'[wave[k] := Succeeded];
      remaining' := remaining' - 1;
    }
    assert wave[..|wave|] == wave;
  }

  /** Succeeds exactly on accepted, closed manifests; the deadlock error needs an id no task is spelled as. */
  method PlanWaves(m: Manifest) returns (r: Result<seq<seq<string>>, PlanError>)
    ensures r.Success? <==> Accepts(m) && Closed(m)
    ensures r == Failure(Deadlocked) <==> Accepts(m) && !Closed(m)
    ensures r.Failure? && r.error.Invalid? ==> Justified(m, r.error.error)
    ensures r.Success? ==> Plan(m, r.value) && |r.value| <= |m.tasks|
  {
    hide Accepts, Justified, Decide, RunsTogether, DependenciesEarlier, Progress, Closed, ListsEachTaskOnce, NoRepeats,
      DependenciesSucceeded, SkippedMarked, Decided;
    var valid, order := Validate(m);
    if valid.Fail? {
      return Failure(Invalid(valid.error));
    }
    var state := InitialState(m);
    var waves: seq<seq<string>> := [];
    var remaining: int := |m.tasks|;
    while remaining > 0
      invariant remaining == |m.tasks| - |Flatten(waves)| && remaining >= 0
      invariant PlannedSoFar(m, state, waves) && forall w :: 0 <= w < |waves| ==> Decided(m, waves, w)
    {
      var decision := Next(m, state);
      NothingSkipped(m, state, Flatten(waves));
      ghost var before := state;
      state, remaining := MarkSkipped(state, decision.value.skipped, remaining);
      NothingMarked(before, state);
      var ready := decision.value.ready;
      if |ready| == 0 {
        if remaining == 0 {
          break;
        }
        StuckOnlyIfOpen(m, state, waves);
        return Failure(Deadlocked);
      }
      DecisionRunsTogether(m, state, Flatten(waves));
      DecisionIsFresh(m, state, Flatten(waves));
      DecisionIsReady(m, state);
      WaveKeepsOrder(m, state, waves, ready);
      DecidedGrows(m, state, waves);
      state, remaining := MarkSucceeded(m, state, ready, remaining, Flatten(waves));
      PlanGrows(m, state, waves, ready);
      waves := waves + [ready];
      PlanFits(m, state, waves);
    }
    FinishedPlan(m, state, waves);
    return Success(waves);
  }

  lemma PlanFits(m: Manifest, st: State, ws: seq<seq<string>>)
    requires Accepts(m) && Progress(m, st, Flatten(ws))
    ensures |Flatten(ws)| <= |m.tasks|
  {
    hide TaskWellFormed;
    AcceptedIdsDistinct(m);
    RawIdCount(m.tasks);
    NoRepeatsFits(Flatten(ws), RawIds(m.tasks));
  }

  lemma FinishedPlan(m: Manifest, st: State, ws: seq<seq<string>>)
    requires Accepts(m) && PlannedSoFar(m, st, ws) && |Flatten(ws)| == |m.tasks|
    ensures ListsEachTaskOnce(m, ws) && Closed(m)
  {
    hide TaskWellFormed, RunsTogether;
    AcceptedIdsDistinct(m);
    RawIdCount(m.tasks);
    NoRepeatsFits(Flatten(ws), RawIds(m.tasks));
    FinishedIsClosed(m, ws);
  }

  lemma NothingSkipped(m: Manifest, st: State, done: seq<string>)
    requires Progress(m, st, done)
    ensures Decide(m, st).skipped.Keys == {}
  {
    hide Progress, Chosen;
    ProgressIsQuiet(m, st, done);
  }

  lemma MarkOne(m: Manifest, st: State, done: seq<string>, ready: seq<string>, k: nat)
    requires k < |ready| && Progress(m, st, done + ready[..k])
    requires NoRepeats(done + ready) && forall id :: id in ready ==> id in RawIds(m.tasks)
    ensures Progress(m, st[ready[k] := Succeeded], done + ready[..k + 1])
  {
    var before, after := done + ready[..k], done + ready[..k + 1];
    assert after == before + [ready[k]];
    assert after <= done + ready;
    assert forall i :: 0 <= i < |after| ==> after[i] == (done + ready)[i];
  }

  lemma PlanGrows(m: Manifest, st: State, ws: seq<seq<string>>, wave: seq<string>)
    requires Progress(m, st, Flatten(ws) + wave) && wave != []
    requires DependenciesEarlier(m, ws + [wave]) && RunsTogether(m, wave)
    requires |ws| <= |Flatten(ws)| && forall w :: 0 <= w < |ws| ==> RunsTogether(m, ws[w])
    ensures PlannedSoFar(m, st, ws + [wave]) && Flatten(ws + [wave]) == Flatten(ws) + wave
  {
    hide RunsTogether, Progress, DependenciesEarlier;
    assert (ws + [wave])[..|ws|] == ws;
  }

  lemma DecidedGrows(m: Manifest, st: State, ws: seq<seq<string>>)
    requires Progress(m, st, Flatten(ws)) && forall w :: 0 <= w < |ws| ==> Decided(m, ws, w)
    ensures forall w :: 0 <= w <= |ws| ==> Decided(m, ws + [Decide(m, st).ready], w)
  {
    hide Progress, Decide;
    var longer := ws + [Decide(m, st).ready];
    forall w | 0 <= w <= |ws|
      ensures Decided(m, longer, w)
    {
      assert longer[..w] == ws[..w];
      if w < |ws| {
        assert Decided(m, ws, w) && longer[w] == ws[w];
      } else {
        assert ws[..w] == ws;
      }
    }
  }

  lemma StuckOnlyIfOpen(m: Manifest, st: State, ws: seq<seq<string>>)
    requires Accepts(m) && PlannedSoFar(m, st, ws) && Decide(m, st).ready == []
    requires |Flatten(ws)| < |m.tasks|
    ensures !Closed(m)
  {
    hide Decide, RunsTogether, TaskWellFormed;
    AcceptedIdsDistinct(m);
    RawIdCount(m.tasks);
    if Closed(m) {
      assert exists id :: id in RawIds(m.tasks) && id !in Flatten(ws) by {
        if forall id :: id in RawIds(m.tasks) ==> id in Flatten(ws) {
          CoveredNeedsLength(Flatten(ws), RawIds(m.tasks));
        }
      }
      NeverDeadlocked(m, st, Flatten(ws));
    }
  }

  lemma {:induction false} CoveredNeedsLength(p: seq<string>, s: set<string>)
    requires forall id :: id in s ==> id in p
    ensures |s| <= |p|
  {
    if p != [] {
      CoveredNeedsLength(p[1..], s - {p[0]});
    }
  }

  lemma {:induction false} FlattenPrefix(ws: seq<seq<string>>, w: nat)
    requires w <= |ws|
    ensures forall id :: id in Flatten(ws[..w]) ==> id in Flatten(ws)
    ensures forall id :: id in Flatten(ws) ==> exists k :: 0 <= k < |ws| && id in ws[k]
  {
    if w < |ws| {
      FlattenPrefix(ws[..|ws| - 1], w);
      assert ws[..|ws| - 1][..w] == ws[..w];
    } else {
      assert ws[..w] == ws;
      if w > 0 {
        FlattenPrefix(ws[..w - 1], w - 1);
      }
    }
  }

  lemma FinishedIsClosed(m: Manifest, ws: seq<seq<string>>)
    requires ListsEachTaskOnce(m, ws) && DependenciesEarlier(m, ws)
    ensures Closed(m)
  {
    forall i, d | 0 <= i < |m.tasks| && d in m.tasks[i].dependsOn
      ensures d in RawIds(m.tasks)
    {
      assert m.tasks[i].id in RawIds(m.tasks);
      FlattenPrefix(ws, |ws|);
      var w :| 0 <= w < |ws| && m.tasks[i].id in ws[w];
      FlattenPrefix(ws, w);
    }
  }

  // ---- When a manifest is closed

  /** Ids that are their own trim make every manifest with known dependencies closed. */
  lemma TrimmedIdsAreClosed(m: Manifest)
    requires DependenciesKnown(m) && forall i :: 0 <= i < |m.tasks| ==> m.tasks[i].id == TrimmedId(m.tasks[i])
    ensures Closed(m)
  {
    hide TaskWellFormed, TrimmedId;
    GraphOfKeys(m.tasks);
    forall i, d | 0 <= i < |m.tasks| && d in m.tasks[i].dependsOn
      ensures d in RawIds(m.tasks)
    {
      assert ListKnown(GraphOf(m.tasks), m.tasks[i]);
      assert HasKey(m.tasks, d);
      var j :| 0 <= j < |m.tasks| && TrimmedId(m.tasks[j]) == d;
      assert m.tasks[j].id == d;
    }
  }

  function TwoTasks(first: string, second: string, dependency: string, owns: seq<string>): Manifest {
    var unit := Resources(1.0, 1);
    Manifest(1, unit, [Task(first, owns, [], unit), Task(second, owns, [dependency], unit)])
  }

  /** Whatever id is spelled with white space at an edge, Validate accepts a dependency on its trim that is never met. */
  lemma PaddedIdsAreOpen(padded: string, other: string, owns: seq<string>)
    requires TrimSpace(padded) != padded && TrimSpace(padded) != "" && TrimSpace(padded) != other
    requires TrimSpace(other) == other && other != "" && owns != [] && !Ownership.HasMalformed(owns)
    ensures Accepts(TwoTasks(padded, other, TrimSpace(padded), owns))
    ensures !Closed(TwoTasks(padded, other, TrimSpace(padded), owns))
  {
    hide TrimSpace, Ownership.HasMalformed;
    var id := TrimSpace(padded);
    TrimSpaceIdempotent(padded);
    var m := TwoTasks(padded, other, id, owns);
    var one := m.tasks[..1];
    assert one[..0] == [] && GraphOf(one) == map[id := []];
    var g := GraphOf(m.tasks);
    assert g == map[id := [], other := [id]];
    assert m.tasks[0].id == padded && m.tasks[1].id == other;
    assert forall raw :: raw in RawIds(m.tasks) ==> raw == padded || raw == other;
    var order := [id, other, padded];
    assert order[..1] == [id];
    TopologicalHasNoLasso(g, order, RawIds(m.tasks));
    assert id in m.tasks[1].dependsOn && id !in RawIds(m.tasks);
  }

  lemma PaddedExample()
    ensures Accepts(TwoTasks(" a", "b", "a", ["x"])) && !Closed(TwoTasks(" a", "b", "a", ["x"]))
  {
    hide Accepts, Closed, Ownership.NormalizeOwnership, NormalizePattern;
    assert TrimSpace(" a") == "a" && TrimSpace("b") == "b" by {
      assert " a"[1..] == "a";
      TrimSpaceKeeps("a");
      TrimSpaceKeeps("b");
    }
    Ownership.LetterOwns("x");
    PaddedIdsAreOpen(" a", "b", ["x"]);
  }

  function DependsOnItsTrim(id: string, owns: seq<string>): Manifest {
    var unit := Resources(1.0, 1);
    Manifest(1, unit, [Task(id, owns, [TrimSpace(id)], unit)])
  }

  /** Any id with white space at an edge hides a cycle: a task that depends on its own trim is accepted. */
  lemma PaddedSelfDependencyIsAccepted(id: string, owns: seq<string>)
    requires TrimSpace(id) != id && TrimSpace(id) != "" && owns != [] && !Ownership.HasMalformed(owns)
    ensures Accepts(DependsOnItsTrim(id, owns)) && Cyclic(GraphOf(DependsOnItsTrim(id, owns).tasks))
  {
    hide TrimSpace, Ownership.HasMalformed;
    var m, key := DependsOnItsTrim(id, owns), TrimSpace(id);
    var t := m.tasks[0];
    TableOneMore([], t);
    assert m.tasks == [] + [t] && t.id == id;
    var g := GraphOf(m.tasks);
    assert g == map[key := [key]];
    assert Cycle(g, [key, key]);
    forall p | Lasso(g, p)
      ensures p[0] !in RawIds(m.tasks)
    {
      assert p[0 + 1] in Deps(g, p[0]);
    }
  }

  function TwoPadded(): Manifest {
    var unit := Resources(1.0, 1);
    Manifest(1, unit, [Task(" a", ["x"], ["b"], unit), Task(" b", ["x"], ["a"], unit)])
  }

  /** Padded ids also hide a cycle from the search: these two tasks depend on each other and are accepted. */
  lemma PaddedCycleIsAccepted()
    ensures Accepts(TwoPadded()) && Cyclic(GraphOf(TwoPadded().tasks))
  {
    hide Accepts, Ownership.NormalizeOwnership, NormalizePattern;
    var m := TwoPadded();
    assert TrimSpace(" a") == "a" && TrimSpace(" b") == "b" by {
      assert " a"[1..] == "a" && " b"[1..] == "b";
      TrimSpaceKeeps("a");
      TrimSpaceKeeps("b");
    }
    hide TrimSpace;
    Ownership.LetterOwns("x");
    var one := m.tasks[..1];
    assert one[..0] == [] && GraphOf(one) == map["a" := ["b"]];
    var g := GraphOf(m.tasks);
    assert g == map["a" := ["b"], "b" := ["a"]];
    assert Cycle(g, ["a", "b", "a"]);
    HiddenCycle(m, g);
  }

  lemma HiddenCycle(m: Manifest, g: Graph)
    requires m == TwoPadded() && GraphOf(m.tasks) == g == map["a" := ["b"], "b" := ["a"]]
    requires TrimSpace(" a") == "a" && TrimSpace(" b") == "b" && Ownership.Normalizes("x")
    ensures Accepts(m)
  {
    hide TrimSpace, Ownership.NormalizeOwnership;
    assert m.tasks[0].id == " a" && m.tasks[1].id == " b";
    forall p | Lasso(g, p)
      ensures p[0] !in RawIds(m.tasks)
    {
      assert p[0 + 1] in Deps(g, p[0]);
    }
  }
}
