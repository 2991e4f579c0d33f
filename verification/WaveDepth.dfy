/** How many waves a plan has: chains of dependencies from below, and exactly when nothing else holds tasks back. */
module WaveDepth {
  import opened Graphs
  import opened Scheduler
  import opened Admission
  import opened Waves
  import Ownership

  predicate DependsOn(m: Manifest, a: string, b: string) {
    exists i :: 0 <= i < |m.tasks| && m.tasks[i].id == a && b in m.tasks[i].dependsOn
  }

  /** Tasks each of which depends on the next. */
  predicate Chain(m: Manifest, p: seq<string>) {
    && p != [] && (forall k :: 0 <= k < |p| ==> p[k] in RawIds(m.tasks))
    && forall k :: 0 <= k < |p| - 1 ==> DependsOn(m, p[k], p[k + 1])
  }

  // ---- Chains need waves

  lemma InSomeWave(ws: seq<seq<string>>, n: nat, id: string) returns (w: nat)
    requires n <= |ws| && id in Flatten(ws[..n])
    ensures w < n && id in ws[w]
  {
    FlattenPrefix(ws[..n], n);
    w :| 0 <= w < |ws[..n]| && id in ws[..n][w];
  }

  /** A chain that starts in wave w is no longer than the waves up to w. */
  lemma {:induction false} ChainFitsWaves(m: Manifest, ws: seq<seq<string>>, p: seq<string>, w: nat)
    requires DependenciesEarlier(m, ws) && Chain(m, p) && w < |ws| && p[0] in ws[w]
    ensures |p| <= w + 1
    decreases |p|
  {
    if |p| > 1 {
      assert DependsOn(m, p[0], p[0 + 1]);
      var v := InSomeWave(ws, w, p[1]);
      var rest := p[1..];
      forall k | 0 <= k < |rest| - 1
        ensures DependsOn(m, rest[k], rest[k + 1])
      {
        assert DependsOn(m, p[k + 1], p[k + 1 + 1]);
      }
      ChainFitsWaves(m, ws, rest, v);
    }
  }

  /** Whatever the limits, a plan has at least as many waves as the longest chain has tasks. */
  lemma WavesCoverChains(m: Manifest, ws: seq<seq<string>>, p: seq<string>)
    requires Plan(m, ws) && Chain(m, p)
    ensures |p| <= |ws|
  {
    hide Accepts, Decided, RunsTogether, DependenciesEarlier;
    assert ws[..|ws|] == ws;
    var w := InSomeWave(ws, |ws|, p[0]);
    ChainFitsWaves(m, ws, p, w);
  }

  // ---- With room for everything waves are depths

  /** All tasks together fit the limits, and none clashes with another. */
  predicate Roomy(m: Manifest) {
    && |m.tasks| <= m.maxParallel && Within(Total(m.tasks), m.capacity)
    && forall i, j :: 0 <= j < i < |m.tasks| ==> !Ownership.Conflict(m.tasks[i].owns, m.tasks[j].owns)
  }

  lemma GrowsWithin(a: seq<Task>, b: seq<Task>, t: Task)
    requires Within(Total(a), Total(b))
    ensures Within(Total(a + [t]), Total(b + [t]))
  {
    TotalGrows(a, t);
    TotalGrows(b, t);
    hide Total;
  }

  lemma StaysWithin(a: seq<Task>, b: seq<Task>, t: Task)
    requires Within(Total(a), Total(b)) && t.resources.cpu > 0.0 && t.resources.memoryMB > 0
    ensures Within(Total(a), Total(b + [t]))
  {
    TotalGrows(b, t);
    hide Total;
  }

  lemma {:induction false} ChosenTotals(m: Manifest, st: State, n: nat)
    requires n <= |m.tasks| && Positive(m.tasks)
    ensures |Chosen(m, st, n)| <= n && Within(Total(Chosen(m, st, n)), Total(m.tasks[..n]))
  {
    hide Eligible, Room, Total, Within;
    if n > 0 {
      var before, t := Chosen(m, st, n - 1), m.tasks[n - 1];
      ChosenTotals(m, st, n - 1);
      GrowsWithin(before, m.tasks[..n - 1], t);
      StaysWithin(before, m.tasks[..n - 1], t);
      assert m.tasks[..n] == m.tasks[..n - 1] + [t];
    } else {
      NoTotals(m);
    }
  }

  lemma NoTotals(m: Manifest)
    ensures Within(Total([]), Total(m.tasks[..0]))
  {
    assert m.tasks[..0] == [];
  }

  lemma PrefixTotals(m: Manifest, n: nat)
    requires n <= |m.tasks| && Positive(m.tasks)
    ensures Within(Total(m.tasks[..n]), Total(m.tasks))
  {
    assert m.tasks == m.tasks[..n] + m.tasks[n..];
    TotalOfConcat(m.tasks[..n], m.tasks[n..]);
    TotalNotNegative(m.tasks[n..]);
  }

  lemma FitsWithin(before: seq<Task>, prefix: seq<Task>, t: Task, all: seq<Task>, capacity: Resources)
    requires Within(Total(before), Total(prefix)) && Within(Total(prefix + [t]), Total(all)) && Within(Total(all), capacity)
    ensures Fits(Total(before), t, capacity)
  {
    TotalGrows(prefix, t);
    hide Total;
  }

  lemma FitsEach(m: Manifest, st: State, i: nat)
    requires Within(Total(m.tasks), m.capacity) && Positive(m.tasks) && i < |m.tasks|
    ensures Fits(Total(Chosen(m, st, i)), m.tasks[i], m.capacity)
  {
    hide Total, Chosen, Within, Fits, Positive;
    ChosenTotals(m, st, i);
    PrefixTotals(m, i + 1);
    assert m.tasks[..i + 1] == m.tasks[..i] + [m.tasks[i]];
    FitsWithin(Chosen(m, st, i), m.tasks[..i], m.tasks[i], m.tasks, m.capacity);
  }

  lemma NoClashEach(m: Manifest, st: State, i: nat)
    requires Roomy(m) && IdsDistinct(m.tasks) && i < |m.tasks|
    ensures !ConflictsAny(m.tasks[i], Chosen(m, st, i))
  {
    ChosenComeFromTasks(m, st, i);
    hide Ownership.Conflict, Eligible, Chosen;
  }

  lemma RoomForEach(m: Manifest, st: State, i: nat)
    requires Roomy(m) && Positive(m.tasks) && IdsDistinct(m.tasks) && i < |m.tasks|
    ensures Room(m, Chosen(m, st, i), m.tasks[i])
  {
    ChosenTotals(m, st, i);
    FitsEach(m, st, i);
    NoClashEach(m, st, i);
    hide Ownership.Conflict, Chosen, Fits, ConflictsAny, Total, Within;
  }

  lemma AcceptedIsPositive(m: Manifest)
    requires Accepts(m)
    ensures Positive(m.tasks)
  {
    hide TrimmedId, Ownership.HasMalformed;
  }

  lemma ListedIsChosen(m: Manifest, st: State, i: nat)
    requires IdsDistinct(m.tasks) && i < |m.tasks|
    ensures m.tasks[i].id in Decide(m, st).ready <==> m.tasks[i] in Chosen(m, st, |m.tasks|)
  {
    ChosenComeFromTasks(m, st, |m.tasks|);
    hide Chosen, Eligible, SkippedIds;
    var all := Chosen(m, st, |m.tasks|);
    if m.tasks[i].id in Ids(all) {
      var k :| 0 <= k < |all| && all[k].id == m.tasks[i].id;
      var j :| 0 <= j < |m.tasks| && m.tasks[j] == all[k];
      assert j == i;
    }
    if m.tasks[i] in all {
      var k :| 0 <= k < |all| && all[k] == m.tasks[i];
      assert Ids(all)[k] == m.tasks[i].id;
    }
  }

  /** With room for everything a decision takes every eligible task. */
  lemma RoomyTakesEligible(m: Manifest, st: State, done: seq<string>, i: nat)
    requires Accepts(m) && Roomy(m) && Progress(m, st, done) && i < |m.tasks|
    ensures m.tasks[i].id in Decide(m, st).ready <==> Eligible(st, m.tasks[i])
  {
    AcceptedIdsDistinct(m);
    AcceptedIsPositive(m);
    ProgressIsQuiet(m, st, done);
    hide Accepts, Roomy, Progress, Eligible, Room, Decide, Chosen, RunningTasks;
    RoomForEach(m, st, i);
    assert RunningTasks(m.tasks, st) + Chosen(m, st, i) == Chosen(m, st, i);
    AdmittedExactly(m, st, i);
    ListedIsChosen(m, st, i);
  }

  /** Not yet done, and waiting for nothing. */
  predicate Free(m: Manifest, done: seq<string>, i: nat)
    requires i < |m.tasks|
  {
    m.tasks[i].id !in done && forall d :: d in m.tasks[i].dependsOn ==> d in done
  }

  lemma EligibleIsFree(m: Manifest, st: State, done: seq<string>, i: nat)
    requires Progress(m, st, done) && i < |m.tasks|
    ensures Eligible(st, m.tasks[i]) <==> Free(m, done, i)
  {
    assert m.tasks[i].id in RawIds(m.tasks);
    assert forall d :: StatusOf(st, d) == Succeeded <==> d in done;
    hide RawIds;
  }

  /** Then a wave holds exactly the tasks that are not yet done and wait for nothing. */
  lemma RoomyWave(m: Manifest, ws: seq<seq<string>>, w: nat, i: nat)
    requires Accepts(m) && Roomy(m) && w < |ws| && Decided(m, ws, w) && i < |m.tasks|
    ensures m.tasks[i].id in ws[w] <==> Free(m, Flatten(ws[..w]), i)
  {
    hide Accepts, Roomy, Progress, Decide, Free, Eligible, Flatten;
    var done := Flatten(ws[..w]);
    var st :| Progress(m, st, done) && ws[w] == Decide(m, st).ready;
    RoomyTakesEligible(m, st, done, i);
    EligibleIsFree(m, st, done, i);
  }

  lemma FlattenStep(ws: seq<seq<string>>, w: nat)
    requires w < |ws|
    ensures Flatten(ws[..w + 1]) == Flatten(ws[..w]) + ws[w]
  {
    assert ws[..w + 1][..w] == ws[..w];
  }

  /** A task that is neither done nor free waits for something. */
  lemma NotFreeWaits(m: Manifest, done: seq<string>, i: nat) returns (d: string)
    requires i < |m.tasks| && !Free(m, done, i) && m.tasks[i].id !in done
    ensures d in m.tasks[i].dependsOn && d !in done
  {
    var deps := m.tasks[i].dependsOn;
    var k :| 0 <= k < |deps| && deps[k] !in done;
    d := deps[k];
  }

  /** A task of a later wave depends on one of the wave just before. */
  lemma WaitsForPrevious(m: Manifest, ws: seq<seq<string>>, w: nat, i: nat) returns (d: string)
    requires Plan(m, ws) && Roomy(m) && 0 < w < |ws| && i < |m.tasks| && m.tasks[i].id in ws[w]
    ensures d in m.tasks[i].dependsOn && d in ws[w - 1]
  {
    RoomyWave(m, ws, w, i);
    RoomyWave(m, ws, w - 1, i);
    FlattenStep(ws, w - 1);
    hide Plan, Roomy, Flatten;
    var done, earlier := Flatten(ws[..w]), Flatten(ws[..w - 1]);
    assert done == earlier + ws[w - 1];
    assert Free(m, done, i) && !Free(m, earlier, i);
    assert m.tasks[i].id !in done && m.tasks[i].id !in earlier;
    d := NotFreeWaits(m, earlier, i);
  }

  lemma WaveIsTask(m: Manifest, ws: seq<seq<string>>, w: nat, id: string) returns (i: nat)
    requires ListsEachTaskOnce(m, ws) && w < |ws| && id in ws[w]
    ensures i < |m.tasks| && m.tasks[i].id == id
  {
    FlattenStep(ws, w);
    assert id in Flatten(ws[..w]) + ws[w];
    FlattenPrefix(ws, w + 1);
    hide Flatten;
    assert id in Flatten(ws[..w + 1]) && id in Flatten(ws);
    i :| 0 <= i < |m.tasks| && m.tasks[i].id == id;
  }

  lemma {:induction false} ChainOfDepth(m: Manifest, ws: seq<seq<string>>, w: nat, id: string) returns (p: seq<string>)
    requires Plan(m, ws) && Roomy(m) && w < |ws| && id in ws[w]
    ensures Chain(m, p) && p[0] == id && |p| == w + 1
  {
    hide Plan, Roomy, RawIds;
    var i := PlanTask(m, ws, w, id);
    if w == 0 {
      return [id];
    }
    var d := WaitsForPrevious(m, ws, w, i);
    var rest := ChainOfDepth(m, ws, w - 1, d);
    p := [id] + rest;
    assert DependsOn(m, id, d);
    forall k | 0 <= k < |p| - 1
      ensures DependsOn(m, p[k], p[k + 1])
    {
      assert k > 0 ==> DependsOn(m, rest[k - 1], rest[k - 1 + 1]);
    }
  }

  lemma PlanTask(m: Manifest, ws: seq<seq<string>>, w: nat, id: string) returns (i: nat)
    requires Plan(m, ws) && w < |ws| && id in ws[w]
    ensures i < |m.tasks| && m.tasks[i].id == id && id in RawIds(m.tasks)
  {
    hide Accepts, DependenciesEarlier, Decided, RunsTogether;
    i := WaveIsTask(m, ws, w, id);
  }

  predicate ChainFrom(m: Manifest, p: seq<string>, id: string) {
    Chain(m, p) && p[0] == id
  }

  /** The longest chain from id has n tasks. */
  ghost predicate LongestFrom(m: Manifest, id: string, n: nat) {
    && (exists p :: ChainFrom(m, p, id) && |p| == n)
    && forall p :: ChainFrom(m, p, id) ==> |p| <= n
  }

  lemma ChainFromFits(m: Manifest, ws: seq<seq<string>>, p: seq<string>, w: nat, id: string)
    requires Plan(m, ws) && ChainFrom(m, p, id) && w < |ws| && id in ws[w]
    ensures |p| <= w + 1
  {
    hide Accepts, RunsTogether, Decided, ListsEachTaskOnce;
    ChainFitsWaves(m, ws, p, w);
  }

  /** With room for everything each task is in the wave of its depth. */
  lemma WaveIsDepth(m: Manifest, ws: seq<seq<string>>, w: nat, id: string)
    requires Plan(m, ws) && Roomy(m) && w < |ws| && id in ws[w]
    ensures LongestFrom(m, id, w + 1)
  {
    hide Plan, Roomy, Chain;
    var p := ChainOfDepth(m, ws, w, id);
    assert ChainFrom(m, p, id);
    hide ChainFrom;
    forall q | ChainFrom(m, q, id)
      ensures |q| <= w + 1
    {
      ChainFromFits(m, ws, q, w, id);
    }
  }

  lemma LastWaveNotEmpty(m: Manifest, ws: seq<seq<string>>)
    requires Plan(m, ws) && ws != []
    ensures ws[|ws| - 1] != []
  {
    hide Accepts, Decided, DependenciesEarlier, ListsEachTaskOnce;
    assert RunsTogether(m, ws[|ws| - 1]);
  }

  /** And the plan has exactly as many waves as the longest chain has tasks. */
  lemma WavesAreLongestChain(m: Manifest, ws: seq<seq<string>>)
    requires Plan(m, ws) && Roomy(m) && ws != []
    ensures exists p :: Chain(m, p) && |p| == |ws|
    ensures forall p :: Chain(m, p) ==> |p| <= |ws|
  {
    LastWaveNotEmpty(m, ws);
    hide *;
    var p := ChainOfDepth(m, ws, |ws| - 1, ws[|ws| - 1][0]);
    forall q | Chain(m, q)
      ensures |q| <= |ws|
    {
      WavesCoverChains(m, ws, q);
    }
  }
}
