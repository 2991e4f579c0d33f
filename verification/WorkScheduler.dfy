/** Work items scheduled through the task scheduler: cost takes the place of CPU. */
module WorkScheduler {
  import opened Wrappers
  import opened Graphs
  import Ownership
  import Scheduler
  import Waves
  import opened Admission
  import opened WorkItems

  type Task = Scheduler.Task
  type Manifest = Scheduler.Manifest
  type State = Scheduler.State

  datatype WorkError =
    | NoItems | CostBudgetNotPositive | NoCurrentTime
    | InvalidItem(index: nat) | DraftItem(index: nat)
    | InvalidManifest(error: Scheduler.ValidationError)

  function TaskOf(w: WorkItem): Task {
    Scheduler.Task(w.id, w.ownershipPaths, w.dependsOn, Scheduler.Resources(w.cost as real, 1))
  }

  function TasksOf(items: seq<WorkItem>): (ts: seq<Task>)
    ensures |ts| == |items| && forall i :: 0 <= i < |items| ==> ts[i] == TaskOf(items[i])
  {
    seq(|items|, i requires 0 <= i < |items| => TaskOf(items[i]))
  }

  function ManifestOf(items: seq<WorkItem>, maxCost: int): Manifest {
    Scheduler.Manifest(|items|, Scheduler.Resources(maxCost as real, |items|), TasksOf(items))
  }

  /** The scheduling status a work item has at an instant. */
  function StatusAt(w: WorkItem, now: Time): Scheduler.Status {
    match w.state
    case Ready => Scheduler.Pending
    case Claimed => if HasActiveLease(w, now) then Scheduler.Running else Scheduler.Pending
    case Implementing => Scheduler.Running
    case Verifying => Scheduler.Running
    case Reviewing => Scheduler.Running
    case ReadyToLand => Scheduler.Running
    case Landed => Scheduler.Succeeded
    case Failed => Scheduler.Failed
    case Cancelled => Scheduler.Skipped
    case Draft => Scheduler.Unset
    case UnknownState(_) => Scheduler.Unset
  }

  // ---- What the work states mean for scheduling

  /** Under way, or claimed under a live lease: the item occupies its cost and its paths. */
  predicate ActiveAt(w: WorkItem, now: Time) {
    w.state in {Implementing, Verifying, Reviewing, ReadyToLand} || (w.state == Claimed && HasActiveLease(w, now))
  }

  /** Ready, or claimed under a lease that has lapsed. */
  predicate WaitsAt(w: WorkItem, now: Time) {
    w.state == Ready || (w.state == Claimed && !HasActiveLease(w, now))
  }

  predicate GivenUp(w: WorkItem) {
    w.state == Failed || w.state == Cancelled
  }

  /** Every item that can be scheduled is in one of these four situations, and its status says in which. */
  lemma StatusMeans(w: WorkItem, now: Time)
    ensures StatusAt(w, now) == Scheduler.Running <==> ActiveAt(w, now)
    ensures StatusAt(w, now) == Scheduler.Pending <==> WaitsAt(w, now)
    ensures StatusAt(w, now) == Scheduler.Succeeded <==> w.state == Landed
    ensures StatusAt(w, now) in {Scheduler.Failed, Scheduler.Skipped} <==> GivenUp(w)
    ensures Schedulable(w) ==> StatusAt(w, now) != Scheduler.Unset
    ensures ClaimableAt(w, now) <==> WaitsAt(w, now)
  {
  }

  function StateAt(items: seq<WorkItem>, now: Time): State {
    if items == [] then map[]
    else StateAt(items[..|items| - 1], now)[items[|items| - 1].id := StatusAt(items[|items| - 1], now)]
  }

  predicate Schedulable(w: WorkItem) {
    WellFormed(w) && w.state != Draft
  }

  ghost predicate WorkAccepted(items: seq<WorkItem>, maxCost: int, now: Time) {
    && items != [] && maxCost > 0 && now != 0
    && (forall i :: 0 <= i < |items| ==> Schedulable(items[i]))
    && Scheduler.Accepts(ManifestOf(items, maxCost))
  }

  function WorkDecision(items: seq<WorkItem>, maxCost: int, now: Time): Scheduler.Decision {
    Decide(ManifestOf(items, maxCost), StateAt(items, now))
  }

  method NextWork(items: seq<WorkItem>, maxCost: int, now: Time) returns (r: Result<Scheduler.Decision, WorkError>)
    ensures r.Success? <==> WorkAccepted(items, maxCost, now)
    ensures r.Success? ==> r.value == WorkDecision(items, maxCost, now)
  {
    hide WellFormed, Scheduler.Accepts, Decide;
    if items == [] {
      return Failure(NoItems);
    }
    if maxCost <= 0 {
      return Failure(CostBudgetNotPositive);
    }
    if now == 0 {
      return Failure(NoCurrentTime);
    }
    var tasks: seq<Task> := [];
    var state: State := map[];
    for i := 0 to |items|
      invariant tasks == TasksOf(items[..i]) && state == StateAt(items[..i], now)
      invariant forall k :: 0 <= k < i ==> Schedulable(items[k])
    {
      var item := items[i];
      var ok := Validate(item);
      if !ok {
        return Failure(InvalidItem(i));
      }
      if item.state == Draft {
        return Failure(DraftItem(i));
      }
      assert items[..i + 1][..i] == items[..i];
      tasks := tasks + [TaskOf(item)];
      state := state[item.id := StatusAt(item, now)];
    }
    assert items[..|items|] == items;
    var decision := Next(Scheduler.Manifest(|items|, Scheduler.Resources(maxCost as real, |items|), tasks), state);
    if decision.Failure? {
      return Failure(InvalidManifest(decision.error));
    }
    return Success(decision.value);
  }

  // ---- Lookups by id

  predicate ItemIdsDistinct(items: seq<WorkItem>) {
    forall i, j :: 0 <= i < j < |items| ==> items[i].id != items[j].id
  }

  lemma {:induction false} StateAtLookup(items: seq<WorkItem>, now: Time)
    ensures forall id :: id in StateAt(items, now) <==> exists i :: 0 <= i < |items| && items[i].id == id
    ensures ItemIdsDistinct(items) ==> forall i :: 0 <= i < |items| ==>
              items[i].id in StateAt(items, now) && StateAt(items, now)[items[i].id] == StatusAt(items[i], now)
  {
    hide StatusAt;
    if items != [] {
      var init, last := items[..|items| - 1], items[|items| - 1];
      StateAtLookup(init, now);
      assert items == init + [last];
      forall id
        ensures id in StateAt(items, now) <==> exists i :: 0 <= i < |items| && items[i].id == id
      {
        if id in StateAt(init, now) {
          var i :| 0 <= i < |init| && init[i].id == id;
          assert items[i].id == id;
        }
        if exists i :: 0 <= i < |items| && items[i].id == id {
          var i :| 0 <= i < |items| && items[i].id == id;
          assert i < |init| ==> init[i].id == id;
        }
      }
      forall i | 0 <= i < |init| && ItemIdsDistinct(items)
        ensures items[i].id in StateAt(items, now) && StateAt(items, now)[items[i].id] == StatusAt(items[i], now)
      {
        assert init[i] == items[i] && items[i].id != last.id;
      }
    }
  }

  lemma AcceptedItemIds(items: seq<WorkItem>, maxCost: int, now: Time)
    requires WorkAccepted(items, maxCost, now)
    ensures ItemIdsDistinct(items) && IdsDistinct(TasksOf(items))
  {
    hide Scheduler.Accepts, Schedulable;
    var m := ManifestOf(items, maxCost);
    AcceptedIdsDistinct(m);
    forall i, j | 0 <= i < j < |items|
      ensures items[i].id != items[j].id
    {
      assert m.tasks[i].id == items[i].id && m.tasks[j].id == items[j].id;
    }
  }

  // ---- The cost-only scheduler it refines

  predicate LandedId(items: seq<WorkItem>, id: string) {
    exists j :: 0 <= j < |items| && items[j].id == id && items[j].state == Landed
  }

  /** Waiting, with every dependency landed. */
  predicate Startable(items: seq<WorkItem>, w: WorkItem, now: Time) {
    WaitsAt(w, now) && forall d :: d in w.dependsOn ==> LandedId(items, d)
  }

  function ActiveItems(items: seq<WorkItem>, now: Time): seq<WorkItem> {
    if items == [] then []
    else
      var rest, last := ActiveItems(items[..|items| - 1], now), items[|items| - 1];
      if ActiveAt(last, now) then rest + [last] else rest
  }

  function CostOf(ws: seq<WorkItem>): int {
    if ws == [] then 0 else CostOf(ws[..|ws| - 1]) + ws[|ws| - 1].cost
  }

  predicate ClashesWithAny(w: WorkItem, others: seq<WorkItem>) {
    exists k :: 0 <= k < |others| && Ownership.Conflict(w.ownershipPaths, others[k].ownershipPaths)
  }

  /** Greedy over cost and ownership alone: no memory, no parallel limit. */
  function CostChosen(items: seq<WorkItem>, maxCost: int, now: Time, n: nat): seq<WorkItem>
    requires n <= |items|
  {
    if n == 0 then []
    else
      var before, w := CostChosen(items, maxCost, now, n - 1), items[n - 1];
      var taken := ActiveItems(items, now) + before;
      if Startable(items, w, now) && CostOf(taken) + w.cost <= maxCost && !ClashesWithAny(w, taken)
      then before + [w] else before
  }

  lemma {:induction false} ActiveTasks(items: seq<WorkItem>, all: seq<WorkItem>, now: Time)
    requires items <= all && ItemIdsDistinct(all)
    ensures RunningTasks(TasksOf(items), StateAt(all, now)) == TasksOf(ActiveItems(items, now))
  {
    hide StatusAt, ActiveAt;
    if items != [] {
      var init, last := items[..|items| - 1], items[|items| - 1];
      ActiveTasks(init, all, now);
      StatusMeans(last, now);
      StateAtLookup(all, now);
      assert all[|items| - 1] == last;
      assert TasksOf(items)[..|items| - 1] == TasksOf(init);
      assert TasksOf(ActiveItems(init, now) + [last]) == TasksOf(ActiveItems(init, now)) + [TaskOf(last)];
    }
  }

  lemma {:induction false} CostIsTotal(ws: seq<WorkItem>)
    ensures Total(TasksOf(ws)).cpu == CostOf(ws) as real && Total(TasksOf(ws)).memoryMB == |ws|
  {
    if ws != [] {
      var init := ws[..|ws| - 1];
      CostIsTotal(init);
      assert TasksOf(ws)[..|ws| - 1] == TasksOf(init);
    }
  }

  lemma StartableIsEligible(items: seq<WorkItem>, w: WorkItem, now: Time)
    requires ItemIdsDistinct(items) && w in items
    requires forall i :: 0 <= i < |items| ==> Schedulable(items[i])
    ensures Startable(items, w, now) <==> Eligible(StateAt(items, now), TaskOf(w))
  {
    hide Schedulable, WaitsAt, StatusAt, StateAt;
    StateAtLookup(items, now);
    StatusMeans(w, now);
    var st := StateAt(items, now);
    forall i | 0 <= i < |items|
      ensures StatusOf(st, items[i].id) == StatusAt(items[i], now)
      ensures StatusAt(items[i], now) == Scheduler.Succeeded <==> items[i].state == Landed
    {
      assert Schedulable(items[i]);
      StatusMeans(items[i], now);
    }
    forall d
      ensures LandedId(items, d) <==> StatusOf(st, d) == Scheduler.Succeeded
    {
      if StatusOf(st, d) == Scheduler.Succeeded {
        var j :| 0 <= j < |items| && items[j].id == d;
      }
    }
  }

  lemma {:induction false} RunningDistinct(ts: seq<Task>, st: State)
    requires IdsDistinct(ts)
    ensures IdsDistinct(RunningTasks(ts, st))
  {
    if ts != [] {
      var init, last := ts[..|ts| - 1], ts[|ts| - 1];
      RunningDistinct(init, st);
      RunningComeFromTasks(init, st);
      var rest := RunningTasks(init, st);
      forall k | 0 <= k < |rest|
        ensures rest[k].id != last.id
      {
        assert rest[k] in rest;
        var i :| 0 <= i < |init| && init[i] == rest[k];
        assert ts[i].id != last.id;
      }
    }
  }

  /** Running tasks, those admitted so far and the next eligible one are different tasks, so a slot is free. */
  lemma SlotIsFree(m: Manifest, st: State, n: nat)
    requires n < |m.tasks| && IdsDistinct(m.tasks) && Eligible(st, m.tasks[n])
    ensures |RunningTasks(m.tasks, st)| + |Chosen(m, st, n)| < |m.tasks|
  {
    hide Room;
    var run, before := RunningTasks(m.tasks, st), Chosen(m, st, n);
    RunningDistinct(m.tasks, st);
    RunningComeFromTasks(m.tasks, st);
    ChosenComeFromTasks(m, st, n);
    var ids := Ids(run) + Ids(before) + [m.tasks[n].id];
    forall k | 0 <= k < |run|
      ensures run[k].id in Scheduler.RawIds(m.tasks) && StatusOf(st, run[k].id) == Scheduler.Running
    {
      assert run[k] in run;
      var i :| 0 <= i < |m.tasks| && m.tasks[i] == run[k];
    }
    forall k | 0 <= k < |before|
      ensures before[k].id in Scheduler.RawIds(m.tasks) && before[k].id != m.tasks[n].id
      ensures StatusOf(st, before[k].id) == Scheduler.Pending
    {
      var i :| 0 <= i < n && m.tasks[i] == before[k];
    }
    assert NoRepeats(ids);
    Waves.NoRepeatsFits(ids, Scheduler.RawIds(m.tasks));
    Waves.RawIdCount(m.tasks);
  }

  /** With a slot free, room for a work item is room in the cost budget and no clash. */
  lemma RoomIsCost(items: seq<WorkItem>, maxCost: int, taken: seq<WorkItem>, w: WorkItem)
    requires |taken| < |items|
    ensures Room(ManifestOf(items, maxCost), TasksOf(taken), TaskOf(w))
            <==> CostOf(taken) + w.cost <= maxCost && !ClashesWithAny(w, taken)
  {
    hide Total, ConflictsAny, ClashesWithAny, CostOf;
    CostIsTotal(taken);
    SameClashes(w, taken);
    assert (CostOf(taken) as real) + (w.cost as real) == (CostOf(taken) + w.cost) as real;
  }

  lemma SameClashes(w: WorkItem, others: seq<WorkItem>)
    ensures ConflictsAny(TaskOf(w), TasksOf(others)) <==> ClashesWithAny(w, others)
  {
    hide Ownership.Conflict;
    if ClashesWithAny(w, others) {
      var k :| 0 <= k < |others| && Ownership.Conflict(w.ownershipPaths, others[k].ownershipPaths);
      assert TasksOf(others)[k].owns == others[k].ownershipPaths;
    }
  }

  lemma AdmissionAgrees(items: seq<WorkItem>, maxCost: int, now: Time, n: nat, before: seq<WorkItem>)
    requires WorkAccepted(items, maxCost, now) && n < |items|
    requires Chosen(ManifestOf(items, maxCost), StateAt(items, now), n) == TasksOf(before)
    ensures var m, st, t := ManifestOf(items, maxCost), StateAt(items, now), TaskOf(items[n]);
            var taken := ActiveItems(items, now) + before;
            Eligible(st, t) && Room(m, RunningTasks(m.tasks, st) + TasksOf(before), t)
            <==> Startable(items, items[n], now) && CostOf(taken) + items[n].cost <= maxCost && !ClashesWithAny(items[n], taken)
  {
    hide Scheduler.Accepts, Schedulable, Eligible, Startable, RunningTasks, ActiveItems, Room, ClashesWithAny, CostOf,
      StateAt, Chosen;
    var m, st := ManifestOf(items, maxCost), StateAt(items, now);
    var active, w := ActiveItems(items, now), items[n];
    AcceptedItemIds(items, maxCost, now);
    ActiveTasks(items, items, now);
    assert TasksOf(active + before) == TasksOf(active) + TasksOf(before);
    StartableIsEligible(items, w, now);
    assert m.tasks[n] == TaskOf(w);
    if Startable(items, w, now) {
      SlotIsFree(m, st, n);
      RoomIsCost(items, maxCost, active + before, w);
    }
  }

  /** What one more item does to both batches, once the batches before it agree. */
  lemma BatchesAdvance(items: seq<WorkItem>, maxCost: int, now: Time, n: nat, before: seq<WorkItem>, admitted: bool)
    requires 0 < n <= |items| && CostChosen(items, maxCost, now, n - 1) == before
    requires var w, taken := items[n - 1], ActiveItems(items, now) + before;
             admitted <==> Startable(items, w, now) && CostOf(taken) + w.cost <= maxCost && !ClashesWithAny(w, taken)
    ensures CostChosen(items, maxCost, now, n) == if admitted then before + [items[n - 1]] else before
    ensures TasksOf(before + [items[n - 1]]) == TasksOf(before) + [TaskOf(items[n - 1])]
  {
  }

  lemma ChosenAdvances(m: Manifest, st: State, n: nat, admitted: bool)
    requires 0 < n <= |m.tasks|
    requires var before, t := Chosen(m, st, n - 1), m.tasks[n - 1];
             admitted <==> Eligible(st, t) && Room(m, RunningTasks(m.tasks, st) + before, t)
    ensures Chosen(m, st, n) == Chosen(m, st, n - 1) + if admitted then [m.tasks[n - 1]] else []
  {
  }

  lemma BatchesStayEqual(items: seq<WorkItem>, maxCost: int, now: Time, n: nat)
    requires WorkAccepted(items, maxCost, now) && 0 < n <= |items|
    requires Chosen(ManifestOf(items, maxCost), StateAt(items, now), n - 1) == TasksOf(CostChosen(items, maxCost, now, n - 1))
    ensures Chosen(ManifestOf(items, maxCost), StateAt(items, now), n) == TasksOf(CostChosen(items, maxCost, now, n))
  {
    hide WorkAccepted, Startable, Eligible, Room, CostOf, ClashesWithAny, Chosen, CostChosen, ActiveItems, RunningTasks, StateAt;
    var before, w := CostChosen(items, maxCost, now, n - 1), items[n - 1];
    var taken := ActiveItems(items, now) + before;
    var admitted := Startable(items, w, now) && CostOf(taken) + w.cost <= maxCost && !ClashesWithAny(w, taken);
    AdmissionAgrees(items, maxCost, now, n - 1, before);
    BatchesAdvance(items, maxCost, now, n, before, admitted);
    ChosenAdvances(ManifestOf(items, maxCost), StateAt(items, now), n, admitted);
  }

  /** Neither the memory test nor the parallel limit ever decides: the batch is the cost-only greedy one. */
  lemma {:induction false} AdapterIsCostOnly(items: seq<WorkItem>, maxCost: int, now: Time, n: nat)
    requires WorkAccepted(items, maxCost, now) && n <= |items|
    ensures Chosen(ManifestOf(items, maxCost), StateAt(items, now), n) == TasksOf(CostChosen(items, maxCost, now, n))
  {
    hide WorkAccepted;
    if n > 0 {
      AdapterIsCostOnly(items, maxCost, now, n - 1);
      BatchesStayEqual(items, maxCost, now, n);
    }
  }
}
