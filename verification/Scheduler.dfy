/** Task manifests: validation by depth-first search, and the choice of the next batch. */
module Scheduler {
  import opened Wrappers
  import opened Text
  import opened Graphs
  import opened Ownership

  datatype Status = Pending | Running | Succeeded | Failed | Skipped | Unset | Other(name: string)

  datatype Resources = Resources(cpu: real, memoryMB: int)

  datatype Task = Task(id: string, owns: seq<string>, dependsOn: seq<string>, resources: Resources)

  datatype Manifest = Manifest(maxParallel: int, capacity: Resources, tasks: seq<Task>)

  type State = map<string, Status>

  datatype Decision = Decision(ready: seq<string>, skipped: map<string, string>)

  datatype ValidationError =
    | MaxParallelNotPositive
    | CapacityNotPositive
    | NoTasks
    | MissingId(index: nat)
    | DuplicateId(index: nat)
    | ResourcesNotPositive(index: nat)
    | ExceedsCapacity(index: nat)
    | NoOwnership(index: nat)
    | MalformedOwnership(index: nat)
    | SelfDependency(index: nat)
    | UnknownDependency(index: nat, dependency: string)
    | DependencyCycle(at: string)

  // ---- What Validate accepts

  function TrimmedId(t: Task): string {
    TrimSpace(t.id)
  }

  predicate BoundsPositive(m: Manifest) {
    m.maxParallel > 0 && m.capacity.cpu > 0.0 && m.capacity.memoryMB > 0 && m.tasks != []
  }

  predicate TaskWellFormed(m: Manifest, t: Task) {
    && TrimmedId(t) != ""
    && t.resources.cpu > 0.0 && t.resources.memoryMB > 0
    && t.resources.cpu <= m.capacity.cpu && t.resources.memoryMB <= m.capacity.memoryMB
    && t.owns != [] && !HasMalformed(t.owns)
  }

  predicate KeysDistinct(ts: seq<Task>) {
    forall i, j :: 0 <= i < j < |ts| ==> TrimmedId(ts[i]) != TrimmedId(ts[j])
  }

  predicate TasksWellFormed(m: Manifest) {
    && KeysDistinct(m.tasks)
    && forall i :: 0 <= i < |m.tasks| ==> TaskWellFormed(m, m.tasks[i])
  }

  /** The lookup table of dependency lists, keyed by trimmed id. */
  function GraphOf(ts: seq<Task>): Graph {
    if ts == [] then map[]
    else GraphOf(ts[..|ts| - 1])[TrimmedId(ts[|ts| - 1]) := ts[|ts| - 1].dependsOn]
  }

  /** The ids as spelled, which is how the search and every later step look tasks up. */
  function RawIds(ts: seq<Task>): set<string> {
    set i | 0 <= i < |ts| :: ts[i].id
  }

  /** Every dependency is spelled exactly as the id of some task. */
  predicate Closed(m: Manifest) {
    forall i, d :: 0 <= i < |m.tasks| && d in m.tasks[i].dependsOn ==> d in RawIds(m.tasks)
  }

  predicate ListKnown(g: Graph, t: Task) {
    forall d :: d in t.dependsOn ==> d in g && d != t.id
  }

  predicate DependenciesKnown(m: Manifest) {
    forall i :: 0 <= i < |m.tasks| ==> ListKnown(GraphOf(m.tasks), m.tasks[i])
  }

  ghost predicate Accepts(m: Manifest) {
    && BoundsPositive(m) && TasksWellFormed(m) && DependenciesKnown(m)
    && !CycleReachable(GraphOf(m.tasks), RawIds(m.tasks))
  }

  /** What each error says is wrong with the manifest. */
  ghost predicate Justified(m: Manifest, e: ValidationError) {
    match e
    case MaxParallelNotPositive => m.maxParallel <= 0
    case CapacityNotPositive => m.maxParallel > 0 && (m.capacity.cpu <= 0.0 || m.capacity.memoryMB <= 0)
    case NoTasks => m.tasks == []
    case MissingId(i) => i < |m.tasks| && TrimmedId(m.tasks[i]) == ""
    case DuplicateId(i) => i < |m.tasks| && exists j :: 0 <= j < i && TrimmedId(m.tasks[j]) == TrimmedId(m.tasks[i])
    case ResourcesNotPositive(i) =>
      i < |m.tasks| && (m.tasks[i].resources.cpu <= 0.0 || m.tasks[i].resources.memoryMB <= 0)
    case ExceedsCapacity(i) =>
      && i < |m.tasks|
      && (m.tasks[i].resources.cpu > m.capacity.cpu || m.tasks[i].resources.memoryMB > m.capacity.memoryMB)
    case NoOwnership(i) => i < |m.tasks| && m.tasks[i].owns == []
    case MalformedOwnership(i) => i < |m.tasks| && HasMalformed(m.tasks[i].owns)
    case SelfDependency(i) => TasksWellFormed(m) && i < |m.tasks| && m.tasks[i].id in m.tasks[i].dependsOn
    case UnknownDependency(i, d) =>
      TasksWellFormed(m) && i < |m.tasks| && d in m.tasks[i].dependsOn && d !in GraphOf(m.tasks)
    case DependencyCycle(at) =>
      && TasksWellFormed(m) && DependenciesKnown(m)
      && exists p :: Lasso(GraphOf(m.tasks), p) && p[0] in RawIds(m.tasks) && p[|p| - 1] == at
  }

  /** A manifest is accepted exactly when none of the errors is justified. */
  lemma AcceptedUnlessJustified(m: Manifest)
    ensures Accepts(m) <==> forall e :: !Justified(m, e)
  {
    if Accepts(m) {
      forall e
        ensures !Justified(m, e)
      {
        NothingJustified(m, e);
      }
    } else {
      var e := SomeFault(m);
    }
  }

  lemma NothingJustified(m: Manifest, e: ValidationError)
    requires Accepts(m)
    ensures !Justified(m, e)
  {
    hide TrimSpace, HasMalformed, GraphOf, RawIds;
  }

  lemma SomeFault(m: Manifest) returns (e: ValidationError)
    requires !Accepts(m)
    ensures Justified(m, e)
  {
    hide TaskWellFormed, TrimSpace, HasMalformed, GraphOf, RawIds, IsPath, ListKnown;
    if !BoundsPositive(m) {
      return if m.maxParallel <= 0 then MaxParallelNotPositive else if m.tasks == [] then NoTasks else CapacityNotPositive;
    }
    if !KeysDistinct(m.tasks) {
      var j, i :| 0 <= j < i < |m.tasks| && TrimmedId(m.tasks[j]) == TrimmedId(m.tasks[i]);
      return DuplicateId(i);
    }
    if !TasksWellFormed(m) {
      var i: nat :| i < |m.tasks| && !TaskWellFormed(m, m.tasks[i]);
      e := TaskFault(m, i);
      return;
    }
    if !DependenciesKnown(m) {
      var i: nat :| i < |m.tasks| && !ListKnown(GraphOf(m.tasks), m.tasks[i]);
      e := ListFault(m, i);
      return;
    }
    var p :| Lasso(GraphOf(m.tasks), p) && p[0] in RawIds(m.tasks);
    return DependencyCycle(p[|p| - 1]);
  }

  lemma TaskFault(m: Manifest, i: nat) returns (e: ValidationError)
    requires i < |m.tasks| && !TaskWellFormed(m, m.tasks[i])
    ensures Justified(m, e)
  {
    hide TrimSpace, HasMalformed;
    var t := m.tasks[i];
    e := if TrimmedId(t) == "" then MissingId(i)
         else if t.resources.cpu <= 0.0 || t.resources.memoryMB <= 0 then ResourcesNotPositive(i)
         else if t.owns == [] then NoOwnership(i)
         else if HasMalformed(t.owns) then MalformedOwnership(i) else ExceedsCapacity(i);
  }

  lemma ListFault(m: Manifest, i: nat) returns (e: ValidationError)
    requires TasksWellFormed(m) && i < |m.tasks| && !ListKnown(GraphOf(m.tasks), m.tasks[i])
    ensures Justified(m, e)
  {
    hide TaskWellFormed, GraphOf;
    var t := m.tasks[i];
    var d :| d in t.dependsOn && !(d in GraphOf(m.tasks) && d != t.id);
    e := if d == t.id then SelfDependency(i) else UnknownDependency(i, d);
  }

  predicate HasKey(ts: seq<Task>, k: string) {
    exists i :: 0 <= i < |ts| && TrimmedId(ts[i]) == k
  }

  lemma {:induction false} GraphOfKeys(ts: seq<Task>)
    ensures forall k :: k in GraphOf(ts) <==> HasKey(ts, k)
    ensures KeysDistinct(ts) ==>
              forall i :: 0 <= i < |ts| ==> TrimmedId(ts[i]) in GraphOf(ts) && GraphOf(ts)[TrimmedId(ts[i])] == ts[i].dependsOn
  {
    hide TrimSpace;
    if ts != [] {
      var init, last := ts[..|ts| - 1], ts[|ts| - 1];
      GraphOfKeys(init);
      forall k
        ensures HasKey(ts, k) <==> HasKey(init, k) || k == TrimmedId(last)
      {
        if HasKey(init, k) {
          var i :| 0 <= i < |init| && TrimmedId(init[i]) == k;
          assert TrimmedId(ts[i]) == k;
        }
        if HasKey(ts, k) && k != TrimmedId(last) {
          var i :| 0 <= i < |ts| && TrimmedId(ts[i]) == k;
          assert TrimmedId(init[i]) == k;
        }
      }
      forall i | 0 <= i < |init|
        ensures TrimmedId(ts[i]) in GraphOf(init) && (KeysDistinct(ts) ==> GraphOf(init)[TrimmedId(ts[i])] == ts[i].dependsOn)
      {
        assert TrimmedId(init[i]) == TrimmedId(ts[i]);
        assert HasKey(init, TrimmedId(ts[i]));
      }
    }
  }

  /** One more task with a new key keeps the keys distinct and adds its entry. */
  lemma TableGrows(ts: seq<Task>, t: Task)
    requires KeysDistinct(ts) && TrimmedId(t) !in GraphOf(ts)
    ensures KeysDistinct(ts + [t]) && GraphOf(ts + [t]) == GraphOf(ts)[TrimmedId(t) := t.dependsOn]
  {
    GraphOfKeys(ts);
    TableOneMore(ts, t);
    hide TrimmedId, GraphOf;
    forall i | 0 <= i < |ts|
      ensures TrimmedId(ts[i]) != TrimmedId(t)
    {
      assert HasKey(ts, TrimmedId(ts[i]));
    }
  }

  lemma TableOneMore(ts: seq<Task>, t: Task)
    ensures GraphOf(ts + [t]) == GraphOf(ts)[TrimmedId(t) := t.dependsOn]
  {
    hide TrimmedId;
    assert (ts + [t])[..|ts|] == ts;
  }

  // ---- Validate

  /** The closure visit of Validate with the maps it captures. */
  class CycleFinder {
    const graph: Graph
    var visiting: map<string, bool>
    var visited: map<string, bool>
    ghost const universe: set<string>
    ghost var stack: seq<string>
    ghost var order: seq<string>

    ghost predicate Valid()
      reads this
    {
      && (forall k :: k in order <==> k in visited && visited[k])
      && (forall k :: k in stack <==> k in visiting && visiting[k])
      && (forall k :: k in stack ==> k !in order)
      && (forall k :: k in stack || k in order ==> k in universe)
      && NoRepeats(stack) && IsPath(graph, stack)
      && Topological(graph, order)
      && (forall k, d :: k in graph && d in graph[k] ==> d in universe)
    }

    constructor (graph: Graph, ghost roots: set<string>)
      ensures Valid() && this.graph == graph && stack == [] && order == []
      ensures roots <= universe
    {
      this.graph := graph;
      visiting, visited := map[], map[];
      universe := roots + set k, d | k in graph && d in graph[k] :: d;
      stack, order := [], [];
    }

    /** Ids neither visiting nor visited: what the search has left. */
    ghost function Unseen(): set<string>
      reads this
    {
      universe - (set k | k in stack) - (set k | k in order)
    }

    method Enter(id: string)
      requires Valid() && id in universe && id !in stack && id !in order
      requires stack != [] ==> id in Deps(graph, stack[|stack| - 1])
      modifies this
      ensures Valid() && stack == old(stack) + [id] && order == old(order)
      ensures Unseen() < old(Unseen())
    {
      visiting := visiting[id := true];
      stack := stack + [id];
      assert id in stack && id in old(Unseen()) && id !in Unseen();
    }

    method Leave(id: string)
      requires Valid() && stack != [] && stack[|stack| - 1] == id
      requires forall d :: d in Deps(graph, id) ==> d in order
      modifies this
      ensures Valid() && stack == old(stack)[..|old(stack)| - 1] && order == old(order) + [id]
    {
      assert id in stack;
      visiting := visiting[id := false];
      visited := visited[id := true];
      OrderGrows(graph, order, id);
      stack := stack[..|stack| - 1];
      order := order + [id];
      assert id !in stack;
    }

    /** What the two maps say about id, and where its dependencies lie. */
    lemma Marks(id: string)
      requires Valid()
      ensures id in order <==> id in visited && visited[id]
      ensures id in stack <==> id in visiting && visiting[id]
      ensures forall d :: d in Deps(graph, id) ==> d in universe
    {
    }

    lemma ClosesLoop(id: string)
      requires Valid() && id in stack && id in Deps(graph, stack[|stack| - 1])
      ensures Lasso(graph, stack + [id])
    {
      assert (stack + [id])[..|stack|] == stack;
    }

    /** Fails with a walk that closes on itself; succeeds with id and all below it ordered. */
    method Visit(id: string) returns (ok: bool, at: string, ghost walk: seq<string>)
      requires Valid() && id in universe
      requires stack != [] ==> id in Deps(graph, stack[|stack| - 1])
      modifies this
      ensures ok ==> Valid() && stack == old(stack) && old(order) <= order && id in order
      ensures !ok ==> Lasso(graph, walk) && old(stack) + [id] <= walk && walk[|walk| - 1] == at
      decreases Unseen()
    {
      hide Valid, Lasso, Deps;
      Marks(id);
      if id in visited && visited[id] {
        return true, "", [];
      }
      if id in visiting && visiting[id] {
        ClosesLoop(id);
        return false, id, stack + [id];
      }
      Enter(id);
      ghost var path, entered := stack, order;
      var deps := Deps(graph, id);
      Marks(id);
      for i := 0 to |deps|
        invariant Valid() && stack == path && entered <= order
        invariant forall k :: 0 <= k < i ==> deps[k] in order
      {
        assert Unseen() <= old(Unseen()) && id in path && id in old(Unseen());
        assert deps[i] in deps;
        var ok', at', walk' := Visit(deps[i]);
        if !ok' {
          assert path <= path + [deps[i]];
          return false, at', walk';
        }
      }
      Leave(id);
      return true, "", [];
    }
  }

  lemma OrderGrows(g: Graph, order: seq<string>, id: string)
    requires Topological(g, order) && id !in order && forall d :: d in Deps(g, id) ==> d in order
    ensures Topological(g, order + [id])
  {
    var longer := order + [id];
    forall i, d | 0 <= i < |longer| && d in Deps(g, longer[i])
      ensures d in longer[..i]
    {
      assert longer[..i] == order[..i];
      assert order[..|order|] == order;
    }
  }

  method CheckOwnership(owns: seq<string>) returns (ok: bool)
    ensures ok <==> !HasMalformed(owns)
  {
    hide NormalizeOwnership;
    for j := 0 to |owns|
      invariant forall k :: 0 <= k < j ==> Normalizes(owns[k])
    {
      var normal := NormalizeOwnership(owns[j]);
      if normal.Failure? {
        assert !Normalizes(owns[j]);
        return false;
      }
    }
    return true;
  }

  predicate CheckedUpTo(m: Manifest, i: nat, table: Graph)
    requires i <= |m.tasks|
  {
    && KeysDistinct(m.tasks[..i]) && table == GraphOf(m.tasks[..i])
    && forall k :: 0 <= k < i ==> TaskWellFormed(m, m.tasks[k])
  }

  lemma CheckedOneMore(m: Manifest, i: nat, table: Graph)
    requires i < |m.tasks| && CheckedUpTo(m, i, table)
    requires TaskWellFormed(m, m.tasks[i]) && TrimmedId(m.tasks[i]) !in table
    ensures CheckedUpTo(m, i + 1, table[TrimmedId(m.tasks[i]) := m.tasks[i].dependsOn])
  {
    hide TaskWellFormed, TrimmedId;
    TableGrows(m.tasks[..i], m.tasks[i]);
    assert m.tasks[..i + 1] == m.tasks[..i] + [m.tasks[i]];
  }

  lemma DuplicateFound(m: Manifest, i: nat, table: Graph)
    requires i < |m.tasks| && CheckedUpTo(m, i, table) && TrimmedId(m.tasks[i]) in table
    ensures Justified(m, DuplicateId(i)) && !KeysDistinct(m.tasks)
  {
    hide TaskWellFormed, TrimSpace;
    GraphOfKeys(m.tasks[..i]);
    var j :| 0 <= j < i && TrimmedId(m.tasks[..i][j]) == TrimmedId(m.tasks[i]);
    assert TrimmedId(m.tasks[j]) == TrimmedId(m.tasks[i]);
  }

  method CheckTask(m: Manifest, i: nat) returns (r: Outcome<ValidationError>)
    requires i < |m.tasks| && TrimmedId(m.tasks[i]) != ""
    ensures r.Pass? <==> TaskWellFormed(m, m.tasks[i])
    ensures r.Fail? ==> Justified(m, r.error)
  {
    hide TrimSpace, HasMalformed;
    var t := m.tasks[i];
    if t.resources.cpu <= 0.0 || t.resources.memoryMB <= 0 {
      return Fail(ResourcesNotPositive(i));
    }
    if t.resources.cpu > m.capacity.cpu || t.resources.memoryMB > m.capacity.memoryMB {
      return Fail(ExceedsCapacity(i));
    }
    if t.owns == [] {
      return Fail(NoOwnership(i));
    }
    var ok := CheckOwnership(t.owns);
    return if ok then Pass else Fail(MalformedOwnership(i));
  }

  method CheckTasks(m: Manifest) returns (r: Result<Graph, ValidationError>)
    ensures r.Success? <==> TasksWellFormed(m)
    ensures r.Success? ==> r.value == GraphOf(m.tasks)
    ensures r.Failure? ==> Justified(m, r.error)
  {
    hide TrimSpace, HasMalformed;
    var table: Graph := map[];
    for i := 0 to |m.tasks|
      invariant CheckedUpTo(m, i, table)
    {
      var key := TrimSpace(m.tasks[i].id);
      if key == "" {
        assert !TaskWellFormed(m, m.tasks[i]);
        return Failure(MissingId(i));
      }
      if key in table {
        DuplicateFound(m, i, table);
        return Failure(DuplicateId(i));
      }
      var checked := CheckTask(m, i);
      if checked.Fail? {
        return Failure(checked.error);
      }
      CheckedOneMore(m, i, table);
      table := table[key := m.tasks[i].dependsOn];
    }
    assert m.tasks[..|m.tasks|] == m.tasks;
    return Success(table);
  }

  method CheckDependencyList(graph: Graph, t: Task) returns (ok: bool, self: bool, dependency: string)
    ensures ok <==> ListKnown(graph, t)
    ensures !ok ==> dependency in t.dependsOn && if self then dependency == t.id else dependency !in graph
  {
    for j := 0 to |t.dependsOn|
      invariant forall k :: 0 <= k < j ==> t.dependsOn[k] in graph && t.dependsOn[k] != t.id
    {
      var d := t.dependsOn[j];
      assert d in t.dependsOn;
      if d == t.id {
        return false, true, d;
      }
      if d !in graph {
        return false, false, d;
      }
    }
    return true, false, "";
  }

  /** Passes exactly when every dependency is another task by its trimmed id. */
  method CheckDependencies(m: Manifest, graph: Graph) returns (r: Outcome<ValidationError>)
    requires TasksWellFormed(m) && graph == GraphOf(m.tasks)
    ensures r.Pass? <==> DependenciesKnown(m)
    ensures r.Fail? ==> Justified(m, r.error)
  {
    hide TasksWellFormed, GraphOf, ListKnown;
    for i := 0 to |m.tasks|
      invariant forall k :: 0 <= k < i ==> ListKnown(graph, m.tasks[k])
    {
      var ok, self, dependency := CheckDependencyList(graph, m.tasks[i]);
      if !ok {
        return Fail(if self then SelfDependency(i) else UnknownDependency(i, dependency));
      }
    }
    return Pass;
  }

  /** Visits every task; fails with a walk from a task that closes on itself, or puts all of them in order. */
  method SearchCycles(m: Manifest, graph: Graph) returns (r: Outcome<ValidationError>, ghost order: seq<string>)
    requires TasksWellFormed(m) && DependenciesKnown(m) && graph == GraphOf(m.tasks)
    ensures r.Pass? <==> !CycleReachable(graph, RawIds(m.tasks))
    ensures r.Fail? ==> Justified(m, r.error)
    ensures r.Pass? ==> Topological(graph, order) && forall id :: id in RawIds(m.tasks) ==> id in order
  {
    hide TasksWellFormed, DependenciesKnown, GraphOf, Lasso, IsPath, Topological;
    var finder := new CycleFinder(graph, RawIds(m.tasks));
    for i := 0 to |m.tasks|
      invariant fresh(finder) && finder.graph == graph && finder.Valid() && finder.stack == []
      invariant RawIds(m.tasks) <= finder.universe
      invariant forall k :: 0 <= k < i ==> m.tasks[k].id in finder.order
    {
      assert m.tasks[i].id in RawIds(m.tasks);
      var ok, at, walk := finder.Visit(m.tasks[i].id);
      if !ok {
        assert walk[0] == m.tasks[i].id;
        return Fail(DependencyCycle(at)), [];
      }
    }
    order := finder.order;
    TopologicalHasNoLasso(graph, order, RawIds(m.tasks));
    return Pass, order;
  }

  /** Accepts exactly the manifests without a fault, and names a fault otherwise; acceptance yields an order. */
  method Validate(m: Manifest) returns (r: Outcome<ValidationError>, ghost order: seq<string>)
    ensures r.Pass? <==> Accepts(m)
    ensures r.Pass? <==> forall e :: !Justified(m, e)
    ensures r.Fail? ==> Justified(m, r.error)
    ensures r.Pass? ==> Topological(GraphOf(m.tasks), order) && forall id :: id in RawIds(m.tasks) ==> id in order
  {
    AcceptedUnlessJustified(m);
    hide TasksWellFormed, DependenciesKnown, GraphOf, RawIds, CycleReachable, Topological;
    if m.maxParallel <= 0 {
      return Fail(MaxParallelNotPositive), [];
    }
    if m.capacity.cpu <= 0.0 || m.capacity.memoryMB <= 0 {
      return Fail(CapacityNotPositive), [];
    }
    if m.tasks == [] {
      return Fail(NoTasks), [];
    }
    var tasks := CheckTasks(m);
    if tasks.Failure? {
      return Fail(tasks.error), [];
    }
    r := CheckDependencies(m, tasks.value);
    if r.Fail? {
      return r, [];
    }
    r, order := SearchCycles(m, tasks.value);
  }

  /** When every dependency is spelled as a task id, the search reports a cycle exactly when the table has one. */
  lemma CycleVerdictIsExact(m: Manifest)
    requires Closed(m)
    ensures CycleReachable(GraphOf(m.tasks), RawIds(m.tasks)) <==> Cyclic(GraphOf(m.tasks))
  {
    EntriesAreTasks(m.tasks);
    hide GraphOf, RawIds, CycleReachable, Cyclic;
    CycleReachableIffCyclic(GraphOf(m.tasks), RawIds(m.tasks));
  }

  /** What the search can miss: every cycle of an accepted manifest runs through keys no task is spelled as. */
  lemma AcceptedCyclesAreHidden(m: Manifest, p: seq<string>)
    requires Accepts(m) && Cycle(GraphOf(m.tasks), p)
    ensures forall k :: 0 <= k < |p| ==> p[k] !in RawIds(m.tasks) && HasKey(m.tasks, p[k])
  {
    hide TasksWellFormed, DependenciesKnown, GraphOf, RawIds, HasKey;
    var g := GraphOf(m.tasks);
    GraphOfKeys(m.tasks);
    forall k | 0 <= k < |p|
      ensures p[k] !in RawIds(m.tasks) && HasKey(m.tasks, p[k])
    {
      var q := RotatedCycle(g, p, k);
      assert q[0 + 1] in Deps(g, q[0]);
    }
  }

  /** An accepted table has a cycle exactly when it has one through tasks none of which is spelled as its key. */
  lemma HiddenCyclesExactly(m: Manifest)
    requires Accepts(m)
    ensures var g, ids := GraphOf(m.tasks), RawIds(m.tasks);
            Cyclic(g) <==> exists p :: Cycle(g, p) && forall k :: 0 <= k < |p| ==> p[k] !in ids
  {
    hide Accepts, GraphOf, RawIds, Cycle;
    forall p | Cycle(GraphOf(m.tasks), p)
      ensures forall k :: 0 <= k < |p| ==> p[k] !in RawIds(m.tasks)
    {
      AcceptedCyclesAreHidden(m, p);
    }
  }

  predicate HasList(ts: seq<Task>, list: seq<string>) {
    exists i :: 0 <= i < |ts| && ts[i].dependsOn == list
  }

  lemma {:induction false} EntriesAreTasks(ts: seq<Task>)
    ensures forall k :: k in GraphOf(ts) ==> HasList(ts, GraphOf(ts)[k])
  {
    hide TrimmedId;
    if ts != [] {
      var init, last := ts[..|ts| - 1], ts[|ts| - 1];
      EntriesAreTasks(init);
      assert HasList(ts, last.dependsOn);
      forall list | HasList(init, list)
        ensures HasList(ts, list)
      {
        var i :| 0 <= i < |init| && init[i].dependsOn == list;
        assert ts[i].dependsOn == list;
      }
      hide HasList;
    }
  }
}
