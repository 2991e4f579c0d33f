/** The closed loop of scheduling and claiming: what holds over every run. */
module WorkProtocol {
  import opened Text
  import opened WorkItems
  import opened WorkScheduler
  import Ownership
  import Scheduler
  import Admission

  datatype System = System(items: seq<WorkItem>, now: Time)

  datatype ClaimRequest = ClaimRequest(index: nat, holder: string, ttl: int)

  datatype Event =
    | Tick(elapsed: nat)
    | Move(index: nat, to: WorkItem)
    | ClaimBatch(claims: seq<ClaimRequest>)

  /** Only the fields a claim or a state change writes may differ. */
  predicate SameWork(a: WorkItem, b: WorkItem) {
    b == a.(state := b.state, claimedBy := b.claimedBy, leaseUntil := b.leaseUntil)
  }

  predicate SameItems(a: seq<WorkItem>, b: seq<WorkItem>) {
    |a| == |b| && forall i :: 0 <= i < |a| ==> SameWork(a[i], b[i])
  }

  predicate Grantable(w: WorkItem, c: ClaimRequest, now: Time) {
    !Blank(c.holder) && c.ttl > 0 && ClaimableAt(w, now)
  }

  /** The items after the claims have been applied one after the other; a refused claim changes nothing. */
  function AfterClaims(items: seq<WorkItem>, claims: seq<ClaimRequest>, now: Time): (r: seq<WorkItem>)
    ensures |r| == |items|
  {
    if claims == [] then items
    else
      var before, c := AfterClaims(items, claims[..|claims| - 1], now), claims[|claims| - 1];
      if c.index < |before| && Grantable(before[c.index], c, now)
      then before[c.index := WithLease(before[c.index], c.holder, now + c.ttl)] else before
  }

  /** Claims on items of the current decision, all made at the same instant, perhaps several for one item. */
  ghost predicate ClaimsOfDecision(s: System, maxCost: int, claims: seq<ClaimRequest>) {
    && WorkAccepted(s.items, maxCost, s.now)
    && (forall k :: 0 <= k < |claims| ==>
          && claims[k].index < |s.items| && !Blank(claims[k].holder) && claims[k].ttl > 0
          && s.items[claims[k].index].id in WorkDecision(s.items, maxCost, s.now).ready)
  }

  ghost predicate Step(s: System, maxCost: int, e: Event, s': System) {
    match e
    case Tick(elapsed) => s' == s.(now := s.now + elapsed)
    case Move(i, w) =>
      && i < |s.items| && ActiveAt(s.items[i], s.now) && SameWork(s.items[i], w)
      && (ActiveAt(w, s.now) || w.state in {Landed, Failed, Cancelled})
      && s' == s.(items := s.items[i := w])
    case ClaimBatch(claims) =>
      && ClaimsOfDecision(s, maxCost, claims)
      && s' == s.(items := AfterClaims(s.items, claims, s.now))
  }

  // ---- The invariant

  function ActiveCost(items: seq<WorkItem>, now: Time): int {
    if items == [] then 0
    else
      var last := items[|items| - 1];
      ActiveCost(items[..|items| - 1], now) + if ActiveAt(last, now) then last.cost else 0
  }

  predicate NoClash(a: WorkItem, b: WorkItem) {
    !Ownership.Conflict(a.ownershipPaths, b.ownershipPaths)
  }

  predicate ActiveSeparate(s: System) {
    forall i, j :: 0 <= i < |s.items| && 0 <= j < |s.items| && i != j && ActiveAt(s.items[i], s.now) && ActiveAt(s.items[j], s.now)
      ==> NoClash(s.items[i], s.items[j])
  }

  predicate DependenciesLanded(items: seq<WorkItem>, w: WorkItem) {
    forall d :: d in w.dependsOn ==> LandedId(items, d)
  }

  predicate Invariant(s: System, maxCost: int) {
    && ActiveCost(s.items, s.now) <= maxCost
    && ActiveSeparate(s)
    && (forall i :: 0 <= i < |s.items| && ActiveAt(s.items[i], s.now) ==> DependenciesLanded(s.items, s.items[i]))
    && (forall i :: 0 <= i < |s.items| ==> s.items[i].cost >= 0)
  }

  /** A system in which nothing is active satisfies the invariant. */
  lemma QuietSystemIsFine(s: System, maxCost: int)
    requires maxCost >= 0 && forall i :: 0 <= i < |s.items| ==> s.items[i].cost >= 0 && !ActiveAt(s.items[i], s.now)
    ensures Invariant(s, maxCost)
  {
    QuietCost(s.items, s.now);
  }

  lemma {:induction false} QuietCost(items: seq<WorkItem>, now: Time)
    requires forall i :: 0 <= i < |items| ==> !ActiveAt(items[i], now)
    ensures ActiveCost(items, now) == 0
  {
    if items != [] {
      QuietCost(items[..|items| - 1], now);
    }
  }

  /** Cost grows with the set of active items. */
  lemma {:induction false} FewerActiveCostLess(a: seq<WorkItem>, now: Time, b: seq<WorkItem>, now': Time)
    requires SameItems(a, b) && forall i :: 0 <= i < |a| ==> a[i].cost >= 0
    requires forall i :: 0 <= i < |a| && ActiveAt(b[i], now') ==> ActiveAt(a[i], now)
    ensures ActiveCost(b, now') <= ActiveCost(a, now)
  {
    hide ActiveAt;
    if a != [] {
      FewerActiveCostLess(a[..|a| - 1], now, b[..|b| - 1], now');
    }
  }

  // ---- Claims

  lemma {:induction false} ClaimsTouchOnlyTheirItems(items: seq<WorkItem>, claims: seq<ClaimRequest>, now: Time)
    ensures SameItems(items, AfterClaims(items, claims, now))
    ensures forall i :: 0 <= i < |items| && (forall k :: 0 <= k < |claims| ==> claims[k].index != i)
              ==> AfterClaims(items, claims, now)[i] == items[i]
  {
    hide Grantable, TrimSpace;
    if claims != [] {
      var init := claims[..|claims| - 1];
      ClaimsTouchOnlyTheirItems(items, init, now);
      assert forall k :: 0 <= k < |init| ==> init[k] == claims[k];
    }
  }

  lemma ReadyItem(s: System, maxCost: int, i: nat)
    requires WorkAccepted(s.items, maxCost, s.now) && i < |s.items|
    requires s.items[i].id in WorkDecision(s.items, maxCost, s.now).ready
    ensures TaskOf(s.items[i]) in Admission.Chosen(ManifestOf(s.items, maxCost), StateAt(s.items, s.now), |s.items|)
    ensures Startable(s.items, s.items[i], s.now) && StatusAt(s.items[i], s.now) == Scheduler.Pending
    ensures ClaimableAt(s.items[i], s.now)
  {
    hide Scheduler.Accepts, Admission.Eligible, Admission.Room, Schedulable, HasActiveLease, StateAt, Admission.Chosen;
    var m, st := ManifestOf(s.items, maxCost), StateAt(s.items, s.now);
    AcceptedItemIds(s.items, maxCost, s.now);
    Admission.ChosenComeFromTasks(m, st, |s.items|);
    var chosen := Admission.Chosen(m, st, |s.items|);
    var k :| 0 <= k < |chosen| && chosen[k].id == s.items[i].id;
    var j :| 0 <= j < |s.items| && m.tasks[j] == chosen[k];
    assert m.tasks[j].id == s.items[j].id;
    assert j == i;
    StartableIsEligible(s.items, s.items[i], s.now);
  }

  /** The k-th claim finds its item as it was before the batch, and the batch leaves it with exactly the lease asked for. */
  predicate TakesEffect(items: seq<WorkItem>, claims: seq<ClaimRequest>, now: Time, k: nat)
    requires k < |claims|
  {
    var c := claims[k];
    && c.index < |items| && Grantable(items[c.index], c, now)
    && AfterClaims(items, claims[..k], now)[c.index] == items[c.index]
    && AfterClaims(items, claims, now)[c.index] == WithLease(items[c.index], c.holder, now + c.ttl)
  }

  /** No claim before the k-th is for the same item. */
  predicate IsFirst(claims: seq<ClaimRequest>, k: nat)
    requires k < |claims|
  {
    forall j :: 0 <= j < k ==> claims[j].index != claims[k].index
  }

  /** The k-th claim finds its item under a live lease, which is what makes Claim answer that the lease is held. */
  predicate FindsLeaseHeld(items: seq<WorkItem>, claims: seq<ClaimRequest>, now: Time, k: nat)
    requires k < |claims|
  {
    var c, before := claims[k], AfterClaims(items, claims[..k], now);
    c.index < |before| && before[c.index].state == Claimed && HasActiveLease(before[c.index], now)
  }

  /** A lease is live from the claim until its time is up, and while it is live nobody else's claim is granted. */
  lemma LeaseIsLive(w: WorkItem, c: ClaimRequest, now: Time)
    requires !Blank(c.holder) && c.ttl > 0
    ensures var leased := WithLease(w, c.holder, now + c.ttl);
            && leased.state == Claimed && HasActiveLease(leased, now) && (forall d :: !Grantable(leased, d, now))
            && forall t :: HasActiveLease(leased, t) <==> t < now + c.ttl
  {
    hide TrimSpace;
    TrimSpaceIdempotent(c.holder);
  }

  lemma OneMoreClaim(items: seq<WorkItem>, claims: seq<ClaimRequest>, now: Time)
    requires claims != []
    ensures var before, c := AfterClaims(items, claims[..|claims| - 1], now), claims[|claims| - 1];
            AfterClaims(items, claims, now) ==
              if c.index < |before| && Grantable(before[c.index], c, now)
              then before[c.index := WithLease(before[c.index], c.holder, now + c.ttl)] else before
  {
  }

  /** Another claim leaves an item alone on which no claim can be granted. */
  lemma ClaimLeavesHeld(items: seq<WorkItem>, claims: seq<ClaimRequest>, now: Time, i: nat)
    requires claims != [] && i < |items|
    requires !Grantable(AfterClaims(items, claims[..|claims| - 1], now)[i], claims[|claims| - 1], now)
    ensures AfterClaims(items, claims, now)[i] == AfterClaims(items, claims[..|claims| - 1], now)[i]
  {
    OneMoreClaim(items, claims, now);
    hide Grantable, WithLease, AfterClaims;
  }

  lemma LastClaimApplies(items: seq<WorkItem>, claims: seq<ClaimRequest>, now: Time)
    requires claims != [] && IsFirst(claims, |claims| - 1)
    requires var c := claims[|claims| - 1]; c.index < |items| && Grantable(items[c.index], c, now)
    ensures TakesEffect(items, claims, now, |claims| - 1)
  {
    OneMoreClaim(items, claims, now);
    ClaimsTouchOnlyTheirItems(items, claims[..|claims| - 1], now);
    hide Grantable, WithLease, SameItems, AfterClaims;
  }

  lemma EffectStays(items: seq<WorkItem>, claims: seq<ClaimRequest>, now: Time, k: nat)
    requires k < |claims| - 1 && TakesEffect(items, claims[..|claims| - 1], now, k)
    ensures TakesEffect(items, claims, now, k)
  {
    var init, c := claims[..|claims| - 1], claims[k];
    assert init[k] == c && init[..k] == claims[..k];
    GrantedIsHeld(items[c.index], c, now, claims[|claims| - 1]);
    hide Grantable, WithLease, AfterClaims;
    ClaimLeavesHeld(items, claims, now, c.index);
  }

  lemma GrantedIsHeld(w: WorkItem, c: ClaimRequest, now: Time, d: ClaimRequest)
    requires Grantable(w, c, now)
    ensures !Grantable(WithLease(w, c.holder, now + c.ttl), d, now)
  {
    LeaseIsLive(w, c, now);
  }

  lemma {:induction false} FirstClaimApplies(items: seq<WorkItem>, claims: seq<ClaimRequest>, now: Time, k: nat)
    requires k < |claims| && IsFirst(claims, k)
    requires claims[k].index < |items| && Grantable(items[claims[k].index], claims[k], now)
    ensures TakesEffect(items, claims, now, k)
    decreases |claims|
  {
    hide Grantable, WithLease, AfterClaims, TakesEffect;
    if k == |claims| - 1 {
      LastClaimApplies(items, claims, now);
    } else {
      FirstClaimApplies(items, claims[..|claims| - 1], now, k);
      EffectStays(items, claims, now, k);
    }
  }

  lemma LaterClaimFindsLease(items: seq<WorkItem>, claims: seq<ClaimRequest>, now: Time, j: nat, k: nat)
    requires j < k < |claims| && claims[j].index == claims[k].index && IsFirst(claims, j)
    requires claims[j].index < |items| && Grantable(items[claims[j].index], claims[j], now)
    ensures FindsLeaseHeld(items, claims, now, k)
  {
    LeaseIsLive(items[claims[j].index], claims[j], now);
    hide Grantable, WithLease, HasActiveLease, AfterClaims;
    FirstClaimApplies(items, claims[..k], now, j);
  }

  lemma {:induction false} FirstOn(claims: seq<ClaimRequest>, k: nat) returns (j: nat)
    requires k < |claims|
    ensures j <= k && claims[j].index == claims[k].index && IsFirst(claims, j)
  {
    if IsFirst(claims, k) {
      return k;
    }
    var i :| 0 <= i < k && claims[i].index == claims[k].index;
    j := FirstOn(claims, i);
  }

  lemma ClaimIsGrantable(s: System, maxCost: int, claims: seq<ClaimRequest>, k: nat)
    requires ClaimsOfDecision(s, maxCost, claims) && k < |claims|
    ensures claims[k].index < |s.items| && Grantable(s.items[claims[k].index], claims[k], s.now)
  {
    hide WorkAccepted, WorkDecision, ClaimableAt, Blank;
    ReadyItem(s, maxCost, claims[k].index);
  }

  /** Of the claims made for a ready item at one instant exactly the first succeeds; the others find its lease held. */
  lemma FirstClaimSucceeds(s: System, maxCost: int, claims: seq<ClaimRequest>, k: nat)
    requires ClaimsOfDecision(s, maxCost, claims) && k < |claims|
    ensures IsFirst(claims, k) ==> TakesEffect(s.items, claims, s.now, k)
    ensures !IsFirst(claims, k) ==> FindsLeaseHeld(s.items, claims, s.now, k)
  {
    hide *;
    var j := FirstOn(claims, k);
    ClaimIsGrantable(s, maxCost, claims, j);
    if IsFirst(claims, k) {
      ClaimIsGrantable(s, maxCost, claims, k);
      FirstClaimApplies(s.items, claims, s.now, k);
    } else {
      LaterClaimFindsLease(s.items, claims, s.now, j, k);
    }
  }

  // ---- Active cost after a batch of claims

  /** Active now, or about to be because its id is ready. */
  predicate Engaged(w: WorkItem, now: Time, ready: seq<string>) {
    ActiveAt(w, now) || w.id in ready
  }

  function EngagedCost(items: seq<WorkItem>, now: Time, ready: seq<string>): int {
    if items == [] then 0
    else
      var last := items[|items| - 1];
      EngagedCost(items[..|items| - 1], now, ready) + if Engaged(last, now, ready) then last.cost else 0
  }

  /** The totals the scheduler keeps are the cost of the engaged items. */
  lemma {:induction false} EngagedCostIsTotal(s: System, maxCost: int, n: nat)
    requires WorkAccepted(s.items, maxCost, s.now) && n <= |s.items|
    ensures var m, st := ManifestOf(s.items, maxCost), StateAt(s.items, s.now);
            var active, chosen := ActiveItems(s.items[..n], s.now), CostChosen(s.items, maxCost, s.now, n);
            EngagedCost(s.items[..n], s.now, WorkDecision(s.items, maxCost, s.now).ready) == CostOf(active) + CostOf(chosen)
  {
    hide WorkAccepted, WorkDecision, ClashesWithAny, Startable, ActiveAt, ManifestOf, StateAt;
    if n > 0 {
      var now, w := s.now, s.items[n - 1];
      EngagedCostIsTotal(s, maxCost, n - 1);
      assert s.items[..n][..n - 1] == s.items[..n - 1];
      var before := CostChosen(s.items, maxCost, now, n - 1);
      var after := CostChosen(s.items, maxCost, now, n);
      ReadyIffChosen(s, maxCost, n - 1);
      assert (before + [w])[..|before|] == before;
      var actives := ActiveItems(s.items[..n - 1], now);
      assert (actives + [w])[..|actives|] == actives;
    } else {
      assert s.items[..n] == [];
    }
  }

  /** An item's id is ready exactly when the cost-only pass takes it at its turn, and then it is not active. */
  lemma ReadyIffChosen(s: System, maxCost: int, n: nat)
    requires WorkAccepted(s.items, maxCost, s.now) && n < |s.items|
    ensures var before := CostChosen(s.items, maxCost, s.now, n);
            s.items[n].id in WorkDecision(s.items, maxCost, s.now).ready
            <==> CostChosen(s.items, maxCost, s.now, n + 1) != before
    ensures s.items[n].id in WorkDecision(s.items, maxCost, s.now).ready ==> !ActiveAt(s.items[n], s.now)
  {
    hide WorkAccepted, Admission.Eligible, Admission.Room, ClashesWithAny, Startable, CostOf, ActiveItems, Admission.RunningTasks;
    var m, st := ManifestOf(s.items, maxCost), StateAt(s.items, s.now);
    var all := Admission.Chosen(m, st, |s.items|);
    AcceptedItemIds(s.items, maxCost, s.now);
    AdapterIsCostOnly(s.items, maxCost, s.now, n);
    AdapterIsCostOnly(s.items, maxCost, s.now, n + 1);
    Admission.AdmittedExactly(m, st, n);
    assert m.tasks[n] == TaskOf(s.items[n]);
    var before := CostChosen(s.items, maxCost, s.now, n);
    if s.items[n].id in WorkDecision(s.items, maxCost, s.now).ready {
      ReadyItem(s, maxCost, n);
    }
    if m.tasks[n] in all {
      var k :| 0 <= k < |all| && all[k] == m.tasks[n];
      assert WorkDecision(s.items, maxCost, s.now).ready[k] == s.items[n].id;
    }
  }

  lemma EngagedFits(s: System, maxCost: int)
    requires WorkAccepted(s.items, maxCost, s.now) && WorkDecision(s.items, maxCost, s.now).ready != []
    ensures EngagedCost(s.items, s.now, WorkDecision(s.items, maxCost, s.now).ready) <= maxCost
  {
    hide Scheduler.Accepts, ClashesWithAny, Startable, ActiveAt, Schedulable, Admission.Disjoint, Admission.Eligible;
    var n := |s.items|;
    var m, st := ManifestOf(s.items, maxCost), StateAt(s.items, s.now);
    EngagedCostIsTotal(s, maxCost, n);
    assert s.items[..n] == s.items;
    AdapterIsCostOnly(s.items, maxCost, s.now, n);
    AcceptedItemIds(s.items, maxCost, s.now);
    ActiveTasks(s.items, s.items, s.now);
    Admission.ChosenFit(m, st, n);
    var active, chosen := ActiveItems(s.items, s.now), CostChosen(s.items, maxCost, s.now, n);
    Admission.TotalOfConcat(TasksOf(active), TasksOf(chosen));
    CostIsTotal(active);
    CostIsTotal(chosen);
  }

  lemma {:induction false} ActiveWithinEngaged(a: seq<WorkItem>, now: Time, ready: seq<string>, b: seq<WorkItem>)
    requires SameItems(a, b) && forall i :: 0 <= i < |a| ==> a[i].cost >= 0
    requires forall i :: 0 <= i < |a| && ActiveAt(b[i], now) ==> Engaged(a[i], now, ready)
    ensures ActiveCost(b, now) <= EngagedCost(a, now, ready)
  {
    hide ActiveAt, Engaged;
    if a != [] {
      ActiveWithinEngaged(a[..|a| - 1], now, ready, b[..|b| - 1]);
    }
  }

  /** A ready item clashes, in either order, with nothing engaged. */
  lemma ReadyIsSeparate(s: System, maxCost: int, i: nat, j: nat)
    requires WorkAccepted(s.items, maxCost, s.now) && i < |s.items| && j < |s.items| && i != j
    requires s.items[i].id in WorkDecision(s.items, maxCost, s.now).ready
    requires Engaged(s.items[j], s.now, WorkDecision(s.items, maxCost, s.now).ready)
    ensures NoClash(s.items[i], s.items[j]) && NoClash(s.items[j], s.items[i])
  {
    hide Scheduler.Accepts, Schedulable, ActiveAt, WorkDecision, StateAt, Ownership.Conflict;
    AcceptedItemIds(s.items, maxCost, s.now);
    assert ItemIdsDistinct(s.items);
    assert TaskOf(s.items[i]).id != TaskOf(s.items[j]).id;
    EngagedIsListed(s, maxCost, i);
    EngagedIsListed(s, maxCost, j);
    ListedSeparate(ManifestOf(s.items, maxCost), StateAt(s.items, s.now), TaskOf(s.items[i]), TaskOf(s.items[j]));
  }

  /** Engaged items never clash: the decision keeps them apart from active ones and from each other. */
  lemma EngagedSeparate(s: System, maxCost: int, i: nat, j: nat)
    requires WorkAccepted(s.items, maxCost, s.now) && ActiveSeparate(s)
    requires i < |s.items| && j < |s.items| && i != j
    requires Engaged(s.items[i], s.now, WorkDecision(s.items, maxCost, s.now).ready)
    requires Engaged(s.items[j], s.now, WorkDecision(s.items, maxCost, s.now).ready)
    ensures NoClash(s.items[i], s.items[j])
  {
    hide WorkAccepted, ActiveAt, WorkDecision, NoClash;
    if s.items[i].id in WorkDecision(s.items, maxCost, s.now).ready {
      ReadyIsSeparate(s, maxCost, i, j);
    } else if s.items[j].id in WorkDecision(s.items, maxCost, s.now).ready {
      ReadyIsSeparate(s, maxCost, j, i);
    }
  }

  lemma ListedSeparate(m: Manifest, st: State, a: Task, b: Task)
    requires Scheduler.Accepts(m) && a.id != b.id
    requires a in Admission.Chosen(m, st, |m.tasks|) || b in Admission.Chosen(m, st, |m.tasks|)
    requires a in Admission.Chosen(m, st, |m.tasks|) || a in Admission.RunningTasks(m.tasks, st)
    requires b in Admission.Chosen(m, st, |m.tasks|) || b in Admission.RunningTasks(m.tasks, st)
    ensures Admission.Disjoint(a, b)
  {
    hide Scheduler.Accepts, Admission.Chosen, Admission.RunningTasks, Admission.Eligible, Ownership.Conflict;
    Admission.DecisionIsSafe(m, st);
  }

  lemma EngagedIsListed(s: System, maxCost: int, i: nat)
    requires WorkAccepted(s.items, maxCost, s.now) && i < |s.items|
    ensures s.items[i].id in WorkDecision(s.items, maxCost, s.now).ready ==>
              TaskOf(s.items[i]) in Admission.Chosen(ManifestOf(s.items, maxCost), StateAt(s.items, s.now), |s.items|)
    ensures ActiveAt(s.items[i], s.now) ==>
              TaskOf(s.items[i]) in Admission.RunningTasks(ManifestOf(s.items, maxCost).tasks, StateAt(s.items, s.now))
  {
    hide Scheduler.Accepts, Schedulable, Startable, ActiveAt, StatusAt, StateAt, Admission.Chosen;
    var m, st := ManifestOf(s.items, maxCost), StateAt(s.items, s.now);
    if s.items[i].id in WorkDecision(s.items, maxCost, s.now).ready {
      ReadyItem(s, maxCost, i);
    }
    AcceptedItemIds(s.items, maxCost, s.now);
    StateAtLookup(s.items, s.now);
    Admission.RunningComeFromTasks(m.tasks, st);
    StatusMeans(s.items[i], s.now);
    assert m.tasks[i] == TaskOf(s.items[i]);
  }

  // ---- One decision, in terms of the work states

  predicate DependsOnGivenUp(items: seq<WorkItem>, w: WorkItem) {
    exists d, j :: d in w.dependsOn && 0 <= j < |items| && items[j].id == d && GivenUp(items[j])
  }

  /** The item is waiting, and something it depends on has been given up. */
  predicate IsSkipped(items: seq<WorkItem>, now: Time, id: string) {
    exists i :: 0 <= i < |items| && items[i].id == id && WaitsAt(items[i], now) && DependsOnGivenUp(items, items[i])
  }

  lemma DependencyGivenUp(s: System, maxCost: int, i: nat)
    requires WorkAccepted(s.items, maxCost, s.now) && i < |s.items|
    ensures var t, st := TaskOf(s.items[i]), StateAt(s.items, s.now);
            && (Admission.DependencyFailed(t, st) <==> DependsOnGivenUp(s.items, s.items[i]))
            && (Admission.StatusOf(st, t.id) == Scheduler.Pending <==> WaitsAt(s.items[i], s.now))
  {
    hide Scheduler.Accepts, Schedulable, StatusAt, GivenUp, WaitsAt, StateAt;
    AcceptedItemIds(s.items, maxCost, s.now);
    StateAtLookup(s.items, s.now);
    var st := StateAt(s.items, s.now);
    forall j | 0 <= j < |s.items|
      ensures Admission.StatusOf(st, s.items[j].id) == StatusAt(s.items[j], s.now)
      ensures Admission.StatusOf(st, s.items[j].id) in {Scheduler.Failed, Scheduler.Skipped} <==> GivenUp(s.items[j])
    {
      StatusMeans(s.items[j], s.now);
    }
    StatusMeans(s.items[i], s.now);
  }

  /** What a decision takes on, in terms of the states of the items: with those that occupy it stays within the budget
      and free of clashes, it starts only what waits for nothing, and it skips exactly what waits for something given up. */
  lemma DecisionOverStates(s: System, maxCost: int)
    requires WorkAccepted(s.items, maxCost, s.now)
    ensures var d := WorkDecision(s.items, maxCost, s.now);
            && (d.ready != [] ==> EngagedCost(s.items, s.now, d.ready) <= maxCost)
            && (forall i, j :: 0 <= i < |s.items| && 0 <= j < |s.items| && i != j && s.items[i].id in d.ready
                  && (ActiveAt(s.items[j], s.now) || s.items[j].id in d.ready)
                  ==> NoClash(s.items[i], s.items[j]) && NoClash(s.items[j], s.items[i]))
            && (forall i :: 0 <= i < |s.items| && s.items[i].id in d.ready
                  ==> WaitsAt(s.items[i], s.now) && DependenciesLanded(s.items, s.items[i]))
            && (forall id :: id in d.skipped <==> IsSkipped(s.items, s.now, id))
  {
    SkippedOverStates(s, maxCost);
    hide WorkAccepted, WorkDecision, NoClash, ActiveAt, IsSkipped;
    var d := WorkDecision(s.items, maxCost, s.now);
    if d.ready != [] {
      EngagedFits(s, maxCost);
    }
    forall i, j | 0 <= i < |s.items| && 0 <= j < |s.items| && i != j && s.items[i].id in d.ready
                  && (ActiveAt(s.items[j], s.now) || s.items[j].id in d.ready)
      ensures NoClash(s.items[i], s.items[j]) && NoClash(s.items[j], s.items[i])
    {
      ReadyIsSeparate(s, maxCost, i, j);
    }
    forall i | 0 <= i < |s.items| && s.items[i].id in d.ready
      ensures WaitsAt(s.items[i], s.now) && DependenciesLanded(s.items, s.items[i])
    {
      ReadyItem(s, maxCost, i);
    }
  }

  lemma SkippedOverStates(s: System, maxCost: int)
    requires WorkAccepted(s.items, maxCost, s.now)
    ensures forall id :: id in WorkDecision(s.items, maxCost, s.now).skipped <==> IsSkipped(s.items, s.now, id)
  {
    hide Scheduler.Accepts, Schedulable, Admission.Chosen, WaitsAt, Admission.DependencyFailed, DependsOnGivenUp, StateAt,
      Admission.StatusOf;
    var m, st := ManifestOf(s.items, maxCost), StateAt(s.items, s.now);
    forall i | 0 <= i < |s.items|
      ensures m.tasks[i].id == s.items[i].id
      ensures Admission.DependencyFailed(m.tasks[i], st) <==> DependsOnGivenUp(s.items, s.items[i])
      ensures Admission.StatusOf(st, m.tasks[i].id) == Scheduler.Pending <==> WaitsAt(s.items[i], s.now)
    {
      DependencyGivenUp(s, maxCost, i);
    }
    forall id
      ensures id in Admission.SkippedIds(m.tasks, st) <==> IsSkipped(s.items, s.now, id)
    {
      if i :| 0 <= i < |s.items| && m.tasks[i].id == id && Admission.StatusOf(st, m.tasks[i].id) == Scheduler.Pending
              && Admission.DependencyFailed(m.tasks[i], st) {
        assert s.items[i].id == id;
      }
    }
  }

  // ---- Preservation

  lemma TickKeepsInvariant(s: System, maxCost: int, elapsed: nat)
    requires Invariant(s, maxCost)
    ensures Invariant(s.(now := s.now + elapsed), maxCost)
  {
    hide Ownership.Conflict, Blank;
    FewerActiveCostLess(s.items, s.now, s.items, s.now + elapsed);
  }

  lemma MoveKeepsInvariant(s: System, maxCost: int, i: nat, w: WorkItem, s': System)
    requires Invariant(s, maxCost) && Step(s, maxCost, Move(i, w), s')
    ensures Invariant(s', maxCost)
  {
    hide Ownership.Conflict, Blank, WorkAccepted;
    FewerActiveCostLess(s.items, s.now, s'.items, s.now);
    LandedStays(s, s');
  }

  /** An item that is not active keeps its state, so what has landed stays landed. */
  lemma LandedStays(s: System, s': System)
    requires SameItems(s.items, s'.items)
    requires forall i :: 0 <= i < |s.items| && s.items[i].state == Landed ==> s'.items[i].state == Landed
    ensures forall d :: LandedId(s.items, d) ==> LandedId(s'.items, d)
  {
    forall d | LandedId(s.items, d)
      ensures LandedId(s'.items, d)
    {
      var j :| 0 <= j < |s.items| && s.items[j].id == d && s.items[j].state == Landed;
      assert s'.items[j].id == d;
    }
  }

  lemma ClaimsEngageOnlyReady(s: System, maxCost: int, claims: seq<ClaimRequest>)
    requires ClaimsOfDecision(s, maxCost, claims)
    ensures var items' := AfterClaims(s.items, claims, s.now);
            && SameItems(s.items, items')
            && forall i :: 0 <= i < |s.items| ==>
                 || items'[i] == s.items[i]
                 || (s.items[i].id in WorkDecision(s.items, maxCost, s.now).ready && s.items[i].state != Landed)
  {
    hide WorkAccepted, WorkDecision;
    ClaimsTouchOnlyTheirItems(s.items, claims, s.now);
    forall i | 0 <= i < |s.items| && exists k :: 0 <= k < |claims| && claims[k].index == i
      ensures s.items[i].state != Landed
    {
      var k :| 0 <= k < |claims| && claims[k].index == i;
      ReadyItem(s, maxCost, i);
    }
  }

  lemma ClaimsKeepInvariant(s: System, maxCost: int, claims: seq<ClaimRequest>, s': System)
    requires Invariant(s, maxCost) && Step(s, maxCost, ClaimBatch(claims), s')
    ensures Invariant(s', maxCost)
  {
    hide WorkAccepted, WorkDecision, Ownership.Conflict, ActiveAt, AfterClaims;
    if claims == [] {
      EmptyBatch(s);
    } else {
      var ready := WorkDecision(s.items, maxCost, s.now).ready;
      ClaimsEngageOnlyReady(s, maxCost, claims);
      assert s.items[claims[0].index].id in ready;
      EngagedFits(s, maxCost);
      ActiveWithinEngaged(s.items, s.now, ready, s'.items);
      LandedStays(s, s');
      forall i, j | 0 <= i < |s'.items| && 0 <= j < |s'.items| && i != j && ActiveAt(s'.items[i], s.now) && ActiveAt(s'.items[j], s.now)
        ensures NoClash(s'.items[i], s'.items[j])
      {
        EngagedSeparate(s, maxCost, i, j);
        assert SameWork(s.items[i], s'.items[i]) && SameWork(s.items[j], s'.items[j]);
      }
      forall i | 0 <= i < |s'.items| && ActiveAt(s'.items[i], s.now)
        ensures DependenciesLanded(s'.items, s'.items[i])
      {
        assert SameWork(s.items[i], s'.items[i]);
        if s.items[i].id in ready {
          ReadyItem(s, maxCost, i);
        }
      }
    }
  }

  lemma EmptyBatch(s: System)
    ensures s.(items := AfterClaims(s.items, [], s.now)) == s
  {
  }

  lemma StepKeepsInvariant(s: System, maxCost: int, e: Event, s': System)
    requires Invariant(s, maxCost) && Step(s, maxCost, e, s')
    ensures Invariant(s', maxCost)
  {
    hide Invariant, ClaimsOfDecision, ActiveAt;
    match e
    case Tick(elapsed) => TickKeepsInvariant(s, maxCost, elapsed);
    case Move(i, w) => MoveKeepsInvariant(s, maxCost, i, w, s');
    case ClaimBatch(claims) => ClaimsKeepInvariant(s, maxCost, claims, s');
  }

  // ---- Runs

  ghost predicate Run(states: seq<System>, events: seq<Event>, maxCost: int) {
    && |states| == |events| + 1
    && forall k :: 0 <= k < |events| ==> Step(states[k], maxCost, events[k], states[k + 1])
  }

  /** Budget, separation and landed dependencies hold in every state of every run. */
  lemma {:induction false} RunKeepsInvariant(states: seq<System>, events: seq<Event>, maxCost: int, k: nat)
    requires Run(states, events, maxCost) && Invariant(states[0], maxCost) && k < |states|
    ensures Invariant(states[k], maxCost)
  {
    hide Invariant, Step;
    if k > 0 {
      RunKeepsInvariant(states, events, maxCost, k - 1);
      StepKeepsInvariant(states[k - 1], maxCost, events[k - 1], states[k]);
    }
  }

  /** Nothing is claimed before its dependencies have landed, nor while it is active. */
  lemma ClaimedOnlyWhenStartable(s: System, maxCost: int, claims: seq<ClaimRequest>, k: nat)
    requires ClaimsOfDecision(s, maxCost, claims) && k < |claims|
    ensures var w := s.items[claims[k].index];
            DependenciesLanded(s.items, w) && (w.state == Ready || (w.state == Claimed && !HasActiveLease(w, s.now)))
  {
    hide WorkAccepted, WorkDecision;
    ReadyItem(s, maxCost, claims[k].index);
  }

  lemma NeverReadyAgain(s: System, maxCost: int, e: Event, s': System, i: nat)
    requires Step(s, maxCost, e, s') && i < |s.items|
    ensures |s'.items| == |s.items|
    ensures s.items[i].state != Ready ==> s'.items[i].state != Ready
    ensures e.ClaimBatch? && (exists k :: 0 <= k < |e.claims| && e.claims[k].index == i) ==> s'.items[i].state == Claimed
  {
    hide WorkAccepted, WorkDecision, HasActiveLease;
    match e
    case Tick(elapsed) =>
    case Move(j, w) =>
    case ClaimBatch(claims) =>
      ClaimsTouchOnlyTheirItems(s.items, claims, s.now);
      if k :| 0 <= k < |claims| && claims[k].index == i {
        var j := FirstOn(claims, k);
        FirstClaimSucceeds(s, maxCost, claims, j);
      }
  }

  lemma {:induction false} StaysClaimedOrLater(states: seq<System>, events: seq<Event>, maxCost: int, i: nat, j: nat, k: nat)
    requires Run(states, events, maxCost) && j <= k < |states| && i < |states[j].items| && states[j].items[i].state != Ready
    ensures i < |states[k].items| && states[k].items[i].state != Ready
    decreases k
  {
    hide Step;
    if j < k {
      StaysClaimedOrLater(states, events, maxCost, i, j, k - 1);
      NeverReadyAgain(states[k - 1], maxCost, events[k - 1], states[k], i);
    }
  }

  predicate ClaimsItem(e: Event, i: nat) {
    e.ClaimBatch? && exists c :: 0 <= c < |e.claims| && e.claims[c].index == i
  }

  /** An item claimed twice in a run was still Claimed and its recorded lease had lapsed at the second claim. */
  lemma ReclaimNeedsLapsedLease(states: seq<System>, events: seq<Event>, maxCost: int, i: nat, first: nat, second: nat)
    requires Run(states, events, maxCost) && first < second < |events|
    requires ClaimsItem(events[first], i) && ClaimsItem(events[second], i)
    ensures i < |states[second].items|
    ensures var w := states[second].items[i]; w.state == Claimed && !HasActiveLease(w, states[second].now)
  {
    hide ClaimsOfDecision, HasActiveLease, AfterClaims;
    assert Step(states[first], maxCost, events[first], states[first + 1]);
    assert Step(states[second], maxCost, events[second], states[second + 1]);
    var a :| 0 <= a < |events[first].claims| && events[first].claims[a].index == i;
    var b :| 0 <= b < |events[second].claims| && events[second].claims[b].index == i;
    ClaimTargetsExist(states[first], maxCost, events[first].claims, a);
    NeverReadyAgain(states[first], maxCost, events[first], states[first + 1], i);
    StaysClaimedOrLater(states, events, maxCost, i, first + 1, second);
    ClaimedOnlyWhenStartable(states[second], maxCost, events[second].claims, b);
  }

  lemma ClaimTargetsExist(s: System, maxCost: int, claims: seq<ClaimRequest>, k: nat)
    requires ClaimsOfDecision(s, maxCost, claims) && k < |claims|
    ensures claims[k].index < |s.items|
  {
  }
}
