/** Durable work items: validity, leases and claims. */
module WorkItems {
  import opened Wrappers
  import opened Text
  import opened Paths

  datatype WorkState =
    | Draft | Ready | Claimed | Implementing | Verifying | Reviewing | ReadyToLand | Landed | Failed | Cancelled
    | UnknownState(name: string)

  datatype RiskLevel = Low | Medium | High | Critical | UnknownRisk(name: string)

  /** Instants and durations are integers; 0 is the zero time. */
  type Time = int

  datatype WorkItem = WorkItem(
    id: string,
    repository: string,
    objective: string,
    dependsOn: seq<string>,
    ownershipPaths: seq<string>,
    risk: RiskLevel,
    cost: int,
    requiredGates: seq<string>,
    baseSHA: string,
    claimedBy: string,
    leaseUntil: Option<Time>,
    state: WorkState)

  predicate WellFormed(w: WorkItem) {
    && !Blank(w.id) && !Blank(w.repository) && !Blank(w.objective)
    && w.ownershipPaths != []
    && (forall i :: 0 <= i < |w.ownershipPaths| ==> NormalizePattern(w.ownershipPaths[i]).Success?)
    && !w.risk.UnknownRisk? && w.cost > 0 && !Blank(w.baseSHA) && !w.state.UnknownState?
    && (w.state == Claimed ==> !Blank(w.claimedBy) && w.leaseUntil.Some?)
  }

  method Validate(w: WorkItem) returns (ok: bool)
    ensures ok <==> WellFormed(w)
  {
    hide Blank, NormalizePattern;
    if Blank(w.id) || Blank(w.repository) || Blank(w.objective) || w.ownershipPaths == [] {
      return false;
    }
    for i := 0 to |w.ownershipPaths|
      invariant forall k :: 0 <= k < i ==> NormalizePattern(w.ownershipPaths[k]).Success?
    {
      var normal := NormalizePattern(w.ownershipPaths[i]);
      if normal.Failure? {
        return false;
      }
    }
    if w.risk.UnknownRisk? || w.cost <= 0 || Blank(w.baseSHA) || w.state.UnknownState? {
      return false;
    }
    if w.state == Claimed && (Blank(w.claimedBy) || w.leaseUntil.None?) {
      return false;
    }
    return true;
  }

  predicate HasActiveLease(w: WorkItem, now: Time) {
    !Blank(w.claimedBy) && w.leaseUntil.Some? && now < w.leaseUntil.value
  }

  predicate ClaimableAt(w: WorkItem, now: Time) {
    match w.state
    case Ready => true
    case Claimed => !HasActiveLease(w, now)
    case _ => false
  }

  datatype ClaimError = NoHolder | TtlNotPositive | LeaseHeld(holder: string) | NotClaimable(state: WorkState)

  function WithLease(w: WorkItem, holder: string, until: Time): WorkItem {
    w.(state := Claimed, claimedBy := TrimSpace(holder), leaseUntil := Some(until))
  }

  /** The fields of a work item that Claim writes, beside the ones it leaves alone. */
  class WorkRecord {
    const fixed: WorkItem
    var state: WorkState
    var claimedBy: string
    var leaseUntil: Option<Time>

    ghost function Value(): WorkItem
      reads this
    {
      fixed.(state := state, claimedBy := claimedBy, leaseUntil := leaseUntil)
    }

    constructor (w: WorkItem)
      ensures Value() == w
    {
      fixed := w;
      state, claimedBy, leaseUntil := w.state, w.claimedBy, w.leaseUntil;
    }

    method Claim(holder: string, now: Time, ttl: int) returns (r: Outcome<ClaimError>)
      modifies this`state, this`claimedBy, this`leaseUntil
      ensures r.Pass? <==> !Blank(holder) && ttl > 0 && ClaimableAt(old(Value()), now)
      ensures r.Pass? ==> Value() == WithLease(old(Value()), holder, now + ttl)
      ensures r.Pass? ==> state == Claimed && claimedBy == TrimSpace(holder) && leaseUntil == Some(now + ttl)
      ensures r.Fail? ==> Value() == old(Value())
      ensures r == Fail(LeaseHeld(old(claimedBy))) <==>
              !Blank(holder) && ttl > 0 && old(state) == Claimed && HasActiveLease(old(Value()), now)
    {
      hide TrimSpace;
      var trimmed := TrimSpace(holder);
      if trimmed == "" {
        return Fail(NoHolder);
      }
      if ttl <= 0 {
        return Fail(TtlNotPositive);
      }
      var leased := !Blank(claimedBy) && leaseUntil.Some? && now < leaseUntil.value;
      if state == Claimed && leased {
        return Fail(LeaseHeld(claimedBy));
      }
      if state != Ready && state != Claimed {
        return Fail(NotClaimable(state));
      }
      state := Claimed;
      claimedBy := trimmed;
      leaseUntil := Some(now + ttl);
      return Pass;
    }
  }
}
