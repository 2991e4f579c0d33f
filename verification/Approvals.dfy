/** Delivering approval decisions: the durable item guards each dispatch. */
module Approvals {
  import opened Wrappers
  import opened Text
  import opened AgentProtocol

  datatype ApprovalResponse = ApprovalResponse(threadID: string, turnID: string, itemID: string, decision: Decision)

  datatype ApprovalError =
    | MissingIDs | InvalidDecision | NotFound | OwnershipMismatch | NotAnApproval | Indeterminate(status: ItemStatus)
    | TurnNotPaused | Unsupported | NotPersisted | ProviderFailed

  /** Durable state, with what the provider was asked and what it accepted for each item, oldest first.
      A thread is there with whether its provider takes approvals. */
  datatype Desk = Desk(
    threads: map<string, bool>,
    turns: map<string, Turn>,
    items: map<string, Item>,
    dispatched: map<string, seq<Decision>>,
    accepted: map<string, seq<Decision>>)

  function LogOf(log: map<string, seq<Decision>>, id: string): seq<Decision> {
    if id in log then log[id] else []
  }

  function FinalStatus(d: Decision): ItemStatus {
    if d == Approve then ItemCompleted else ItemCancelled
  }

  /** The response names an approval item, and the turn and thread it belongs to. */
  predicate Addressed(s: Desk, r: ApprovalResponse) {
    && !Blank(r.threadID) && !Blank(r.turnID) && !Blank(r.itemID) && r.decision in {Approve, Deny}
    && r.threadID in s.threads && r.turnID in s.turns && r.itemID in s.items
    && s.turns[r.turnID].threadID == r.threadID && s.items[r.itemID].threadID == r.threadID
    && s.items[r.itemID].turnID == r.turnID && s.items[r.itemID].itemType == Approval
  }

  predicate IsDecided(status: ItemStatus) {
    status == ItemCompleted || status == ItemCancelled
  }

  /** The item already shows the opposite decision. */
  predicate DecidedOtherwise(s: Desk, r: ApprovalResponse) {
    r.itemID in s.items && IsDecided(s.items[r.itemID].status) && s.items[r.itemID].status != FinalStatus(r.decision)
  }

  predicate Dispatchable(s: Desk, r: ApprovalResponse) {
    && Addressed(s, r) && s.items[r.itemID].status == ItemPending
    && s.turns[r.turnID].status == PausedApproval && s.threads[r.threadID]
  }

  /** How far a call got with a pending item. */
  datatype Delivery = Delivery(status: ItemStatus, dispatched: bool, accepted: bool, resumed: bool)

  predicate Possible(decision: Decision, d: Delivery) {
    && (d.accepted ==> d.dispatched)
    && (d.status == FinalStatus(decision) ==> d.accepted)
    && (d.resumed ==> d.status == FinalStatus(decision))
    && (d.status == ItemPending ==> !d.accepted)
    && d.status in {ItemPending, ItemRunning, FinalStatus(decision)}
  }

  function AfterDelivery(s: Desk, r: ApprovalResponse, d: Delivery): Desk
    requires r.itemID in s.items && r.turnID in s.turns
  {
    Desk(
      s.threads,
      if d.resumed then s.turns[r.turnID := s.turns[r.turnID].(status := Running)] else s.turns,
      s.items[r.itemID := s.items[r.itemID].(status := d.status)],
      if d.dispatched then s.dispatched[r.itemID := LogOf(s.dispatched, r.itemID) + [r.decision]] else s.dispatched,
      if d.accepted then s.accepted[r.itemID := LogOf(s.accepted, r.itemID) + [r.decision]] else s.accepted)
  }

  /** A call dispatches at most once, only from a pending item of a paused turn, and otherwise changes nothing. */
  predicate Answered(s: Desk, r: ApprovalResponse, s': Desk, d: Delivery) {
    if Dispatchable(s, r) then Possible(r.decision, d) && s' == AfterDelivery(s, r, d) else s' == s
  }

  class ApprovalManager {
    const outcome: nat -> WriteOutcome
    const provider: nat -> bool
    var writes: nat
    var calls: nat
    var desk: Desk

    constructor (desk: Desk, outcome: nat -> WriteOutcome, provider: nat -> bool)
      ensures this.desk == desk && this.outcome == outcome && this.provider == provider
    {
      this.desk, this.outcome, this.provider := desk, outcome, provider;
      writes, calls := 0, 0;
    }

    method PutItem(i: Item) returns (ok: bool)
      modifies this`desk, this`writes
      ensures desk == old(desk) || desk == old(desk).(items := old(desk).items[i.id := i])
      ensures ok ==> desk == old(desk).(items := old(desk).items[i.id := i])
      ensures (forall n: nat :: outcome(n) == Stored) ==> ok
    {
      var o := outcome(writes);
      writes := writes + 1;
      if o != Refused {
        desk := desk.(items := desk.items[i.id := i]);
      }
      return o == Stored;
    }

    method PutTurn(t: Turn) returns (ok: bool)
      modifies this`desk, this`writes
      ensures desk == old(desk) || desk == old(desk).(turns := old(desk).turns[t.id := t])
      ensures ok ==> desk == old(desk).(turns := old(desk).turns[t.id := t])
      ensures (forall n: nat :: outcome(n) == Stored) ==> ok
    {
      var o := outcome(writes);
      writes := writes + 1;
      if o != Refused {
        desk := desk.(turns := desk.turns[t.id := t]);
      }
      return o == Stored;
    }

    /** The provider's own RespondApproval; an error from it means the response was not accepted. */
    method Dispatch(r: ApprovalResponse) returns (ok: bool)
      modifies this`desk, this`calls
      ensures desk == old(desk).(
                dispatched := old(desk).dispatched[r.itemID := LogOf(old(desk).dispatched, r.itemID) + [r.decision]],
                accepted := if ok then old(desk).accepted[r.itemID := LogOf(old(desk).accepted, r.itemID) + [r.decision]]
                            else old(desk).accepted)
      ensures (forall n: nat :: provider(n)) ==> ok
    {
      ok := provider(calls);
      calls := calls + 1;
      desk := desk.(dispatched := desk.dispatched[r.itemID := LogOf(desk.dispatched, r.itemID) + [r.decision]]);
      if ok {
        desk := desk.(accepted := desk.accepted[r.itemID := LogOf(desk.accepted, r.itemID) + [r.decision]]);
      }
    }

    /** A decided item is left alone and reported as answered: success means the item shows this decision, exactly
        unless it showed the opposite one before. */
    method RespondApproval(r: ApprovalResponse) returns (result: Outcome<ApprovalError>, ghost d: Delivery)
      requires forall id :: id in desk.items ==> desk.items[id].id == id
      requires forall id :: id in desk.turns ==> desk.turns[id].id == id
      modifies this
      ensures Answered(old(desk), r, desk, d)
      ensures result.Pass? && Dispatchable(old(desk), r) ==> d == Delivery(FinalStatus(r.decision), true, true, true)
      ensures result.Pass? && Dispatchable(old(desk), r) ==>
                && desk.turns == old(desk.turns)[r.turnID := old(desk.turns)[r.turnID].(status := Running)]
                && LogOf(desk.accepted, r.itemID) == LogOf(old(desk.accepted), r.itemID) + [r.decision]
      ensures Dispatchable(old(desk), r) && (forall n: nat :: outcome(n) == Stored && provider(n)) ==> result.Pass?
      ensures result.Pass? ==> r.itemID in desk.items && IsDecided(desk.items[r.itemID].status)
      ensures result.Pass? ==> (desk.items[r.itemID].status != FinalStatus(r.decision) <==> DecidedOtherwise(old(desk), r))
      ensures !Dispatchable(old(desk), r) ==>
                (result.Pass? <==> Addressed(old(desk), r) && IsDecided(old(desk).items[r.itemID].status))
    {
      hide Blank;
      d := Delivery(ItemPending, false, false, false);
      if Blank(r.threadID) || Blank(r.turnID) || Blank(r.itemID) {
        return Fail(MissingIDs), d;
      }
      if r.decision != Approve && r.decision != Deny {
        return Fail(InvalidDecision), d;
      }
      if r.threadID !in desk.threads || r.turnID !in desk.turns || r.itemID !in desk.items {
        return Fail(NotFound), d;
      }
      var turn, item := desk.turns[r.turnID], desk.items[r.itemID];
      if turn.threadID != r.threadID || item.threadID != r.threadID || item.turnID != r.turnID {
        return Fail(OwnershipMismatch), d;
      }
      if item.itemType != Approval {
        return Fail(NotAnApproval), d;
      }
      if item.status == ItemCompleted || item.status == ItemCancelled {
        return Pass, d;
      }
      if item.status != ItemPending {
        return Fail(Indeterminate(item.status)), d;
      }
      if turn.status != PausedApproval {
        return Fail(TurnNotPaused), d;
      }
      if !desk.threads[r.threadID] {
        return Fail(Unsupported), d;
      }
      result, d := Deliver(r, turn, item);
    }

    /** From a pending item: mark it running, dispatch, and record the outcome; a failed dispatch is taken back. */
    method Deliver(r: ApprovalResponse, turn: Turn, item: Item) returns (result: Outcome<ApprovalError>, ghost d: Delivery)
      requires Dispatchable(desk, r) && item == desk.items[r.itemID] && turn == desk.turns[r.turnID]
      requires item.id == r.itemID && turn.id == r.turnID
      modifies this
      ensures Possible(r.decision, d) && desk == AfterDelivery(old(desk), r, d)
      ensures result.Pass? ==> d == Delivery(FinalStatus(r.decision), true, true, true)
      ensures (forall n: nat :: outcome(n) == Stored && provider(n)) ==> result.Pass?
    {
      hide Blank, CanTransition, LogOf;
      ghost var start := desk;
      assert start.items[r.itemID := item] == start.items;
      var inflight := item.(status := ItemRunning);
      var ok := PutItem(inflight);
      if !ok {
        d := Delivery(if desk == start then ItemPending else ItemRunning, false, false, false);
        return Fail(NotPersisted), d;
      }
      ok := Dispatch(r);
      if !ok {
        ghost var asked := desk;
        var _ := PutItem(item);
        assert start.items[r.itemID := inflight][r.itemID := item] == start.items[r.itemID := item];
        d := Delivery(if desk == asked then ItemRunning else ItemPending, true, false, false);
        return Fail(ProviderFailed), d;
      }
      assert desk == AfterDelivery(start, r, Delivery(ItemRunning, true, true, false));
      result, d := RecordDecision(r, turn, inflight, start);
    }

    /** After acceptance: the item gets its final status and then the turn runs again. */
    method RecordDecision(r: ApprovalResponse, turn: Turn, inflight: Item, ghost start: Desk)
      returns (result: Outcome<ApprovalError>, ghost d: Delivery)
      requires r.itemID in start.items && r.turnID in start.turns && r.decision in {Approve, Deny}
      requires turn == start.turns[r.turnID] && turn.id == r.turnID && turn.status == PausedApproval
      requires inflight == start.items[r.itemID].(status := ItemRunning) && inflight.id == r.itemID
      requires desk == AfterDelivery(start, r, Delivery(ItemRunning, true, true, false))
      modifies this
      ensures Possible(r.decision, d) && desk == AfterDelivery(start, r, d)
      ensures result.Pass? ==> d == Delivery(FinalStatus(r.decision), true, true, true)
      ensures (forall n: nat :: outcome(n) == Stored) ==> result.Pass?
    {
      hide CanTransition, LogOf;
      ghost var told := desk;
      var finalItem := inflight.(status := if r.decision == Approve then ItemCompleted else ItemCancelled);
      var ok := PutItem(finalItem);
      assert start.items[r.itemID := inflight][r.itemID := finalItem] == start.items[r.itemID := finalItem];
      d := Delivery(if desk == told then ItemRunning else FinalStatus(r.decision), true, true, false);
      if !ok {
        return Fail(NotPersisted), d;
      }
      ghost var decided := desk;
      ok := PutTurn(turn.(status := Running));
      d := Delivery(FinalStatus(r.decision), true, true, desk != decided);
      if !ok {
        return Fail(NotPersisted), d;
      }
      return Pass, d;
    }
  }

  const PAUSED := Desk(
    map["thread" := true],
    map["turn" := Turn("turn", "thread", "turn", PausedApproval, false)],
    map["item" := Item("item", "thread", "turn", Approval, ItemPending, "", "")],
    map[], map[])

  /** Approving and then denying one item succeeds both times; the provider has accepted the first decision only. */
  method ApproveThenDeny() returns (first: Outcome<ApprovalError>, second: Outcome<ApprovalError>, accepted: seq<Decision>)
    ensures first == second == Pass && accepted == [Approve]
  {
    var manager := new ApprovalManager(PAUSED, _ => Stored, _ => true);
    NamesNotBlank();
    hide Blank;
    ghost var d;
    first, d := manager.RespondApproval(ApprovalResponse("thread", "turn", "item", Approve));
    second, d := manager.RespondApproval(ApprovalResponse("thread", "turn", "item", Deny));
    accepted := LogOf(manager.desk.accepted, "item");
  }

  lemma NamesNotBlank()
    ensures !Blank("thread") && !Blank("turn") && !Blank("item")
  {
    TrimSpaceKeeps("thread");
    TrimSpaceKeeps("turn");
    TrimSpaceKeeps("item");
  }

  // ---- Any number of calls, one after the other

  /** Between the calls turns may be written by others; the items are not. */
  datatype Event = Call(r: ApprovalResponse, d: Delivery) | TurnsChange

  predicate Step(s: Desk, e: Event, s': Desk) {
    match e
    case Call(r, d) => Answered(s, r, s', d)
    case TurnsChange => s' == s.(turns := s'.turns, threads := s'.threads)
  }

  ghost predicate Run(ss: seq<Desk>, events: seq<Event>) {
    |ss| == |events| + 1 && forall i :: 0 <= i < |events| ==> Step(ss[i], events[i], ss[i + 1])
  }

  /** The item tells what has been accepted, and at most one response ever is. */
  predicate Tells(s: Desk, id: string) {
    id in s.items &&
    var log := LogOf(s.accepted, id);
    match s.items[id].status
    case ItemPending => log == []
    case ItemCompleted => log == [Approve]
    case ItemCancelled => log == [Deny]
    case _ => |log| <= 1
  }

  lemma StepKeepsTelling(s: Desk, e: Event, s': Desk, id: string)
    requires Step(s, e, s') && Tells(s, id)
    ensures Tells(s', id)
  {
    hide Blank;
  }

  /** However calls, store and provider fail: at most one response is accepted for an item, and a decided item
      shows the accepted decision. */
  lemma {:induction false} AtMostOneAccepted(ss: seq<Desk>, events: seq<Event>, id: string, i: nat)
    requires Run(ss, events) && Tells(ss[0], id) && i < |ss|
    ensures Tells(ss[i], id) && |LogOf(ss[i].accepted, id)| <= 1
  {
    if i > 0 {
      AtMostOneAccepted(ss, events, id, i - 1);
      hide Step, Tells;
      StepKeepsTelling(ss[i - 1], events[i - 1], ss[i], id);
    }
  }

  lemma StepLeavesAlone(s: Desk, e: Event, s': Desk, id: string)
    requires Step(s, e, s') && id in s.items && s.items[id].status != ItemPending
    ensures id in s'.items && s'.items[id] == s.items[id]
    ensures LogOf(s'.dispatched, id) == LogOf(s.dispatched, id) && LogOf(s'.accepted, id) == LogOf(s.accepted, id)
  {
    hide Blank;
  }

  /** An item that has left pending, in particular one left running, is never dispatched again. */
  lemma {:induction false} NeverRedispatched(ss: seq<Desk>, events: seq<Event>, id: string, i: nat, j: nat)
    requires Run(ss, events) && i <= j < |ss| && id in ss[i].items && ss[i].items[id].status != ItemPending
    ensures id in ss[j].items && ss[j].items[id] == ss[i].items[id]
    ensures LogOf(ss[j].dispatched, id) == LogOf(ss[i].dispatched, id)
    decreases j
  {
    if i < j {
      NeverRedispatched(ss, events, id, i, j - 1);
      hide Step;
      StepLeavesAlone(ss[j - 1], events[j - 1], ss[j], id);
    }
  }

  /** Turns and items of one thread, and the item of that turn: what a dispatched response must be about. */
  predicate BelongTogether(s: Desk, threadID: string, turnID: string, itemID: string) {
    && threadID in s.threads && s.threads[threadID] && turnID in s.turns && itemID in s.items
    && s.turns[turnID].threadID == threadID && s.items[itemID].threadID == threadID && s.items[itemID].turnID == turnID
  }

  /** The log of dispatches to item id grew from one state to the next. */
  predicate Dispatched(s: Desk, s': Desk, id: string) {
    LogOf(s'.dispatched, id) != LogOf(s.dispatched, id)
  }

  /** Every dispatch of every run is of a response that decides a pending approval of a paused turn, all of one thread;
      it is logged for that item, and acceptance is only ever logged with it. */
  lemma DispatchedBelongTogether(ss: seq<Desk>, events: seq<Event>, i: nat, id: string)
    requires Run(ss, events) && i < |events|
    ensures Dispatched(ss[i], ss[i + 1], id) ==>
              && events[i].Call?
              && var r := events[i].r;
                 && r.itemID == id && r.decision in {Approve, Deny}
                 && BelongTogether(ss[i], r.threadID, r.turnID, r.itemID)
                 && ss[i].items[id].itemType == Approval && ss[i].items[id].status == ItemPending
                 && ss[i].turns[r.turnID].status == PausedApproval
                 && LogOf(ss[i + 1].dispatched, id) == LogOf(ss[i].dispatched, id) + [r.decision]
    ensures LogOf(ss[i + 1].accepted, id) != LogOf(ss[i].accepted, id) ==>
              && Dispatched(ss[i], ss[i + 1], id)
              && LogOf(ss[i + 1].accepted, id) == LogOf(ss[i].accepted, id) + [events[i].r.decision]
  {
    hide Blank;
    assert Step(ss[i], events[i], ss[i + 1]);
  }
}
