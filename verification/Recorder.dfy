/** Recording a provider's events durably before they are shown, under failing writes, sinks and cancellation. */
module Recorder {
  import opened Wrappers
  import opened Text
  import opened AgentProtocol
  import OmpTurn

  datatype RecordError = MissingTurnID | MissingItem | InvalidTransition | NotPersisted | SinkFailed

  datatype Records = Records(turns: seq<Turn>, items: seq<Item>)

  class TurnStore {
    const outcome: nat -> WriteOutcome
    var writes: nat
    var turns: seq<Turn>
    var items: seq<Item>

    ghost function Value(): Records
      reads this
    {
      Records(turns, items)
    }

    constructor (outcome: nat -> WriteOutcome)
      ensures this.outcome == outcome && turns == [] && items == []
    {
      this.outcome := outcome;
      writes, turns, items := 0, [], [];
    }

    /** Every write since there had been n was stored. */
    predicate AllStoredSince(n: nat)
      reads this`writes
    {
      forall k :: n <= k < writes ==> outcome(k) == Stored
    }

    method PutTurn(t: Turn) returns (ok: bool)
      modifies this
      ensures items == old(items)
      ensures writes == old(writes) + 1 && (ok <==> outcome(old(writes)) == Stored)
      ensures turns == if outcome(old(writes)) == Refused then old(turns) else old(turns) + [t]
    {
      var o := outcome(writes);
      writes := writes + 1;
      if o != Refused {
        turns := turns + [t];
      }
      return o == Stored;
    }

    method PutItem(i: Item) returns (ok: bool)
      modifies this
      ensures turns == old(turns)
      ensures writes == old(writes) + 1 && (ok <==> outcome(old(writes)) == Stored)
      ensures items == if outcome(old(writes)) == Refused then old(items) else old(items) + [i]
    {
      var o := outcome(writes);
      writes := writes + 1;
      if o != Refused {
        items := items + [i];
      }
      return o == Stored;
    }
  }

  // ---- What one event writes

  predicate IsItemType(t: EventType) {
    t in {ItemStarted, ItemDone, ItemBroken}
  }

  predicate IsTurnType(t: EventType) {
    t in {TurnStatusChanged, TurnCompleted, TurnFailed}
  }

  predicate ChangesStatus(current: Option<Turn>, e: Event) {
    current.Some? && e.status != NoStatus && e.status != current.value.status
  }

  function NewTurn(threadID: string, e: Event, s: TurnStatus): Turn {
    Turn(e.turnID, threadID, FirstNonBlank(e.providerTurnID, e.turnID), s, false)
  }

  /** The turn record an event leads to, if it leads to one. */
  function TurnWrite(threadID: string, current: Option<Turn>, e: Event): Option<Turn> {
    if e.eventType == TurnStarted then
      Some(NewTurn(threadID, e, if e.status == NoStatus then Running else e.status))
    else if IsItemType(e.eventType) then
      if ChangesStatus(current, e) then Some(current.value.(status := e.status)) else None
    else if IsTurnType(e.eventType) then
      var turn := if current.Some? && current.value.id == e.turnID then current.value else NewTurn(threadID, e, NoStatus);
      var status := if e.status != NoStatus then e.status else turn.status;
      Some(turn.(status := status, finished := turn.finished || IsFinalStatus(status)))
    else None
  }

  function CurrentAfter(threadID: string, current: Option<Turn>, e: Event): Option<Turn> {
    var write := TurnWrite(threadID, current, e);
    if write.Some? then write else current
  }

  /** Events the recorder takes; of status changes only those that come with items are checked. */
  predicate Recordable(current: Option<Turn>, e: Event) {
    && (e.eventType == TurnStarted || IsTurnType(e.eventType) ==> !Blank(e.turnID))
    && (IsItemType(e.eventType) ==> e.item.Some?)
    && (IsItemType(e.eventType) && ChangesStatus(current, e) ==> CanTransition(current.value.status, e.status))
  }

  function ItemWrite(threadID: string, e: Event): seq<Item> {
    if IsItemType(e.eventType) && e.item.Some?
    then [e.item.value.(threadID := threadID, turnID := e.turnID)] else []
  }

  function AsSeq<T>(o: Option<T>): seq<T> {
    if o.Some? then [o.value] else []
  }

  /** What is there after a write of more: that and no other, and certainly that if sure. */
  predicate Kept<T(==)>(before: seq<T>, more: seq<T>, now: seq<T>, sure: bool) {
    now == before + more || (!sure && now == before)
  }

  /** What an event leaves in the store: its records on success; on failure no other, and no turn without its item. */
  predicate Leaves(threadID: string, current: Option<Turn>, e: Event, before: Records, after: Records, passed: bool) {
    && Kept(before.turns, AsSeq(TurnWrite(threadID, current, e)), after.turns, passed)
    && Kept(before.items, ItemWrite(threadID, e), after.items, passed || after.turns != before.turns)
    && (!Recordable(current, e) ==> after.turns == before.turns)
  }

  method PersistItemEvent(store: TurnStore, threadID: string, current: Option<Turn>, e: Event)
    returns (r: Outcome<RecordError>, next: Option<Turn>)
    requires IsItemType(e.eventType)
    modifies store
    ensures store.writes >= old(store.writes)
    ensures r.Pass? <==> Recordable(current, e) && store.AllStoredSince(old(store.writes))
    ensures r.Fail? ==> r.error != SinkFailed
    ensures next == if r.Pass? then CurrentAfter(threadID, current, e) else current
    ensures Leaves(threadID, current, e, old(store.Value()), store.Value(), r.Pass?)
  {
    hide CanTransition;
    if e.item.None? {
      return Fail(MissingItem), current;
    }
    var ok := store.PutItem(e.item.value.(threadID := threadID, turnID := e.turnID));
    if !ok {
      return Fail(NotPersisted), current;
    }
    if current.None? || e.status == NoStatus || e.status == current.value.status {
      return Pass, current;
    }
    if !CanTransition(current.value.status, e.status) {
      return Fail(InvalidTransition), current;
    }
    var updated := current.value.(status := e.status);
    ok := store.PutTurn(updated);
    if !ok {
      return Fail(NotPersisted), current;
    }
    return Pass, Some(updated);
  }

  method PersistTurnEvent(store: TurnStore, threadID: string, current: Option<Turn>, e: Event)
    returns (r: Outcome<RecordError>, next: Option<Turn>)
    requires e.eventType == TurnStarted || IsTurnType(e.eventType)
    modifies store
    ensures store.writes >= old(store.writes)
    ensures r.Pass? <==> Recordable(current, e) && store.AllStoredSince(old(store.writes))
    ensures r.Fail? ==> r.error != SinkFailed
    ensures next == if r.Pass? then CurrentAfter(threadID, current, e) else current
    ensures Leaves(threadID, current, e, old(store.Value()), store.Value(), r.Pass?)
  {
    hide Blank, FirstNonBlank, CanTransition;
    if Blank(e.turnID) {
      return Fail(MissingTurnID), current;
    }
    var turn;
    if e.eventType == TurnStarted {
      turn := NewTurn(threadID, e, if e.status == NoStatus then Running else e.status);
    } else {
      turn := if current.Some? && current.value.id == e.turnID then current.value else NewTurn(threadID, e, NoStatus);
      if e.status != NoStatus {
        turn := turn.(status := e.status);
      }
      if IsFinalStatus(turn.status) {
        turn := turn.(finished := true);
      }
    }
    hide NewTurn;
    var ok := store.PutTurn(turn);
    if !ok {
      return Fail(NotPersisted), current;
    }
    return Pass, Some(turn);
  }

  method PersistEvent(store: TurnStore, threadID: string, current: Option<Turn>, e: Event)
    returns (r: Outcome<RecordError>, next: Option<Turn>)
    modifies store
    ensures store.writes >= old(store.writes)
    ensures r.Pass? <==> Recordable(current, e) && store.AllStoredSince(old(store.writes))
    ensures r.Fail? ==> r.error != SinkFailed
    ensures next == if r.Pass? then CurrentAfter(threadID, current, e) else current
    ensures Leaves(threadID, current, e, old(store.Value()), store.Value(), r.Pass?)
  {
    match e.eventType
    case TurnStarted | TurnStatusChanged | TurnCompleted | TurnFailed =>
      hide *;
      r, next := PersistTurnEvent(store, threadID, current, e);
    case ItemStarted | ItemDone | ItemBroken =>
      hide *;
      r, next := PersistItemEvent(store, threadID, current, e);
    case OtherEventType(_) =>
      return Pass, current;
  }

  // ---- A whole run

  function Current(threadID: string, events: seq<Event>): Option<Turn> {
    if events == [] then None
    else CurrentAfter(threadID, Current(threadID, events[..|events| - 1]), events[|events| - 1])
  }

  /** The turn records that recording these events writes, in order. */
  function Written(threadID: string, events: seq<Event>): seq<Turn> {
    if events == [] then []
    else
      var init := events[..|events| - 1];
      Written(threadID, init) + AsSeq(TurnWrite(threadID, Current(threadID, init), events[|events| - 1]))
  }

  /** The item records, likewise. */
  function ItemsOf(threadID: string, events: seq<Event>): seq<Item> {
    if events == [] then []
    else ItemsOf(threadID, events[..|events| - 1]) + ItemWrite(threadID, events[|events| - 1])
  }

  /** Event i is taken after those before it. */
  predicate RecordableAt(threadID: string, events: seq<Event>, i: nat) {
    i < |events| && Recordable(Current(threadID, events[..i]), events[i])
  }

  function OnThread(threadID: string, events: seq<Event>): (r: seq<Event>)
    ensures |r| == |events| && forall i :: 0 <= i < |r| ==> r[i] == events[i].(threadID := threadID)
  {
    seq(|events|, i requires 0 <= i < |events| => events[i].(threadID := threadID))
  }

  lemma NothingWritten(threadID: string)
    ensures Current(threadID, []) == None && Written(threadID, []) == [] && ItemsOf(threadID, []) == []
  {
  }

  /** Recording one more event. */
  lemma WrittenGrows(threadID: string, all: seq<Event>, i: nat)
    requires i < |all|
    ensures Current(threadID, all[..i + 1]) == CurrentAfter(threadID, Current(threadID, all[..i]), all[i])
    ensures Written(threadID, all[..i + 1])
            == Written(threadID, all[..i]) + AsSeq(TurnWrite(threadID, Current(threadID, all[..i]), all[i]))
    ensures ItemsOf(threadID, all[..i + 1]) == ItemsOf(threadID, all[..i]) + ItemWrite(threadID, all[i])
  {
    hide TurnWrite, CurrentAfter, ItemWrite;
    assert all[..i + 1][..i] == all[..i];
  }

  /** When the run is cancelled, and what the sink and the caller make of each event. */
  datatype Faults = Faults(cancelled: nat -> bool, sink: Option<nat -> bool>, notTaken: nat -> bool) {
    predicate Handles(i: nat) {
      sink.Some? ==> sink.value(i)
    }

    predicate Undisturbed(n: nat) {
      forall i :: 0 <= i < n ==> !cancelled(i) && Handles(i) && !notTaken(i)
    }
  }

  /** How far each stage of a run got, and up to which event turn and item records reached the store. */
  datatype Progress = Progress(exposed: nat, handled: nat, persisted: nat, turnsUpTo: nat, itemsUpTo: nat) {
    /** No stage overtakes the one before it, and the last is at most one event behind the first. */
    predicate InOrder(n: nat) {
      && exposed <= handled <= persisted <= turnsUpTo <= itemsUpTo <= n
      && itemsUpTo <= persisted + 1 && persisted <= exposed + 1
    }
  }

  /** Everything shown has been handled by the sink, and everything handled has been stored.  The run stops early only
      for a reason: an event that cannot be recorded or a write that failed, the sink, or a cancellation. */
  method RecordRun(store: TurnStore, threadID: string, provided: seq<Event>, f: Faults)
    returns (exposed: seq<Event>, handled: seq<Event>, persisted: seq<Event>, r: Outcome<RecordError>, ghost p: Progress)
    modifies store
    ensures var all := OnThread(threadID, provided);
            && p.InOrder(|all|)
            && exposed == all[..p.exposed] && handled == all[..p.handled] && persisted == all[..p.persisted]
            && store.turns == old(store.turns) + Written(threadID, all[..p.turnsUpTo])
            && store.items == old(store.items) + ItemsOf(threadID, all[..p.itemsUpTo])
            && (forall i :: 0 <= i < p.persisted ==> RecordableAt(threadID, all, i))
    ensures r == Fail(SinkFailed) <==> p.handled < p.persisted
    ensures r == Fail(SinkFailed) ==> !f.Handles(p.handled)
    ensures r.Fail? && r != Fail(SinkFailed) ==>
              && p.exposed == p.persisted < |provided|
              && !(RecordableAt(threadID, OnThread(threadID, provided), p.persisted) && store.AllStoredSince(old(store.writes)))
    ensures r.Pass? ==> store.AllStoredSince(old(store.writes)) && p.itemsUpTo == p.persisted
    ensures r.Pass? && p.exposed < |provided| ==>
              if p.persisted == p.exposed then f.cancelled(p.exposed) else f.notTaken(p.exposed)
    ensures f.Undisturbed(|provided|) && store.AllStoredSince(old(store.writes))
              && (forall i :: 0 <= i < |provided| ==> RecordableAt(threadID, OnThread(threadID, provided), i))
            ==> r.Pass? && exposed == OnThread(threadID, provided)
  {
    hide TurnWrite, Recordable, CurrentAfter, Written, Current, AsSeq, ItemsOf, ItemWrite;
    NothingWritten(threadID);
    exposed, handled, persisted := [], [], [];
    var current: Option<Turn> := None;
    ghost var all := OnThread(threadID, provided);
    assert all[..0] == [];
    for i := 0 to |provided|
      invariant exposed == handled == persisted == all[..i]
      invariant current == Current(threadID, all[..i])
      invariant store.turns == old(store.turns) + Written(threadID, all[..i])
      invariant store.items == old(store.items) + ItemsOf(threadID, all[..i])
      invariant store.writes >= old(store.writes) && store.AllStoredSince(old(store.writes))
      invariant forall k :: 0 <= k < i ==> RecordableAt(threadID, all, k)
    {
      p := Progress(i, i, i, i, i);
      if f.cancelled(i) {
        return exposed, handled, persisted, Pass, p;
      }
      var event := provided[i].(threadID := threadID);
      assert all[i] == event && all[..i + 1] == all[..i] + [event];
      WrittenGrows(threadID, all, i);
      ghost var turns, items := store.turns, store.items;
      var next;
      r, next := PersistEvent(store, threadID, current, event);
      if r.Fail? {
        p := Progress(i, i, i, if store.turns == turns then i else i + 1,
                      if store.turns == turns && store.items == items then i else i + 1);
        return exposed, handled, persisted, r, p;
      }
      persisted := persisted + [event];
      p := Progress(i, i, i + 1, i + 1, i + 1);
      current := next;
      if f.sink.Some? && !f.sink.value(i) {
        return exposed, handled, persisted, Fail(SinkFailed), p;
      }
      handled := handled + [event];
      p := p.(handled := i + 1);
      if f.notTaken(i) {
        return exposed, handled, persisted, Pass, p;
      }
      exposed := exposed + [event];
    }
    assert all[..|provided|] == all;
    var n := |provided|;
    return exposed, handled, persisted, Pass, Progress(n, n, n, n, n);
  }

  // ---- What the records say, for any provider

  predicate IsTurnEvent(e: Event) {
    e.eventType == TurnStarted || IsTurnType(e.eventType)
  }

  /** The turn on record is that of the last turn event. */
  lemma {:induction false} CurrentIsOfLastTurnEvent(threadID: string, events: seq<Event>, i: nat)
    requires i < |events| && IsTurnEvent(events[i]) && forall k :: i < k < |events| ==> !IsTurnEvent(events[k])
    ensures Current(threadID, events).Some? && Current(threadID, events).value.id == events[i].turnID
  {
    hide FirstNonBlank;
    if i < |events| - 1 {
      CurrentIsOfLastTurnEvent(threadID, events[..|events| - 1], i);
    }
  }

  lemma {:induction false} CurrentIsOnThread(threadID: string, events: seq<Event>)
    ensures Current(threadID, events).Some? ==> Current(threadID, events).value.threadID == threadID
  {
    hide FirstNonBlank;
    if events != [] {
      CurrentIsOnThread(threadID, events[..|events| - 1]);
    }
  }

  /** Event k gives a status to the turn on record: it starts one or is about one, or comes while there is one. */
  predicate GivesStatus(threadID: string, events: seq<Event>, k: nat) {
    && k < |events| && events[k].status != NoStatus
    && (IsTurnEvent(events[k]) || (IsItemType(events[k].eventType) && Current(threadID, events[..k]).Some?))
  }

  /** The event says nothing about status and is not about another turn. */
  predicate LeavesStatus(e: Event, turnID: string) {
    e.status == NoStatus && e.eventType != TurnStarted && (IsTurnType(e.eventType) ==> e.turnID == turnID)
  }

  /** The status on record is the one given last, on the turn it was given to. */
  lemma {:induction false} StatusIsTheLastGiven(threadID: string, events: seq<Event>, k: nat)
    requires GivesStatus(threadID, events, k) && Current(threadID, events[..k + 1]).Some?
    requires forall n :: k < n < |events| ==> LeavesStatus(events[n], Current(threadID, events[..k + 1]).value.id)
    ensures Current(threadID, events).Some? && Current(threadID, events).value.status == events[k].status
    ensures Current(threadID, events).value.id == Current(threadID, events[..k + 1]).value.id
  {
    hide FirstNonBlank;
    var init := events[..|events| - 1];
    if k < |events| - 1 {
      assert init[..k] == events[..k] && init[..k + 1] == events[..k + 1];
      StatusIsTheLastGiven(threadID, init, k);
    } else {
      assert init == events[..k] && events[..k + 1] == events;
    }
  }

  /** A turn started without a status is running; and a turn is finished once a turn event has left it in a final status. */
  lemma StartsRunning(threadID: string, events: seq<Event>)
    requires events != []
    ensures var e := events[|events| - 1];
            && (e.eventType == TurnStarted && e.status == NoStatus ==>
                  Current(threadID, events) == Some(Turn(e.turnID, threadID, FirstNonBlank(e.providerTurnID, e.turnID), Running, false)))
            && (IsTurnType(e.eventType) && IsFinalStatus(Current(threadID, events).value.status) ==>
                  Current(threadID, events).value.finished)
  {
    hide FirstNonBlank;
  }

  /** A status that comes with an item is taken only along an edge of the transition table. */
  lemma ItemsMoveAlongEdges(threadID: string, events: seq<Event>, i: nat)
    requires RecordableAt(threadID, events, i) && IsItemType(events[i].eventType) && Current(threadID, events[..i]).Some?
    ensures Current(threadID, events[..i + 1]).Some?
    ensures var before, after := Current(threadID, events[..i]).value, Current(threadID, events[..i + 1]).value;
            after.id == before.id && (after.status == before.status || CanTransition(before.status, after.status))
  {
    hide CanTransition;
    WrittenGrows(threadID, events, i);
  }

  lemma {:induction false} ItemsOfPlainEvents(threadID: string, events: seq<Event>, more: seq<Event>)
    requires forall e :: e in more ==> !IsItemType(e.eventType)
    ensures ItemsOf(threadID, events + more) == ItemsOf(threadID, events)
  {
    if more == [] {
      assert events + more == events;
    } else {
      ItemsOfPlainEvents(threadID, events, more[..|more| - 1]);
      assert (events + more)[..|events + more| - 1] == events + more[..|more| - 1];
    }
  }

  // ---- OMP turns through the recorder

  lemma {:induction false} OpenTurnIsRunning(threadID: string, turnID: string, events: seq<Event>)
    requires OmpTurn.Open(events, turnID) && events != []
    ensures Written(threadID, events) == [NewTurn(threadID, events[0], Running)]
    ensures Current(threadID, events) == Some(NewTurn(threadID, events[0], Running))
  {
    hide Blank, FirstNonBlank;
    var init, last := events[..|events| - 1], events[|events| - 1];
    if init != [] {
      OpenTurnIsRunning(threadID, turnID, init);
      assert OmpTurn.IsItemEvent(last, turnID);
    } else {
      assert Written(threadID, init) == [] && Current(threadID, init) == None;
    }
  }

  /** One turn, running first, then at most one final status along an edge the protocol allows. */
  predicate RunsThenEnds(turnID: string, written: seq<Turn>) {
    && |written| <= 2
    && (|written| >= 1 ==> written[0].id == turnID && written[0].status == Running && !written[0].finished)
    && (|written| == 2 ==>
          && written[1] == written[0].(status := written[1].status, finished := true)
          && IsFinalStatus(written[1].status) && CanTransition(Running, written[1].status))
  }

  /** Whatever part of an OMP turn's stream gets recorded, its stored turn goes from running to at most one final status. */
  lemma OmpTurnRunsThenEnds(threadID: string, turnID: string, events: seq<Event>, n: nat)
    requires OmpTurn.Shaped(events, turnID) && n <= |events|
    ensures RunsThenEnds(turnID, Written(threadID, OnThread(threadID, events)[..n]))
  {
    OnThreadKeepsShape(threadID, turnID, events, n);
    ShapedRunsThenEnds(threadID, turnID, OnThread(threadID, events)[..n]);
  }

  /** From frames to storage: any part of any OMP stream, however it ended, leaves such a turn. */
  lemma OmpTurnIsStoredSoundly(t: OmpTurn.StartedTurn, inputs: seq<OmpTurn.Input>, read: nat, events: seq<Event>,
                               how: OmpTurn.Ending, j: nat, threadID: string, n: nat)
    requires read <= |inputs| && OmpTurn.Explains(t, inputs, read, events, how, j) && n <= |events|
    ensures RunsThenEnds(t.turnID, Written(threadID, OnThread(threadID, events)[..n]))
  {
    hide *;
    OmpTurn.StreamIsShaped(t, inputs, read, events, how, j);
    OmpTurnRunsThenEnds(threadID, t.turnID, events, n);
  }

  /** The recorder takes every event of an OMP stream, so only writes, sink and cancellation can stop it. */
  lemma OmpTurnIsRecordable(threadID: string, turnID: string, events: seq<Event>, i: nat)
    requires OmpTurn.Shaped(events, turnID) && !Blank(turnID) && i < |events|
    ensures RecordableAt(threadID, OnThread(threadID, events), i)
  {
    hide Blank, Current, CanTransition;
    assert i < |events| - 1 ==> events[..|events| - 1][i] == events[i];
  }

  lemma OnThreadKeepsShape(threadID: string, turnID: string, events: seq<Event>, n: nat)
    requires OmpTurn.Shaped(events, turnID) && n <= |events|
    ensures OmpTurn.Shaped(OnThread(threadID, events)[..n], turnID)
  {
    var all := OnThread(threadID, events)[..n];
    if !OmpTurn.Open(events, turnID) && n == |events| {
      assert forall k :: 0 <= k < n - 1 ==> events[..n - 1][k] == events[k];
    } else {
      assert n < |events| ==> forall k :: 0 <= k < n ==> events[..|events| - 1][k] == events[k];
    }
  }

  lemma ShapedRunsThenEnds(threadID: string, turnID: string, all: seq<Event>)
    requires OmpTurn.Shaped(all, turnID)
    ensures RunsThenEnds(turnID, Written(threadID, all))
  {
    hide Blank, FirstNonBlank, OmpTurn.Open;
    if OmpTurn.Open(all, turnID) {
      if all != [] {
        OpenTurnIsRunning(threadID, turnID, all);
        StartsTurn(turnID, all);
      }
    } else {
      var open, last := all[..|all| - 1], all[|all| - 1];
      OpenTurnIsRunning(threadID, turnID, open);
      StartsTurn(turnID, open);
      assert all == open + [last];
    }
  }

  lemma StartsTurn(turnID: string, open: seq<Event>)
    requires OmpTurn.Open(open, turnID) && open != []
    ensures open[0].turnID == turnID
  {
  }

  // ---- OMP items through the recorder

  /** A stored item and the frame it goes back to. */
  predicate StoredFrom(i: Item, f: OmpTurn.Frame, threadID: string, turnID: string) {
    && OmpTurn.TellsStatus(i.status, f) && i.threadID == threadID && i.turnID == turnID && i.payload == f.raw
    && (OmpTurn.IsMessage(f) ==> i.itemType == Message && i.id == f.messageID && i.name == "")
    && (!OmpTurn.IsMessage(f) ==> i.itemType == ToolCall && i.id == f.toolCallID && i.name == f.toolName)
  }

  lemma ItemIsStored(threadID: string, e: Event, f: OmpTurn.Frame, thread: string, turnID: string, sequence: int)
    requires OmpTurn.Tells(e, f, thread, turnID, sequence)
    ensures var write := ItemWrite(threadID, e.(threadID := threadID));
            |write| == 1 && StoredFrom(write[0], f, threadID, turnID)
  {
  }

  predicate AllStored(items: seq<Item>, frames: seq<OmpTurn.Frame>, threadID: string, turnID: string) {
    |items| <= |frames| && forall k :: 0 <= k < |items| ==> StoredFrom(items[k], frames[k], threadID, turnID)
  }

  lemma OneMoreStored(items: seq<Item>, i: Item, frames: seq<OmpTurn.Frame>, threadID: string, turnID: string)
    requires AllStored(items, frames, threadID, turnID) && |items| < |frames|
    requires StoredFrom(i, frames[|items|], threadID, turnID)
    ensures AllStored(items + [i], frames, threadID, turnID)
  {
    hide StoredFrom;
  }

  lemma NoneStored(frames: seq<OmpTurn.Frame>, threadID: string, turnID: string)
    ensures AllStored([], frames, threadID, turnID)
  {
  }

  lemma OneMoreItem(threadID: string, events: seq<Event>, n: nat)
    requires n < |events|
    ensures var all := OnThread(threadID, events);
            ItemsOf(threadID, all[..n + 1]) == ItemsOf(threadID, all[..n]) + ItemWrite(threadID, events[n].(threadID := threadID))
  {
    hide ItemsOf, ItemWrite;
    WrittenGrows(threadID, OnThread(threadID, events), n);
  }

  lemma StartStoresNothing(threadID: string, events: seq<Event>)
    requires events != [] && events[0].eventType == TurnStarted
    ensures ItemsOf(threadID, OnThread(threadID, events)[..1]) == []
  {
    var all := OnThread(threadID, events);
    assert all[..1][..0] == [];
  }

  /** Of a started stream's first n events, those after the start leave one item each, in the order of the frames. */
  lemma {:induction false} ItemsFollowFrames(t: OmpTurn.StartedTurn, threadID: string, events: seq<Event>,
                                             frames: seq<OmpTurn.Frame>, n: nat)
    requires 1 <= n <= |events| && n <= |frames| + 1 && events[0].eventType == TurnStarted
    requires forall k :: 1 <= k < n ==> OmpTurn.Tells(events[k], frames[k - 1], t.threadID, t.turnID, k + 1)
    ensures |ItemsOf(threadID, OnThread(threadID, events)[..n])| == n - 1
    ensures AllStored(ItemsOf(threadID, OnThread(threadID, events)[..n]), frames, threadID, t.turnID)
  {
    hide *;
    if n == 1 {
      StartStoresNothing(threadID, events);
      NoneStored(frames, threadID, t.turnID);
    } else {
      OneMoreItem(threadID, events, n - 1);
      ItemsFollowFrames(t, threadID, events, frames, n - 1);
      ItemIsStored(threadID, events[n - 1], frames[n - 2], t.threadID, t.turnID, n);
      var write := ItemWrite(threadID, events[n - 1].(threadID := threadID));
      var before := ItemsOf(threadID, OnThread(threadID, events)[..n - 1]);
      assert write == [write[0]];
      OneMoreStored(before, write[0], frames, threadID, t.turnID);
    }
  }

  /** After the start and the items of a stream comes one event at most, and that is about the turn. */
  lemma RestIsAboutTheTurn(t: OmpTurn.StartedTurn, inputs: seq<OmpTurn.Input>, read: nat, events: seq<Event>,
                           how: OmpTurn.Ending, j: nat, threadID: string)
    requires read <= |inputs| && OmpTurn.StreamTells(t, inputs, read, events, how, j) && events != []
    ensures var n := |OmpTurn.ItemFrames(inputs[..read])| + 1;
            && events[0].eventType == TurnStarted && (how != OmpTurn.NotDelivered ==> |events| >= n)
            && (forall k :: n <= k < |events| ==> !IsItemType(events[k].eventType))
            && (forall k :: 1 <= k < |events| && k < n ==>
                  OmpTurn.Tells(events[k], OmpTurn.ItemFrames(inputs[..read])[k - 1], t.threadID, t.turnID, k + 1))
  {
    hide OmpTurn.Tells, OmpTurn.ItemFrames, OmpTurn.Means;
  }

  lemma PlainStaysPlain(threadID: string, events: seq<Event>, n: nat)
    requires n <= |events| && forall k :: n <= k < |events| ==> !IsItemType(events[k].eventType)
    ensures ItemsOf(threadID, OnThread(threadID, events)) == ItemsOf(threadID, OnThread(threadID, events)[..n])
  {
    hide ItemsOf, IsItemType;
    var all := OnThread(threadID, events);
    assert all == all[..n] + all[n..];
    ItemsOfPlainEvents(threadID, all[..n], all[n..]);
  }

  /** From frames to stored items: one for each item frame whose event was sent, saying what the frame says. */
  lemma OmpItemsAreStored(t: OmpTurn.StartedTurn, inputs: seq<OmpTurn.Input>, read: nat, events: seq<Event>,
                          how: OmpTurn.Ending, j: nat, threadID: string)
    requires read <= |inputs| && OmpTurn.Explains(t, inputs, read, events, how, j) && events != []
    ensures var frames, items := OmpTurn.ItemFrames(inputs[..read]), ItemsOf(threadID, OnThread(threadID, events));
            && (how != OmpTurn.NotDelivered ==> |items| == |frames|)
            && AllStored(items, frames, threadID, t.turnID)
  {
    hide *;
    OmpTurn.ExplainedTells(t, inputs, read, events, how, j);
    RestIsAboutTheTurn(t, inputs, read, events, how, j, threadID);
    var frames := OmpTurn.ItemFrames(inputs[..read]);
    var n := if |events| <= |frames| + 1 then |events| else |frames| + 1;
    ItemsFollowFrames(t, threadID, events, frames, n);
    PlainStaysPlain(threadID, events, n);
  }
}
