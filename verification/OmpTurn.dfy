/** The event stream of one OMP turn, over every sequence of frames, cancellations and failed deliveries. */
module OmpTurn {
  import opened Wrappers
  import opened Text
  import opened AgentProtocol

  datatype FrameType =
    | MessageStart | MessageEnd | ToolStart | ToolEnd | PromptResult | SessionSettled | OtherFrame(name: string)

  datatype PromptStatus = PromptCompleted | PromptAborted | PromptError | OtherPromptStatus(name: string)

  datatype Frame = Frame(
    frameType: FrameType, id: string, messageID: string, toolCallID: string, toolName: string, status: PromptStatus,
    sessionSettled: bool, isError: bool, promptError: string, raw: string)

  datatype Mapped = Unmapped | Mapped(event: Event, terminal: bool)

  function BaseEvent(threadID: string, turnID: string, sequence: int, t: EventType): Event {
    Event(sequence, t, threadID, turnID, turnID, NoStatus, None, "")
  }

  function MapFrame(f: Frame, threadID: string, turnID: string, sequence: int): Mapped {
    match f.frameType
    case MessageStart => MapMessage(f, threadID, turnID, sequence, ItemStarted, ItemRunning)
    case MessageEnd => MapMessage(f, threadID, turnID, sequence, ItemDone, ItemCompleted)
    case ToolStart => MapTool(f, threadID, turnID, sequence, ItemStarted, ItemRunning)
    case ToolEnd =>
      if f.isError then MapTool(f, threadID, turnID, sequence, ItemBroken, ItemFailed)
      else MapTool(f, threadID, turnID, sequence, ItemDone, ItemCompleted)
    case PromptResult => if f.id != turnID then Unmapped else MapResult(f, threadID, turnID, sequence)
    case _ => Unmapped
  }

  function MapMessage(f: Frame, threadID: string, turnID: string, sequence: int, t: EventType, s: ItemStatus): Mapped {
    if Blank(f.messageID) then Unmapped
    else
      var item := Item(f.messageID, threadID, turnID, Message, s, "", f.raw);
      Mapped(BaseEvent(threadID, turnID, sequence, t).(item := Some(item)), false)
  }

  function MapTool(f: Frame, threadID: string, turnID: string, sequence: int, t: EventType, s: ItemStatus): Mapped {
    if Blank(f.toolCallID) then Unmapped
    else
      var item := Item(f.toolCallID, threadID, turnID, ToolCall, s, f.toolName, f.raw);
      Mapped(BaseEvent(threadID, turnID, sequence, t).(item := Some(item)), false)
  }

  function MapResult(f: Frame, threadID: string, turnID: string, sequence: int): Mapped {
    match f.status
    case PromptCompleted => Mapped(BaseEvent(threadID, turnID, sequence, TurnCompleted).(status := Completed), true)
    case PromptAborted => Mapped(BaseEvent(threadID, turnID, sequence, TurnStatusChanged).(status := Interrupted), true)
    case PromptError =>
      var message := if Blank(f.promptError) then "OMP prompt failed" else f.promptError;
      Mapped(BaseEvent(threadID, turnID, sequence, TurnFailed).(status := Failed, error := message), true)
    case OtherPromptStatus(_) => Unmapped
  }

  // ---- The shape of a stream

  predicate IsStart(e: Event, turnID: string) {
    e.eventType == TurnStarted && e.status == Running && e.turnID == turnID
  }

  predicate IsItemEvent(e: Event, turnID: string) {
    e.eventType in {ItemStarted, ItemDone, ItemBroken} && e.status == NoStatus && e.item.Some? && e.turnID == turnID
  }

  predicate IsFinal(e: Event, turnID: string) {
    && e.turnID == turnID
    && (e.eventType, e.status) in {(TurnCompleted, Completed), (TurnStatusChanged, Interrupted), (TurnFailed, Failed)}
  }

  predicate Numbered(events: seq<Event>) {
    forall k :: 0 <= k < |events| ==> events[k].sequence == k + 1
  }

  /** A start followed by items only. */
  predicate Open(events: seq<Event>, turnID: string) {
    && (events != [] ==> IsStart(events[0], turnID))
    && forall k :: 1 <= k < |events| ==> IsItemEvent(events[k], turnID)
  }

  /** At most one terminal event, and it is the last. */
  predicate Shaped(events: seq<Event>, turnID: string) {
    Open(events, turnID) || (|events| > 1 && Open(events[..|events| - 1], turnID) && IsFinal(events[|events| - 1], turnID))
  }

  lemma MapFrameShape(f: Frame, threadID: string, turnID: string, sequence: int)
    ensures var m := MapFrame(f, threadID, turnID, sequence);
            m.Mapped? ==> m.event.sequence == sequence
    ensures var m := MapFrame(f, threadID, turnID, sequence);
            m.Mapped? ==> if m.terminal then IsFinal(m.event, turnID) else IsItemEvent(m.event, turnID)
    ensures var m := MapFrame(f, threadID, turnID, sequence);
            m.Mapped? && m.terminal ==> f.frameType == PromptResult && f.id == turnID
    ensures f.frameType == PromptResult && f.id == turnID ==>
              MapFrame(f, threadID, turnID, sequence) == MapResult(f, threadID, turnID, sequence)
    ensures f.frameType == SessionSettled ==> MapFrame(f, threadID, turnID, sequence).Unmapped?
  {
    hide Blank;
  }

  // ---- The loop

  /** What the select delivers: a frame, the end of the context, or the end of the frames. */
  datatype Input = Received(frame: Frame) | ContextDone | FramesClosed

  datatype Ending =
    | StillOpen
    | NotDelivered
    | Stopped
    | WithoutAgent
    | Terminal
    | UnknownResult

  predicate IsResult(i: Input, turnID: string, settled: bool) {
    && i.Received? && i.frame.frameType == PromptResult && i.frame.id == turnID && i.frame.sessionSettled == settled
  }

  /** Input j is the last result of this turn that came, before n, without the session having settled. */
  predicate LastPending(inputs: seq<Input>, turnID: string, n: nat, j: nat) {
    && j < n <= |inputs| && IsResult(inputs[j], turnID, false)
    && forall k :: j < k < n ==> !IsResult(inputs[k], turnID, false)
  }

  /** The result at j has decided the turn once n inputs have been read: the session settled with it or after it. */
  predicate DecidedBy(inputs: seq<Input>, turnID: string, n: nat, j: nat) {
    && 0 < n <= |inputs|
    && (|| (j == n - 1 && IsResult(inputs[j], turnID, true))
        || (inputs[n - 1].Received? && inputs[n - 1].frame.frameType == SessionSettled && LastPending(inputs, turnID, n - 1, j)))
  }

  predicate KnownResult(i: Input) {
    i.Received? && !i.frame.status.OtherPromptStatus?
  }

  /** Up to n nothing has ended the stream.  A result of unknown status that settled the session does not end it. */
  ghost predicate NothingDecided(inputs: seq<Input>, turnID: string, n: nat) {
    && n <= |inputs|
    && (forall i :: 0 <= i < n ==> inputs[i].Received?)
    && forall m: nat, j: nat :: m <= n && DecidedBy(inputs, turnID, m, j) ==>
         IsResult(inputs[j], turnID, true) && !KnownResult(inputs[j])
  }

  /** The item events of the frames received, numbered after the start. */
  function ItemEvents(inputs: seq<Input>, threadID: string, turnID: string): seq<Event> {
    if inputs == [] then []
    else
      var before, last := ItemEvents(inputs[..|inputs| - 1], threadID, turnID), inputs[|inputs| - 1];
      if last.Received?
      then
        var m := MapFrame(last.frame, threadID, turnID, |before| + 2);
        if m.Mapped? && !m.terminal then before + [m.event] else before
      else before
  }

  predicate AreItems(items: seq<Event>, turnID: string) {
    forall k :: 0 <= k < |items| ==> items[k].sequence == k + 2 && IsItemEvent(items[k], turnID)
  }

  lemma {:induction false} ItemEventsShape(inputs: seq<Input>, threadID: string, turnID: string)
    ensures AreItems(ItemEvents(inputs, threadID, turnID), turnID)
  {
    hide MapFrame, IsItemEvent, IsFinal;
    if inputs != [] {
      var before, last := ItemEvents(inputs[..|inputs| - 1], threadID, turnID), inputs[|inputs| - 1];
      ItemEventsShape(inputs[..|inputs| - 1], threadID, turnID);
      if last.Received? {
        MapFrameShape(last.frame, threadID, turnID, |before| + 2);
        var m := MapFrame(last.frame, threadID, turnID, |before| + 2);
        assert ItemEvents(inputs, threadID, turnID) == if m.Mapped? && !m.terminal then before + [m.event] else before;
      }
    }
  }

  function StartEvent(threadID: string, turnID: string): Event {
    BaseEvent(threadID, turnID, 1, TurnStarted).(status := Running)
  }

  /** Start and items of the first n inputs. */
  function SoFar(inputs: seq<Input>, n: nat, threadID: string, turnID: string): (r: seq<Event>)
    requires n <= |inputs|
    ensures r != []
  {
    [StartEvent(threadID, turnID)] + ItemEvents(inputs[..n], threadID, turnID)
  }

  lemma SoFarShape(inputs: seq<Input>, n: nat, threadID: string, turnID: string)
    requires n <= |inputs|
    ensures Open(SoFar(inputs, n, threadID, turnID), turnID) && Numbered(SoFar(inputs, n, threadID, turnID))
  {
    hide IsItemEvent, ItemEvents;
    ItemEventsShape(inputs[..n], threadID, turnID);
    StartThenItems(StartEvent(threadID, turnID), ItemEvents(inputs[..n], threadID, turnID), turnID);
  }

  lemma StartThenItems(start: Event, items: seq<Event>, turnID: string)
    requires IsStart(start, turnID) && start.sequence == 1 && AreItems(items, turnID)
    ensures Open([start] + items, turnID) && Numbered([start] + items)
  {
    hide IsItemEvent;
  }

  lemma SoFarGrows(inputs: seq<Input>, n: nat, threadID: string, turnID: string)
    requires n < |inputs| && inputs[n].Received?
    ensures var before := SoFar(inputs, n, threadID, turnID);
            var m := MapFrame(inputs[n].frame, threadID, turnID, |before| + 1);
            SoFar(inputs, n + 1, threadID, turnID) == if m.Mapped? && !m.terminal then before + [m.event] else before
  {
    hide MapFrame;
    assert inputs[..n + 1][..n] == inputs[..n];
  }

  /** Start and items of a longer stretch extend those of a shorter one. */
  lemma {:induction false} SoFarExtends(inputs: seq<Input>, m: nat, n: nat, threadID: string, turnID: string)
    requires m <= n <= |inputs|
    ensures SoFar(inputs, m, threadID, turnID) <= SoFar(inputs, n, threadID, turnID)
    decreases n
  {
    hide SoFar;
    if m < n {
      SoFarExtends(inputs, m, n - 1, threadID, turnID);
      if inputs[n - 1].Received? {
        SoFarGrows(inputs, n - 1, threadID, turnID);
      } else {
        OtherInputAddsNothing(inputs, n - 1, threadID, turnID);
      }
    }
  }

  /** A started turn; deliver says which sends go through. */
  datatype StartedTurn = StartedTurn(threadID: string, turnID: string, agentInvoked: bool, deliver: nat -> bool) {
    /** The first n sends go through. */
    predicate Delivers(n: nat) {
      forall k :: 0 <= k < n ==> deliver(k)
    }

    function OpenPart(inputs: seq<Input>, read: nat): (r: seq<Event>)
      requires read <= |inputs|
      ensures r != []
    {
      SoFar(inputs, read, threadID, turnID)
    }

    /** The event for a turn that never involved an agent. */
    function CommandDone(): Event {
      BaseEvent(threadID, turnID, 2, TurnCompleted).(status := Completed)
    }

    /** What is sent when e comes last: e itself may fail to be delivered. */
    function Closing(open: seq<Event>, e: Event): seq<Event> {
      if deliver(|open|) then open + [e] else open
    }
  }

  /** The result at j is the one that ends the stream, after n inputs. */
  ghost predicate Settles(inputs: seq<Input>, turnID: string, n: nat, j: nat) {
    && DecidedBy(inputs, turnID, n, j) && NothingDecided(inputs, turnID, n - 1)
    && (KnownResult(inputs[j]) || IsResult(inputs[j], turnID, false))
  }

  /** What each way of ending says about the inputs read and the events sent. */
  ghost predicate Explains(t: StartedTurn, inputs: seq<Input>, read: nat, events: seq<Event>, how: Ending, j: nat)
    requires read <= |inputs|
  {
    var open := t.OpenPart(inputs, read);
    match how
    case NotDelivered =>
      && events == open[..|open| - 1] && t.Delivers(|events|) && !t.deliver(|events|)
      && (read > 0 ==> t.agentInvoked && NothingDecided(inputs, t.turnID, read - 1))
    case WithoutAgent =>
      read == 0 && !t.agentInvoked && t.Delivers(1) && events == t.Closing(open, t.CommandDone())
    case StillOpen =>
      t.agentInvoked && t.Delivers(|open|) && read == |inputs| && NothingDecided(inputs, t.turnID, read) && events == open
    case Stopped =>
      && t.agentInvoked && t.Delivers(|open|) && 0 < read && !inputs[read - 1].Received?
      && NothingDecided(inputs, t.turnID, read - 1) && events == open
    case Terminal =>
      && t.agentInvoked && t.Delivers(|open|) && Settles(inputs, t.turnID, read, j) && KnownResult(inputs[j])
      && events == t.Closing(open, MapFrame(inputs[j].frame, t.threadID, t.turnID, |open| + 1).event)
    case UnknownResult =>
      && t.agentInvoked && t.Delivers(|open|) && Settles(inputs, t.turnID, read, j) && !KnownResult(inputs[j])
      && events == open
  }

  /** Reading one more frame that ends nothing. */
  lemma StillUndecided(inputs: seq<Input>, turnID: string, n: nat)
    requires n < |inputs| && NothingDecided(inputs, turnID, n) && inputs[n].Received?
    requires IsResult(inputs[n], turnID, true) ==> !KnownResult(inputs[n])
    requires inputs[n].frame.frameType == SessionSettled ==> forall j: nat :: !LastPending(inputs, turnID, n, j)
    ensures NothingDecided(inputs, turnID, n + 1)
  {
    forall m: nat, j: nat | m <= n + 1 && DecidedBy(inputs, turnID, m, j)
      ensures IsResult(inputs[j], turnID, true) && !KnownResult(inputs[j])
    {
      assert m == n + 1 ==> inputs[m - 1] == inputs[n];
    }
  }

  /** The pending result, if any, is the last unsettled one. */
  predicate PendingIs(inputs: seq<Input>, turnID: string, n: nat, pending: Option<Frame>, at: nat)
    requires n <= |inputs|
  {
    match pending
    case None => forall k :: 0 <= k < n ==> !IsResult(inputs[k], turnID, false)
    case Some(f) => LastPending(inputs, turnID, n, at) && inputs[at].frame == f
  }

  lemma PendingDecides(inputs: seq<Input>, turnID: string, n: nat, pending: Option<Frame>, at: nat)
    requires n < |inputs| && PendingIs(inputs, turnID, n, pending, at) && inputs[n].Received?
    ensures pending.None? ==> forall j: nat :: !LastPending(inputs, turnID, n, j)
    ensures pending.Some? && inputs[n].frame.frameType == SessionSettled ==> DecidedBy(inputs, turnID, n + 1, at)
    ensures IsResult(inputs[n], turnID, false) ==> PendingIs(inputs, turnID, n + 1, Some(inputs[n].frame), n)
    ensures !IsResult(inputs[n], turnID, false) ==> PendingIs(inputs, turnID, n + 1, pending, at)
  {
  }

  lemma NothingRead(inputs: seq<Input>, threadID: string, turnID: string)
    ensures SoFar(inputs, 0, threadID, turnID) == [StartEvent(threadID, turnID)]
    ensures NothingDecided(inputs, turnID, 0)
  {
    assert inputs[..0] == [];
  }

  lemma OtherInputAddsNothing(inputs: seq<Input>, n: nat, threadID: string, turnID: string)
    requires n < |inputs| && !inputs[n].Received?
    ensures SoFar(inputs, n + 1, threadID, turnID) == SoFar(inputs, n, threadID, turnID)
  {
    hide MapFrame;
    assert inputs[..n + 1][..n] == inputs[..n];
  }

  // ---- How the loop may be left

  /** The loop has read i inputs and nothing has ended the stream. */
  ghost predicate Reading(t: StartedTurn, inputs: seq<Input>, i: nat, events: seq<Event>) {
    && i <= |inputs| && t.agentInvoked && NothingDecided(inputs, t.turnID, i)
    && events == t.OpenPart(inputs, i) && t.Delivers(|events|)
  }

  lemma LeavesAtEnd(t: StartedTurn, inputs: seq<Input>, events: seq<Event>)
    requires Reading(t, inputs, |inputs|, events)
    ensures Explains(t, inputs, |inputs|, events, StillOpen, 0)
  {
    hide SoFar, NothingDecided;
  }

  lemma LeavesStopped(t: StartedTurn, inputs: seq<Input>, i: nat, events: seq<Event>)
    requires Reading(t, inputs, i, events) && i < |inputs| && !inputs[i].Received?
    ensures Explains(t, inputs, i + 1, events, Stopped, 0)
  {
    OtherInputAddsNothing(inputs, i, t.threadID, t.turnID);
    hide SoFar, NothingDecided;
  }

  /** The input that decides a turn adds no item. */
  lemma DeciderAddsNothing(t: StartedTurn, inputs: seq<Input>, i: nat, j: nat)
    requires i < |inputs| && DecidedBy(inputs, t.turnID, i + 1, j)
    ensures t.OpenPart(inputs, i + 1) == t.OpenPart(inputs, i)
    ensures j <= i && inputs[j].Received? && inputs[j].frame.frameType == PromptResult && inputs[j].frame.id == t.turnID
  {
    SoFarGrows(inputs, i, t.threadID, t.turnID);
    MapFrameShape(inputs[i].frame, t.threadID, t.turnID, |t.OpenPart(inputs, i)| + 1);
    hide SoFar, MapFrame;
  }

  lemma LeavesSettled(t: StartedTurn, inputs: seq<Input>, i: nat, events: seq<Event>, j: nat)
    requires Reading(t, inputs, i, events) && i < |inputs| && DecidedBy(inputs, t.turnID, i + 1, j)
    requires KnownResult(inputs[j]) || IsResult(inputs[j], t.turnID, false)
    ensures inputs[j].Received?
    ensures var m := MapFrame(inputs[j].frame, t.threadID, t.turnID, |events| + 1);
            && (m.Mapped? <==> KnownResult(inputs[j]))
            && (m.Mapped? ==> Explains(t, inputs, i + 1, t.Closing(events, m.event), Terminal, j))
            && (m.Unmapped? ==> Explains(t, inputs, i + 1, events, UnknownResult, j))
  {
    DeciderAddsNothing(t, inputs, i, j);
    MapFrameShape(inputs[j].frame, t.threadID, t.turnID, |events| + 1);
    assert Settles(inputs, t.turnID, i + 1, j);
    hide SoFar, NothingDecided, MapFrame, DecidedBy, Settles;
  }

  lemma LeavesUndelivered(t: StartedTurn, inputs: seq<Input>, i: nat, events: seq<Event>)
    requires Reading(t, inputs, i, events) && i < |inputs| && inputs[i].Received?
    requires MappedAt(t, inputs, i).Mapped? && !MappedAt(t, inputs, i).terminal && !t.deliver(|events|)
    ensures Explains(t, inputs, i + 1, events, NotDelivered, i)
  {
    OpenPartGrows(t, inputs, i);
    hide MappedAt, StartedTurn.OpenPart, StartedTurn.Delivers, NothingDecided;
    assert (events + [MappedAt(t, inputs, i).event])[..|events|] == events;
  }

  lemma StaysUndecided(inputs: seq<Input>, turnID: string, i: nat, pending: Option<Frame>, at: nat)
    requires i < |inputs| && NothingDecided(inputs, turnID, i) && inputs[i].Received?
    requires PendingIs(inputs, turnID, i, pending, at) && (inputs[i].frame.frameType == SessionSettled ==> pending.None?)
    requires IsResult(inputs[i], turnID, true) ==> !KnownResult(inputs[i])
    ensures NothingDecided(inputs, turnID, i + 1)
  {
    PendingDecides(inputs, turnID, i, pending, at);
    hide NothingDecided, LastPending, PendingIs;
    StillUndecided(inputs, turnID, i);
  }

  /** The frame at i after the items before it. */
  function MappedAt(t: StartedTurn, inputs: seq<Input>, i: nat): Mapped
    requires i < |inputs| && inputs[i].Received?
  {
    MapFrame(inputs[i].frame, t.threadID, t.turnID, |t.OpenPart(inputs, i)| + 1)
  }

  lemma OpenPartGrows(t: StartedTurn, inputs: seq<Input>, i: nat)
    requires i < |inputs| && inputs[i].Received?
    ensures var m := MappedAt(t, inputs, i);
            t.OpenPart(inputs, i + 1)
            == if m.Mapped? && !m.terminal then t.OpenPart(inputs, i) + [m.event] else t.OpenPart(inputs, i)
    ensures IsResult(inputs[i], t.turnID, false) ==> t.OpenPart(inputs, i + 1) == t.OpenPart(inputs, i)
  {
    SoFarGrows(inputs, i, t.threadID, t.turnID);
    MapFrameShape(inputs[i].frame, t.threadID, t.turnID, |t.OpenPart(inputs, i)| + 1);
    hide SoFar, MapFrame;
  }

  lemma ReadsPast(t: StartedTurn, inputs: seq<Input>, i: nat, events: seq<Event>)
    requires Reading(t, inputs, i, events) && i < |inputs| && inputs[i].Received? && NothingDecided(inputs, t.turnID, i + 1)
    requires MappedAt(t, inputs, i).Unmapped? || IsResult(inputs[i], t.turnID, false)
    ensures Reading(t, inputs, i + 1, events)
  {
    OpenPartGrows(t, inputs, i);
    hide MappedAt, StartedTurn.OpenPart, StartedTurn.Delivers, NothingDecided;
  }

  lemma DeliversOneMore(t: StartedTurn, n: nat)
    requires t.Delivers(n) && t.deliver(n)
    ensures t.Delivers(n + 1)
  {
  }

  lemma ReadsItem(t: StartedTurn, inputs: seq<Input>, i: nat, events: seq<Event>)
    requires Reading(t, inputs, i, events) && i < |inputs| && inputs[i].Received? && NothingDecided(inputs, t.turnID, i + 1)
    requires MappedAt(t, inputs, i).Mapped? && !MappedAt(t, inputs, i).terminal && t.deliver(|events|)
    ensures Reading(t, inputs, i + 1, events + [MappedAt(t, inputs, i).event])
  {
    OpenPartGrows(t, inputs, i);
    DeliversOneMore(t, |events|);
    hide MappedAt, StartedTurn.OpenPart, StartedTurn.Delivers, NothingDecided;
  }

  // ---- What the events say of the frames

  predicate IsMessage(f: Frame) {
    f.frameType in {MessageStart, MessageEnd}
  }

  /** Frames of messages and tools that name what they are about. */
  predicate NamesItem(f: Frame) {
    (IsMessage(f) && !Blank(f.messageID)) || (f.frameType in {ToolStart, ToolEnd} && !Blank(f.toolCallID))
  }

  function ItemFrames(inputs: seq<Input>): seq<Frame> {
    if inputs == [] then []
    else
      var before, last := ItemFrames(inputs[..|inputs| - 1]), inputs[|inputs| - 1];
      if last.Received? && NamesItem(last.frame) then before + [last.frame] else before
  }

  /** An item is running at its start, failed when its tool ended in an error, and completed at any other end. */
  predicate TellsStatus(s: ItemStatus, f: Frame) {
    && (s == ItemRunning <==> f.frameType in {MessageStart, ToolStart})
    && (s == ItemFailed <==> f.frameType == ToolEnd && f.isError)
    && (s == ItemCompleted <==> f.frameType == MessageEnd || (f.frameType == ToolEnd && !f.isError))
  }

  /** The event is about the item of the frame, with what the frame says of it. */
  predicate Tells(e: Event, f: Frame, threadID: string, turnID: string, sequence: int) {
    && e == Event(sequence, e.eventType, threadID, turnID, turnID, NoStatus, e.item, "") && e.item.Some?
    && var i := e.item.value;
       && TellsStatus(i.status, f) && i.threadID == threadID && i.turnID == turnID && i.payload == f.raw
       && (e.eventType, i.status) in {(ItemStarted, ItemRunning), (ItemDone, ItemCompleted), (ItemBroken, ItemFailed)}
       && (IsMessage(f) ==> i.itemType == Message && i.id == f.messageID && i.name == "")
       && (!IsMessage(f) ==> i.itemType == ToolCall && i.id == f.toolCallID && i.name == f.toolName)
  }

  /** The turn status that stands for a prompt result. */
  predicate Means(p: PromptStatus, t: TurnStatus) {
    (p, t) in {(PromptCompleted, Completed), (PromptAborted, Interrupted), (PromptError, Failed)}
  }

  /** The event ends the turn as the result says; only a failure carries an error, and never a blank one. */
  predicate TellsResult(e: Event, f: Frame, threadID: string, turnID: string, sequence: int) {
    && e == Event(sequence, e.eventType, threadID, turnID, turnID, e.status, None, e.error)
    && IsFinal(e, turnID) && Means(f.status, e.status)
    && (e.status != Failed ==> e.error == "")
    && (e.status == Failed ==> !Blank(e.error) && (!Blank(f.promptError) ==> e.error == f.promptError))
  }

  lemma DefaultErrorIsSomething()
    ensures !Blank("OMP prompt failed")
  {
    TrimSpaceKeeps("OMP prompt failed");
  }

  lemma MapFrameTells(f: Frame, threadID: string, turnID: string, sequence: int)
    ensures var m := MapFrame(f, threadID, turnID, sequence);
            && (m.Mapped? && !m.terminal <==> NamesItem(f))
            && (m.Mapped? && !m.terminal ==> Tells(m.event, f, threadID, turnID, sequence))
            && (m.Mapped? && m.terminal ==> TellsResult(m.event, f, threadID, turnID, sequence))
  {
    hide Blank;
    DefaultErrorIsSomething();
  }

  lemma OneMoreFrame(inputs: seq<Input>, threadID: string, turnID: string)
    requires inputs != []
    ensures var init, last := inputs[..|inputs| - 1], inputs[|inputs| - 1];
            var before, frames := ItemEvents(init, threadID, turnID), ItemFrames(init);
            if last.Received? && NamesItem(last.frame)
            then
              var m := MapFrame(last.frame, threadID, turnID, |before| + 2);
              && m.Mapped? && Tells(m.event, last.frame, threadID, turnID, |before| + 2)
              && ItemEvents(inputs, threadID, turnID) == before + [m.event] && ItemFrames(inputs) == frames + [last.frame]
            else ItemEvents(inputs, threadID, turnID) == before && ItemFrames(inputs) == frames
  {
    hide MapFrame, Tells, TellsResult, NamesItem;
    var init, last := inputs[..|inputs| - 1], inputs[|inputs| - 1];
    if last.Received? {
      MapFrameTells(last.frame, threadID, turnID, |ItemEvents(init, threadID, turnID)| + 2);
    }
  }

  predicate AllTold(events: seq<Event>, frames: seq<Frame>, threadID: string, turnID: string) {
    && |events| == |frames|
    && forall k :: 0 <= k < |frames| ==> Tells(events[k], frames[k], threadID, turnID, k + 2)
  }

  lemma {:induction false} ItemEventsTell(inputs: seq<Input>, threadID: string, turnID: string)
    ensures AllTold(ItemEvents(inputs, threadID, turnID), ItemFrames(inputs), threadID, turnID)
  {
    hide MapFrame, Tells, NamesItem;
    if inputs != [] {
      ItemEventsTell(inputs[..|inputs| - 1], threadID, turnID);
      OneMoreFrame(inputs, threadID, turnID);
      hide ItemEvents, ItemFrames;
    }
  }

  /** The open part of a stream: its start, then one event for each item frame. */
  predicate OpenTells(t: StartedTurn, open: seq<Event>, frames: seq<Frame>) {
    && |open| == |frames| + 1
    && open[0] == Event(1, TurnStarted, t.threadID, t.turnID, t.turnID, Running, None, "")
    && forall k :: 1 <= k <= |frames| ==> Tells(open[k], frames[k - 1], t.threadID, t.turnID, k + 1)
  }

  lemma OpenPartTells(t: StartedTurn, inputs: seq<Input>, read: nat)
    requires read <= |inputs|
    ensures OpenTells(t, t.OpenPart(inputs, read), ItemFrames(inputs[..read]))
  {
    hide Tells, ItemEvents, ItemFrames;
    ItemEventsTell(inputs[..read], t.threadID, t.turnID);
  }

  /** Event for event, what a stream has sent of the frames read: its start, one event for each item frame in order,
      and the event of the result that ended it. */
  ghost predicate StreamTells(t: StartedTurn, inputs: seq<Input>, read: nat, events: seq<Event>, how: Ending, j: nat)
    requires read <= |inputs|
  {
    var frames := ItemFrames(inputs[..read]);
    && (events != [] ==> events[0] == Event(1, TurnStarted, t.threadID, t.turnID, t.turnID, Running, None, ""))
    && (forall k :: 1 <= k < |events| && k <= |frames| ==> Tells(events[k], frames[k - 1], t.threadID, t.turnID, k + 1))
    && match how
       case NotDelivered => |events| == |frames|
       case WithoutAgent =>
         && frames == [] && |events| == (if t.deliver(1) then 2 else 1)
         && (t.deliver(1) ==> events[1] == Event(2, TurnCompleted, t.threadID, t.turnID, t.turnID, Completed, None, ""))
       case Terminal =>
         var n := |frames| + 1;
         && |events| == (if t.deliver(n) then n + 1 else n) && j < |inputs| && inputs[j].Received?
         && (t.deliver(n) ==> TellsResult(events[n], inputs[j].frame, t.threadID, t.turnID, n + 1))
       case _ => |events| == |frames| + 1
  }

  lemma TerminalTells(t: StartedTurn, inputs: seq<Input>, read: nat, j: nat)
    requires read <= |inputs| && DecidedBy(inputs, t.turnID, read, j) && KnownResult(inputs[j])
    ensures var n := |t.OpenPart(inputs, read)|;
            TellsResult(MapFrame(inputs[j].frame, t.threadID, t.turnID, n + 1).event, inputs[j].frame, t.threadID, t.turnID, n + 1)
  {
    hide MapFrame, DecidedBy, SoFar, TellsResult;
    var n := |t.OpenPart(inputs, read)|;
    DecidedByResult(inputs, t.turnID, read, j);
    MapFrameShape(inputs[j].frame, t.threadID, t.turnID, n + 1);
    MapFrameTells(inputs[j].frame, t.threadID, t.turnID, n + 1);
  }

  lemma DecidedByResult(inputs: seq<Input>, turnID: string, n: nat, j: nat)
    requires DecidedBy(inputs, turnID, n, j)
    ensures j < |inputs| && inputs[j].Received? && inputs[j].frame.frameType == PromptResult && inputs[j].frame.id == turnID
  {
  }

  lemma ExplainedTells(t: StartedTurn, inputs: seq<Input>, read: nat, events: seq<Event>, how: Ending, j: nat)
    requires read <= |inputs| && Explains(t, inputs, read, events, how, j)
    ensures StreamTells(t, inputs, read, events, how, j)
  {
    hide MapFrame, ItemFrames, Tells, TellsResult, NothingDecided, DecidedBy, StartedTurn.OpenPart, StartedTurn.Delivers;
    OpenPartTells(t, inputs, read);
    match how
    case Terminal =>
      TerminalTells(t, inputs, read, j);
      DecidedByResult(inputs, t.turnID, read, j);
    case WithoutAgent =>
      assert inputs[..read] == [];
      NoItemFrames();
    case _ =>
  }

  lemma NoItemFrames()
    ensures ItemFrames([]) == []
  {
  }

  /** Inputs that run out leave the stream waiting. */
  method StreamTurn(inputs: seq<Input>, t: StartedTurn)
    returns (events: seq<Event>, how: Ending, ghost read: nat, ghost decider: nat)
    ensures read <= |inputs| && Explains(t, inputs, read, events, how, decider)
    ensures StreamTells(t, inputs, read, events, how, decider)
    ensures how == WithoutAgent <==> !t.agentInvoked && t.deliver(0)
    ensures how == NotDelivered ==> t.Delivers(|events|) && !t.deliver(|events|)
  {
    hide MapFrame, SoFar, NothingDecided, LastPending, PendingIs, StreamTells;
    NothingRead(inputs, t.threadID, t.turnID);
    var sequence := 1;
    if !t.deliver(0) {
      ExplainedTells(t, inputs, 0, [], NotDelivered, 0);
      return [], NotDelivered, 0, 0;
    }
    events := [BaseEvent(t.threadID, t.turnID, sequence, TurnStarted).(status := Running)];
    sequence := sequence + 1;
    if !t.agentInvoked {
      if t.deliver(1) {
        events := events + [BaseEvent(t.threadID, t.turnID, sequence, TurnCompleted).(status := Completed)];
      }
      ExplainedTells(t, inputs, 0, events, WithoutAgent, 0);
      return events, WithoutAgent, 0, 0;
    }
    events, how, read, decider := StreamFrames(inputs, t, events);
    ExplainedTells(t, inputs, read, events, how, decider);
  }

  method StreamFrames(inputs: seq<Input>, t: StartedTurn, started: seq<Event>)
    returns (events: seq<Event>, how: Ending, ghost read: nat, ghost decider: nat)
    requires Reading(t, inputs, 0, started) && |started| == 1
    ensures read <= |inputs| && Explains(t, inputs, read, events, how, decider) && how != WithoutAgent
  {
    hide MapFrame, SoFar, Explains, DecidedBy, NothingDecided;
    events := started;
    var sequence := 2;
    var pendingTerminal: Option<Frame> := None;
    ghost var pendingAt: nat := 0;
    for i := 0 to |inputs|
      invariant Reading(t, inputs, i, events) && sequence == |events| + 1
      invariant PendingIs(inputs, t.turnID, i, pendingTerminal, pendingAt)
    {
      hide PendingIs;
      if !inputs[i].Received? {
        LeavesStopped(t, inputs, i, events);
        return events, Stopped, i + 1, 0;
      }
      var frame := inputs[i].frame;
      PendingDecides(inputs, t.turnID, i, pendingTerminal, pendingAt);
      MapFrameShape(frame, t.threadID, t.turnID, sequence);
      if frame.frameType == PromptResult && frame.id == t.turnID && !frame.sessionSettled {
        StaysUndecided(inputs, t.turnID, i, pendingTerminal, pendingAt);
        ReadsPast(t, inputs, i, events);
        pendingTerminal, pendingAt := Some(frame), i;
        continue;
      }
      if frame.frameType == SessionSettled && pendingTerminal.Some? {
        PendingIsResult(inputs, t.turnID, i, pendingTerminal.value, pendingAt);
        LeavesSettled(t, inputs, i, events, pendingAt);
        var settled := MapFrame(pendingTerminal.value, t.threadID, t.turnID, sequence);
        if settled.Mapped? {
          if t.deliver(|events|) {
            events := events + [settled.event];
          }
          return events, Terminal, i + 1, pendingAt;
        }
        return events, UnknownResult, i + 1, pendingAt;
      }
      var mapped := MapFrame(frame, t.threadID, t.turnID, sequence);
      if mapped.Unmapped? {
        StaysUndecided(inputs, t.turnID, i, pendingTerminal, pendingAt);
        ReadsPast(t, inputs, i, events);
        continue;
      }
      sequence := sequence + 1;
      if mapped.terminal {
        assert DecidedBy(inputs, t.turnID, i + 1, i) by {
          SettledResultDecides(inputs, t.turnID, i);
        }
        LeavesSettled(t, inputs, i, events, i);
      } else if t.deliver(|events|) {
        StaysUndecided(inputs, t.turnID, i, pendingTerminal, pendingAt);
        ReadsItem(t, inputs, i, events);
      } else {
        LeavesUndelivered(t, inputs, i, events);
      }
      if !t.deliver(|events|) {
        return events, if mapped.terminal then Terminal else NotDelivered, i + 1, i;
      }
      events := events + [mapped.event];
      if mapped.terminal {
        return events, Terminal, i + 1, i;
      }
    }
    LeavesAtEnd(t, inputs, events);
    return events, StillOpen, |inputs|, 0;
  }

  lemma SettledResultDecides(inputs: seq<Input>, turnID: string, i: nat)
    requires i < |inputs| && IsResult(inputs[i], turnID, true)
    ensures DecidedBy(inputs, turnID, i + 1, i)
  {
  }

  lemma PendingIsResult(inputs: seq<Input>, turnID: string, n: nat, f: Frame, at: nat)
    requires n <= |inputs| && PendingIs(inputs, turnID, n, Some(f), at)
    ensures at < n && inputs[at].Received? && inputs[at].frame == f && IsResult(inputs[at], turnID, false)
  {
  }

  /** However a stream ends: numbered 1, 2, 3, ..., at most one terminal event and that one last; a terminal event
      only without an agent, or once the session has settled with or after this turn's own result, which it reports. */
  lemma StreamIsShaped(t: StartedTurn, inputs: seq<Input>, read: nat, events: seq<Event>, how: Ending, j: nat)
    requires read <= |inputs| && Explains(t, inputs, read, events, how, j)
    ensures Numbered(events) && Shaped(events, t.turnID)
    ensures !Open(events, t.turnID) <==>
              && how in {WithoutAgent, Terminal} && t.deliver(|t.OpenPart(inputs, read)|)
    ensures !Open(events, t.turnID) && how == Terminal ==>
              && j < |inputs| && KnownResult(inputs[j]) && DecidedBy(inputs, t.turnID, read, j)
              && Means(inputs[j].frame.status, events[|events| - 1].status)
  {
    hide SoFar, MapFrame, NothingDecided, DecidedBy;
    var open := t.OpenPart(inputs, read);
    SoFarShape(inputs, read, t.threadID, t.turnID);
    OneMoreKeepsShape(open, t.CommandDone(), t.turnID);
    if how == Terminal {
      ResultIsFinal(inputs, read, t.threadID, t.turnID, |open| + 1, j);
      OneMoreKeepsShape(open, MapFrame(inputs[j].frame, t.threadID, t.turnID, |open| + 1).event, t.turnID);
    }
    if how == WithoutAgent {
      NothingRead(inputs, t.threadID, t.turnID);
    }
  }

  lemma OneMoreKeepsShape(open: seq<Event>, last: Event, turnID: string)
    requires Open(open, turnID) && Numbered(open) && open != []
    ensures IsFinal(last, turnID) && last.sequence == |open| + 1 ==>
              Shaped(open + [last], turnID) && !Open(open + [last], turnID) && Numbered(open + [last])
    ensures Open(open[..|open| - 1], turnID) && Numbered(open[..|open| - 1])
  {
    assert IsFinal(last, turnID) ==> !IsItemEvent(last, turnID);
    hide IsItemEvent;
    assert (open + [last])[..|open|] == open && (open + [last])[|open|] == last;
  }

  lemma ResultIsFinal(inputs: seq<Input>, read: nat, threadID: string, turnID: string, sequence: int, j: nat)
    requires DecidedBy(inputs, turnID, read, j) && KnownResult(inputs[j])
    ensures j < |inputs| && inputs[j].Received? && MapFrame(inputs[j].frame, threadID, turnID, sequence).Mapped?
    ensures IsFinal(MapFrame(inputs[j].frame, threadID, turnID, sequence).event, turnID)
    ensures MapFrame(inputs[j].frame, threadID, turnID, sequence).event.sequence == sequence
    ensures Means(inputs[j].frame.status, MapFrame(inputs[j].frame, threadID, turnID, sequence).event.status)
  {
    hide MapFrame;
    MapFrameShape(inputs[j].frame, threadID, turnID, sequence);
  }

  // ---- When the terminal event comes

  /** One result at most settles a turn, and at one point. */
  lemma SettledOnce(inputs: seq<Input>, turnID: string, n: nat, j: nat, n': nat, j': nat)
    requires Settles(inputs, turnID, n, j) && Settles(inputs, turnID, n', j')
    ensures n == n' && j == j'
  {
  }

  /** Before the point where a turn settles, no stream stops of its own. */
  lemma SettledIsReached(t: StartedTurn, inputs: seq<Input>, read: nat, events: seq<Event>, how: Ending, j: nat, n: nat, at: nat)
    requires read <= |inputs| && Explains(t, inputs, read, events, how, j) && t.agentInvoked
    requires Settles(inputs, t.turnID, n, at) && t.Delivers(|t.OpenPart(inputs, n)|)
    ensures read == n && j == at && how == if KnownResult(inputs[at]) then Terminal else UnknownResult
  {
    match how
    case NotDelivered =>
      if read <= n {
        SoFarExtends(inputs, read, n, t.threadID, t.turnID);
      }
    case Terminal => SettledOnce(inputs, t.turnID, read, j, n, at);
    case UnknownResult => SettledOnce(inputs, t.turnID, read, j, n, at);
    case _ =>
  }

  /** The turn settles at a result, and everything before its end is delivered. */
  ghost predicate Concludes(t: StartedTurn, inputs: seq<Input>, n: nat, j: nat) {
    t.agentInvoked && Settles(inputs, t.turnID, n, j) && t.Delivers(|t.OpenPart(inputs, n)|)
  }

  /** A stream ends with this turn's result exactly when one settles it: as terminal if its status is known, else mute. */
  lemma EndsExactlyWhenSettled(t: StartedTurn, inputs: seq<Input>, read: nat, events: seq<Event>, how: Ending, j: nat)
    requires read <= |inputs| && Explains(t, inputs, read, events, how, j)
    ensures how == Terminal <==> exists n: nat, at: nat :: Concludes(t, inputs, n, at) && KnownResult(inputs[at])
    ensures how == UnknownResult <==> exists n: nat, at: nat :: Concludes(t, inputs, n, at) && !KnownResult(inputs[at])
    ensures how == WithoutAgent <==> !t.agentInvoked && t.Delivers(1)
  {
    NothingRead(inputs, t.threadID, t.turnID);
    assert how in {Terminal, UnknownResult} ==> Concludes(t, inputs, read, j);
    assert how == Terminal ==> KnownResult(inputs[j]);
    assert how == UnknownResult ==> !KnownResult(inputs[j]);
    assert how == WithoutAgent <==> !t.agentInvoked && t.Delivers(1);
    forall n: nat, at: nat | Concludes(t, inputs, n, at)
      ensures how == if KnownResult(inputs[at]) then Terminal else UnknownResult
    {
      SettledIsReached(t, inputs, read, events, how, j, n, at);
    }
    hide Concludes, Explains, KnownResult;
  }

  /** The terminal event is sent exactly for a turn without an agent, or once a result of known status has settled
      the turn, provided it and all before it are delivered. */
  lemma TerminalEventExactly(t: StartedTurn, inputs: seq<Input>, read: nat, events: seq<Event>, how: Ending, j: nat)
    requires read <= |inputs| && Explains(t, inputs, read, events, how, j)
    ensures !Open(events, t.turnID) <==>
              || (!t.agentInvoked && t.Delivers(2))
              || (exists n: nat, at: nat ::
                    Concludes(t, inputs, n, at) && KnownResult(inputs[at]) && t.deliver(|t.OpenPart(inputs, n)|))
  {
    StreamIsShaped(t, inputs, read, events, how, j);
    EndsExactlyWhenSettled(t, inputs, read, events, how, j);
    NothingRead(inputs, t.threadID, t.turnID);
    assert how == WithoutAgent ==> |t.OpenPart(inputs, read)| == 1;
    assert how == Terminal ==> t.agentInvoked && Concludes(t, inputs, read, j) && KnownResult(inputs[j]);
    forall n: nat, at: nat | Concludes(t, inputs, n, at)
      ensures n == read && t.agentInvoked
    {
      SettledIsReached(t, inputs, read, events, how, j, n, at);
    }
    hide Concludes, Explains, KnownResult, Open;
  }

  function UnknownThenSettled(turnID: string): seq<Input> {
    var result := Frame(PromptResult, turnID, "", "", "", OtherPromptStatus("paused"), false, false, "", "");
    [Received(result), Received(result.(frameType := SessionSettled, id := ""))]
  }

  /** The input that ends without a terminal event: a result of unknown status, then the session settles. */
  lemma UnknownResultEndsMute(t: StartedTurn, read: nat, events: seq<Event>, how: Ending, j: nat)
    requires t.agentInvoked && t.Delivers(1)
    requires read <= 2 && Explains(t, UnknownThenSettled(t.turnID), read, events, how, j)
    ensures how == UnknownResult && events == [StartEvent(t.threadID, t.turnID)]
  {
    var inputs := UnknownThenSettled(t.turnID);
    NothingRead(inputs, t.threadID, t.turnID);
    SoFarGrows(inputs, 0, t.threadID, t.turnID);
    SoFarGrows(inputs, 1, t.threadID, t.turnID);
    assert Settles(inputs, t.turnID, 2, 0);
    hide SoFar, MapFrame, Settles;
    SettledIsReached(t, inputs, read, events, how, j, 2, 0);
  }
}
