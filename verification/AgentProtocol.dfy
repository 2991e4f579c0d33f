/** Provider-neutral turns, items and events. */
module AgentProtocol {
  import opened Wrappers

  datatype TurnStatus =
    | NoStatus | Queued | Running | PausedApproval | PausedInput | Interrupted | Recovering | Completed | Failed
    | OtherTurnStatus(name: string)

  datatype ItemStatus = ItemPending | ItemRunning | ItemCompleted | ItemFailed | ItemCancelled

  datatype ItemType = Message | ToolCall | Approval | OtherItemType(name: string)

  datatype Turn = Turn(id: string, threadID: string, providerTurnID: string, status: TurnStatus, finished: bool)

  datatype Item = Item(
    id: string, threadID: string, turnID: string, itemType: ItemType, status: ItemStatus, name: string, payload: string)

  datatype EventType =
    | TurnStarted | TurnStatusChanged | ItemStarted | ItemDone | ItemBroken | TurnCompleted | TurnFailed
    | OtherEventType(name: string)

  /** Without the time at which it occurred. */
  datatype Event = Event(
    sequence: int, eventType: EventType, threadID: string, turnID: string, providerTurnID: string, status: TurnStatus,
    item: Option<Item>, error: string)

  datatype Decision = Approve | Deny | OtherDecision(name: string)

  predicate CanTransition(from: TurnStatus, to: TurnStatus) {
    from != to &&
    match from
    case Queued => to in {Running, Failed}
    case Running => to in {PausedApproval, PausedInput, Interrupted, Recovering, Completed, Failed}
    case PausedApproval => to in {Running, Interrupted, Failed}
    case PausedInput => to in {Running, Interrupted, Failed}
    case Interrupted => to in {Recovering, Failed}
    case Recovering => to in {Running, PausedApproval, PausedInput, Completed, Failed}
    case _ => false
  }

  /** From where each status can be reached; completed and failed turns go nowhere, and nothing goes back to the queue. */
  lemma TransitionsByTarget(from: TurnStatus)
    ensures CanTransition(from, Running) <==> from in {Queued, PausedApproval, PausedInput, Recovering}
    ensures CanTransition(from, PausedApproval) <==> from in {Running, Recovering}
    ensures CanTransition(from, PausedInput) <==> from in {Running, Recovering}
    ensures CanTransition(from, Interrupted) <==> from in {Running, PausedApproval, PausedInput}
    ensures CanTransition(from, Recovering) <==> from in {Running, Interrupted}
    ensures CanTransition(from, Completed) <==> from in {Running, Recovering}
    ensures CanTransition(from, Failed) <==> from in {Queued, Running, PausedApproval, PausedInput, Interrupted, Recovering}
    ensures forall to :: CanTransition(from, to) ==> to !in {NoStatus, Queued} && !to.OtherTurnStatus?
  {
  }

  predicate IsFinalStatus(s: TurnStatus) {
    s in {Completed, Failed, Interrupted}
  }
}
