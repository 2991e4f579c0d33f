/** The Codex stdio client as locked sections and channel operations, under every interleaving. */
module CodexClient {
  type CallID = nat

  type SubID = nat

  datatype Topic = Notifications | Requests

  datatype Response = Reply(id: CallID, payload: nat) | TransportClosed

  /** A reply channel of capacity one. */
  datatype ReplyChannel = ReplyChannel(sent: seq<Response>, received: seq<Response>, closed: bool) {
    predicate Empty() {
      |sent| == |received|
    }

    predicate Untouched() {
      sent == [] && received == [] && !closed
    }
  }

  /** The subscribers of one topic: ids given out, ids registered, and which channels have been closed. */
  datatype Registry = Registry(next: SubID, registered: set<SubID>, closed: set<SubID>)

  datatype Reader =
    | Idle
    | Took(id: CallID, response: Response)
    | Sent(id: CallID)
    | Broadcasting(topic: Topic, rest: set<SubID>)

  datatype Closer = Open | Marked | RepliesDrained | NotificationsDrained | AllDrained

  datatype World = World(
    closed: bool,
    nextID: CallID,
    numbered: set<CallID>,
    pending: set<CallID>,
    waiting: set<CallID>,
    replies: map<CallID, ReplyChannel>,
    notifications: Registry,
    requests: Registry,
    reader: Reader,
    closer: Closer)

  datatype Action =
    | Allocate
    | Register(id: CallID)
    | Forget(id: CallID)
    | Receive(id: CallID)
    | ReaderTakes(id: CallID, payload: nat)
    | ReaderSends
    | ReaderCloses
    | BroadcastBegins(topic: Topic)
    | BroadcastSends(sub: SubID)
    | BroadcastEnds
    | Subscribe(topic: Topic)
    | Cancel(topic: Topic, sub: SubID)
    | CloseBegins
    | DrainReplies
    | DrainTopic(topic: Topic)

  function RegistryOf(w: World, t: Topic): Registry {
    if t == Notifications then w.notifications else w.requests
  }

  function WithRegistry(w: World, t: Topic, r: Registry): World {
    if t == Notifications then w.(notifications := r) else w.(requests := r)
  }

  /** Only a broadcast keeps a subscriber lock over more than one step. */
  predicate LockFree(w: World, t: Topic) {
    !(w.reader.Broadcasting? && w.reader.topic == t)
  }

  predicate Enabled(w: World, a: Action) {
    match a
    case Allocate => !w.closed
    case Register(id) => id in w.numbered
    case Forget(id) => id in w.waiting
    case Receive(id) => id in w.waiting && id in w.replies && (!w.replies[id].Empty() || w.replies[id].closed)
    case ReaderTakes(_, _) => w.reader.Idle?
    case ReaderSends => w.reader.Took? && w.reader.id in w.replies
    case ReaderCloses => w.reader.Sent? && w.reader.id in w.replies
    case BroadcastBegins(_) => w.reader.Idle?
    case BroadcastSends(sub) => w.reader.Broadcasting? && sub in w.reader.rest
    case BroadcastEnds => w.reader.Broadcasting? && (w.reader.rest == {} || w.closed)
    case Subscribe(t) => LockFree(w, t)
    case Cancel(t, _) => LockFree(w, t)
    case CloseBegins => w.closer.Open?
    case DrainReplies => w.closer.Marked?
    case DrainTopic(t) => LockFree(w, t) && w.closer == (if t == Notifications then RepliesDrained else NotificationsDrained)
  }

  function Push(c: ReplyChannel, r: Response): ReplyChannel {
    c.(sent := c.sent + [r])
  }

  /** What the receiver gets: the oldest unread value; a closed, empty channel would give a zero value, here none. */
  function Pull(c: ReplyChannel): ReplyChannel {
    if |c.received| < |c.sent| then c.(received := c.received + [c.sent[|c.received|]]) else c
  }

  function Next(w: World, a: Action): World
    requires Enabled(w, a)
  {
    match a
    case Allocate => w.(nextID := w.nextID + 1, numbered := w.numbered + {w.nextID + 1})
    case Register(id) =>
      w.(numbered := w.numbered - {id}, pending := w.pending + {id}, waiting := w.waiting + {id},
         replies := w.replies[id := ReplyChannel([], [], false)])
    case Forget(id) => w.(pending := w.pending - {id}, waiting := w.waiting - {id})
    case Receive(id) => w.(waiting := w.waiting - {id}, replies := w.replies[id := Pull(w.replies[id])])
    case ReaderTakes(id, payload) =>
      if id in w.pending then w.(pending := w.pending - {id}, reader := Took(id, Reply(id, payload))) else w
    case ReaderSends =>
      w.(replies := w.replies[w.reader.id := Push(w.replies[w.reader.id], w.reader.response)], reader := Sent(w.reader.id))
    case ReaderCloses =>
      w.(replies := w.replies[w.reader.id := w.replies[w.reader.id].(closed := true)], reader := Idle)
    case BroadcastBegins(t) => w.(reader := Broadcasting(t, RegistryOf(w, t).registered))
    case BroadcastSends(sub) => w.(reader := Broadcasting(w.reader.topic, w.reader.rest - {sub}))
    case BroadcastEnds => w.(reader := Idle)
    case Subscribe(t) =>
      var r := RegistryOf(w, t);
      var id := r.next + 1;
      WithRegistry(w, t, if w.closed then Registry(id, r.registered, r.closed + {id}) else Registry(id, r.registered + {id}, r.closed))
    case Cancel(t, sub) =>
      var r := RegistryOf(w, t);
      if sub in r.registered
      then WithRegistry(w, t, r.(registered := r.registered - {sub}, closed := r.closed + {sub})) else w
    case CloseBegins => w.(closed := true, closer := Marked)
    case DrainReplies =>
      w.(pending := {}, closer := RepliesDrained,
         replies := map id | id in w.replies ::
           if id in w.pending then Push(w.replies[id], TransportClosed).(closed := true) else w.replies[id])
    case DrainTopic(t) =>
      var r := RegistryOf(w, t);
      WithRegistry(w, t, r.(registered := {}, closed := r.closed + r.registered))
        .(closer := if t == Notifications then NotificationsDrained else AllDrained)
  }

  // ---- What would go wrong, and the invariant that rules it out

  /** The action neither closes a closed channel, nor sends on one, nor blocks on a reply, nor reads a zero value. */
  predicate Safe(w: World, a: Action)
    requires Enabled(w, a)
  {
    match a
    case ReaderSends => !w.replies[w.reader.id].closed && w.replies[w.reader.id].Empty()
    case ReaderCloses => !w.replies[w.reader.id].closed
    case Receive(id) => !w.replies[id].Empty()
    case BroadcastSends(sub) => sub !in RegistryOf(w, w.reader.topic).closed
    case Cancel(t, sub) => sub in RegistryOf(w, t).registered ==> sub !in RegistryOf(w, t).closed
    case CloseBegins => !w.closed
    case DrainReplies => forall id :: id in w.pending ==> id in w.replies && !w.replies[id].closed && w.replies[id].Empty()
    case DrainTopic(t) => RegistryOf(w, t).registered !! RegistryOf(w, t).closed
    case _ => true
  }

  predicate ChannelSound(w: World, id: CallID)
    requires id in w.replies
  {
    var c := w.replies[id];
    && c.received <= c.sent && |c.sent| <= 1
    && (forall k :: 0 <= k < |c.sent| ==> c.sent[k].TransportClosed? || c.sent[k].id == id)
    && (c.closed ==> c.sent != [])
    && (id in w.pending ==> c.Untouched())
    && (w.reader.Took? && w.reader.id == id ==> c.sent == [] && !c.closed)
    && (w.reader.Sent? && w.reader.id == id ==> c.sent != [] && !c.closed)
    && (id in w.waiting ==> c.received == [])
  }

  predicate CallsLinked(w: World) {
    && (forall id :: id in w.numbered ==> id <= w.nextID && id !in w.replies)
    && (forall id :: id in w.replies ==> id <= w.nextID)
    && (forall id :: id in w.pending ==> id in w.waiting)
    && (forall id :: id in w.waiting ==> id in w.replies)
    && (w.reader.Took? || w.reader.Sent? ==> w.reader.id in w.replies && w.reader.id !in w.pending)
    && (w.reader.Took? ==> w.reader.response.Reply? && w.reader.response.id == w.reader.id)
  }

  predicate CallsSound(w: World) {
    CallsLinked(w) && forall id :: id in w.replies ==> ChannelSound(w, id)
  }

  predicate DrainedTopic(w: World, t: Topic) {
    w.closer == AllDrained || (w.closer == NotificationsDrained && t == Notifications)
  }

  predicate TopicSound(w: World, t: Topic) {
    var r := RegistryOf(w, t);
    && (forall s :: s in r.registered + r.closed ==> s <= r.next)
    && r.registered !! r.closed
    && (w.reader.Broadcasting? && w.reader.topic == t ==> w.reader.rest <= r.registered)
    && (DrainedTopic(w, t) ==> r.registered == {})
  }

  predicate Invariant(w: World) {
    CallsSound(w) && TopicSound(w, Notifications) && TopicSound(w, Requests) && (w.closed <==> !w.closer.Open?)
  }

  lemma OnlyRegisterAdds(w: World, a: Action)
    requires Enabled(w, a)
    ensures Next(w, a).replies.Keys == w.replies.Keys + if a.Register? then {a.id} else {}
  {
  }

  lemma StepKeepsLinks(w: World, a: Action)
    requires CallsLinked(w) && Enabled(w, a) && (a.Receive? ==> ChannelSound(w, a.id))
    ensures CallsLinked(Next(w, a))
  {
    OnlyRegisterAdds(w, a);
    var w' := Next(w, a);
    assert forall id :: id in w'.replies <==> id in w'.replies.Keys;
    hide Push, Pull, RegistryOf;
  }

  lemma StepKeepsChannel(w: World, a: Action, id: CallID)
    requires CallsLinked(w) && Enabled(w, a) && (id in w.replies ==> ChannelSound(w, id)) && id in Next(w, a).replies
    ensures ChannelSound(Next(w, a), id)
  {
    OnlyRegisterAdds(w, a);
    hide RegistryOf;
  }

  lemma StepKeepsCalls(w: World, a: Action)
    requires CallsSound(w) && Enabled(w, a)
    ensures CallsSound(Next(w, a))
  {
    assert a.Receive? ==> a.id in w.replies;
    hide Next, Enabled, ChannelSound;
    StepKeepsLinks(w, a);
    forall id | id in Next(w, a).replies
      ensures ChannelSound(Next(w, a), id)
    {
      StepKeepsChannel(w, a, id);
    }
    hide CallsLinked;
  }

  lemma StepKeepsTopic(w: World, a: Action, t: Topic)
    requires TopicSound(w, t) && Enabled(w, a) && (w.closed <==> !w.closer.Open?)
    ensures TopicSound(Next(w, a), t)
  {
  }

  lemma StepKeepsInvariant(w: World, a: Action)
    requires Invariant(w) && Enabled(w, a)
    ensures Invariant(Next(w, a))
  {
    StepKeepsCalls(w, a);
    StepKeepsTopic(w, a, Notifications);
    StepKeepsTopic(w, a, Requests);
    hide CallsSound, TopicSound;
  }

  lemma InvariantIsSafe(w: World, a: Action)
    requires Invariant(w) && Enabled(w, a)
    ensures Safe(w, a)
  {
  }

  // ---- Every run

  const START := World(false, 0, {}, {}, {}, map[], Registry(0, {}, {}), Registry(0, {}, {}), Idle, Open)

  ghost predicate Run(ws: seq<World>, actions: seq<Action>) {
    && |ws| == |actions| + 1 && ws[0] == START
    && forall i :: 0 <= i < |actions| ==> Enabled(ws[i], actions[i]) && ws[i + 1] == Next(ws[i], actions[i])
  }

  lemma {:induction false} RunKeepsInvariant(ws: seq<World>, actions: seq<Action>, i: nat)
    requires Run(ws, actions) && i < |ws|
    ensures Invariant(ws[i])
  {
    if i > 0 {
      RunKeepsInvariant(ws, actions, i - 1);
      hide Invariant, Enabled, Next;
      StepKeepsInvariant(ws[i - 1], actions[i - 1]);
    }
  }

  /** In no interleaving is a channel closed twice or sent on after its close, and no reply ever blocks the sender. */
  lemma EveryActionIsSafe(ws: seq<World>, actions: seq<Action>, i: nat)
    requires Run(ws, actions) && i < |actions|
    ensures Safe(ws[i], actions[i])
  {
    RunKeepsInvariant(ws, actions, i);
    InvariantIsSafe(ws[i], actions[i]);
  }

  /** A call gets at most one response: the one carrying its own id, or word that the transport has closed. */
  lemma AtMostItsOwnReply(ws: seq<World>, actions: seq<Action>, i: nat, id: CallID)
    requires Run(ws, actions) && i < |ws| && id in ws[i].replies
    ensures |ws[i].replies[id].received| <= 1
    ensures forall r :: r in ws[i].replies[id].received ==> r.TransportClosed? || r.id == id
  {
    RunKeepsInvariant(ws, actions, i);
    assert ChannelSound(ws[i], id);
  }

  /** Whoever waits on a channel that has been closed finds its response in it. */
  lemma ClosedChannelHoldsReply(ws: seq<World>, actions: seq<Action>, i: nat, id: CallID)
    requires Run(ws, actions) && i < |ws| && id in ws[i].waiting
    ensures id in ws[i].replies && (ws[i].replies[id].closed ==> !ws[i].replies[id].Empty())
  {
    RunKeepsInvariant(ws, actions, i);
    assert ChannelSound(ws[i], id);
  }

  lemma DrainedStays(w: World, a: Action, t: Topic)
    requires Enabled(w, a) && DrainedTopic(w, t)
    ensures DrainedTopic(Next(w, a), t)
  {
  }

  /** Once Close has drained a topic nobody is registered for it, then or ever after. */
  lemma {:induction false} NoneRegisteredAfterDrain(ws: seq<World>, actions: seq<Action>, t: Topic, i: nat, j: nat)
    requires Run(ws, actions) && i <= j < |ws| && DrainedTopic(ws[i], t)
    ensures DrainedTopic(ws[j], t) && RegistryOf(ws[j], t).registered == {}
    decreases j
  {
    if i < j {
      NoneRegisteredAfterDrain(ws, actions, t, i, j - 1);
      hide RegistryOf, Invariant;
      DrainedStays(ws[j - 1], actions[j - 1], t);
    }
    RunKeepsInvariant(ws, actions, j);
    assert TopicSound(ws[j], t) by {
      assert Invariant(ws[j]);
    }
  }

  // ---- What callers and subscribers get

  /** The call has been told that the transport is closed, and nothing else can reach its channel any more. */
  predicate Told(w: World, id: CallID) {
    && id in w.replies && w.replies[id].sent == [TransportClosed] && w.replies[id].closed
    && id !in w.pending && id !in w.numbered && !((w.reader.Took? || w.reader.Sent?) && w.reader.id == id)
  }

  lemma ToldStays(w: World, a: Action, id: CallID)
    requires Invariant(w) && Told(w, id) && Enabled(w, a)
    ensures Told(Next(w, a), id)
  {
    OnlyRegisterAdds(w, a);
    hide ChannelSound, TopicSound, RegistryOf;
  }

  lemma DrainTells(w: World, id: CallID)
    requires Invariant(w) && Enabled(w, DrainReplies) && id in w.pending
    ensures Told(Next(w, DrainReplies), id) && Next(w, DrainReplies).replies[id].received == []
  {
    assert ChannelSound(w, id);
  }

  /** Every call pending when the replies are drained holds word, ever after, that the transport has closed. */
  lemma {:induction false} PendingCallsAreTold(ws: seq<World>, actions: seq<Action>, i: nat, j: nat, id: CallID)
    requires Run(ws, actions) && i < j < |ws| && actions[i] == DrainReplies && id in ws[i].pending
    ensures Told(ws[j], id)
    decreases j
  {
    RunKeepsInvariant(ws, actions, j - 1);
    hide Invariant, Next, Told;
    if j == i + 1 {
      DrainTells(ws[i], id);
    } else {
      PendingCallsAreTold(ws, actions, i, j - 1, id);
      ToldStays(ws[j - 1], actions[j - 1], id);
    }
  }

  /** Every call that waits is still listed for its reply, or its response is with the reader or in its channel. */
  predicate Attended(w: World) {
    forall id :: id in w.waiting ==>
      || id in w.pending || (w.reader.Took? && w.reader.id == id) || (id in w.replies && w.replies[id].sent != [])
  }

  lemma StepKeepsAttended(w: World, a: Action)
    requires Invariant(w) && Attended(w) && Enabled(w, a)
    ensures Attended(Next(w, a))
  {
    OnlyRegisterAdds(w, a);
    hide ChannelSound, TopicSound, RegistryOf;
  }

  /** In no interleaving is a waiting call forgotten. */
  lemma {:induction false} NoCallIsForgotten(ws: seq<World>, actions: seq<Action>, i: nat)
    requires Run(ws, actions) && i < |ws|
    ensures Attended(ws[i])
  {
    if i > 0 {
      NoCallIsForgotten(ws, actions, i - 1);
      RunKeepsInvariant(ws, actions, i - 1);
      hide Invariant, Attended, Enabled, Next;
      StepKeepsAttended(ws[i - 1], actions[i - 1]);
    }
  }

  /** A new subscriber has a channel of its own, registered while the transport is open and closed once it is not. */
  predicate Joins(closed: bool, before: Registry, after: Registry) {
    && after.next !in before.registered && after.next !in before.closed
    && (!closed ==> after.registered == before.registered + {after.next} && after.closed == before.closed)
    && (closed ==> after.registered == before.registered && after.closed == before.closed + {after.next})
  }

  /** Exactly the given subscribers, as far as they were registered, leave and find their channels closed. */
  predicate Leave(before: Registry, after: Registry, subs: set<SubID>) {
    after.registered == before.registered - subs && after.closed == before.closed + before.registered * subs
  }

  lemma SubscribeJoins(w: World, t: Topic)
    requires TopicSound(w, t) && Enabled(w, Subscribe(t))
    ensures Joins(w.closed, RegistryOf(w, t), RegistryOf(Next(w, Subscribe(t)), t))
  {
  }

  lemma CancelLeaves(w: World, t: Topic, sub: SubID)
    requires Enabled(w, Cancel(t, sub))
    ensures Leave(RegistryOf(w, t), RegistryOf(Next(w, Cancel(t, sub)), t), {sub})
  {
  }

  lemma DrainLeaves(w: World, t: Topic)
    requires Enabled(w, DrainTopic(t))
    ensures Leave(RegistryOf(w, t), RegistryOf(Next(w, DrainTopic(t)), t), RegistryOf(w, t).registered)
  {
  }

  /** Subscribing, cancelling and draining open and close exactly the channels concerned. */
  lemma SubscribersComeAndGo(ws: seq<World>, actions: seq<Action>, i: nat, t: Topic)
    requires Run(ws, actions) && i < |actions|
    ensures var before, after := RegistryOf(ws[i], t), RegistryOf(ws[i + 1], t);
            && (actions[i] == Subscribe(t) ==> Joins(ws[i].closed, before, after))
            && (actions[i].Cancel? && actions[i].topic == t ==> Leave(before, after, {actions[i].sub}))
            && (actions[i] == DrainTopic(t) ==> Leave(before, after, before.registered))
  {
    RunKeepsInvariant(ws, actions, i);
    assert TopicSound(ws[i], t) by {
      assert Invariant(ws[i]);
    }
    hide Invariant, TopicSound, Next, Enabled, RegistryOf, Joins, Leave;
    match actions[i]
    case Subscribe(topic) => if topic == t { SubscribeJoins(ws[i], t); }
    case Cancel(topic, sub) => if topic == t { CancelLeaves(ws[i], t, sub); }
    case DrainTopic(topic) => if topic == t { DrainLeaves(ws[i], t); }
    case _ =>
  }

  /** The payload was read for the call before step n, while the call was pending. */
  predicate WasRead(ws: seq<World>, actions: seq<Action>, n: nat, id: CallID, payload: nat) {
    exists k :: 0 <= k < n && k < |actions| && k < |ws| && actions[k] == ReaderTakes(id, payload) && id in ws[k].pending
  }

  /** Everything on its way to a call or received by it is word of the close, or was read for that call. */
  predicate AllRead(ws: seq<World>, actions: seq<Action>, n: nat)
    requires n < |ws|
  {
    && (ws[n].reader.Took? ==>
          && ws[n].reader.response.Reply? && ws[n].reader.response.id == ws[n].reader.id
          && WasRead(ws, actions, n, ws[n].reader.id, ws[n].reader.response.payload))
    && forall id, r :: id in ws[n].replies && r in ws[n].replies[id].sent && r.Reply? ==>
         r.id == id && WasRead(ws, actions, n, id, r.payload)
  }

  lemma WasReadStays(ws: seq<World>, actions: seq<Action>, n: nat, id: CallID, payload: nat)
    requires WasRead(ws, actions, n, id, payload)
    ensures WasRead(ws, actions, n + 1, id, payload)
  {
  }

  /** A response in a channel after a step was there before, or is what the reader held, or word of the close. */
  lemma SentComesFrom(w: World, a: Action, id: CallID, r: Response)
    requires Enabled(w, a) && id in Next(w, a).replies && r in Next(w, a).replies[id].sent
    ensures || r.TransportClosed? || (id in w.replies && r in w.replies[id].sent)
            || (w.reader.Took? && w.reader.id == id && r == w.reader.response)
  {
  }

  lemma TookComesFrom(w: World, a: Action)
    requires Enabled(w, a) && Next(w, a).reader.Took?
    ensures || Next(w, a).reader == w.reader
            || (a.ReaderTakes? && a.id in w.pending && Next(w, a).reader == Took(a.id, Reply(a.id, a.payload)))
  {
  }

  lemma {:induction false} RepliesWereRead(ws: seq<World>, actions: seq<Action>, n: nat)
    requires Run(ws, actions) && n < |ws|
    ensures AllRead(ws, actions, n)
  {
    if n > 0 {
      RepliesWereRead(ws, actions, n - 1);
      var w, a := ws[n - 1], actions[n - 1];
      assert ws[n] == Next(w, a);
      hide Next, Enabled, WasRead;
      if ws[n].reader.Took? {
        TookComesFrom(w, a);
        TakenIsRead(ws, actions, n);
      }
      forall id, r | id in ws[n].replies && r in ws[n].replies[id].sent && r.Reply?
        ensures r.id == id && WasRead(ws, actions, n, id, r.payload)
      {
        SentComesFrom(w, a, id, r);
        WasReadStays(ws, actions, n - 1, id, r.payload);
      }
    }
  }

  lemma TakenIsRead(ws: seq<World>, actions: seq<Action>, n: nat)
    requires 0 < n < |ws| && |ws| == |actions| + 1 && AllRead(ws, actions, n - 1) && ws[n].reader.Took?
    requires || ws[n].reader == ws[n - 1].reader
             || (&& actions[n - 1].ReaderTakes? && actions[n - 1].id in ws[n - 1].pending
                 && ws[n].reader == Took(actions[n - 1].id, Reply(actions[n - 1].id, actions[n - 1].payload)))
    ensures ws[n].reader.response.Reply? && ws[n].reader.response.id == ws[n].reader.id
    ensures WasRead(ws, actions, n, ws[n].reader.id, ws[n].reader.response.payload)
  {
  }

  /** A reply that a call receives carries a payload that was read for it while it was pending. */
  lemma ReceivedWasRead(ws: seq<World>, actions: seq<Action>, n: nat, id: CallID, r: Response)
    requires Run(ws, actions) && n < |ws| && id in ws[n].replies && r in ws[n].replies[id].received && r.Reply?
    ensures r.id == id && WasRead(ws, actions, n, id, r.payload)
  {
    RepliesWereRead(ws, actions, n);
    RunKeepsInvariant(ws, actions, n);
    assert ChannelSound(ws[n], id);
  }

  /** And what is read for a pending call is what is sent to it: at the reader's next send its channel holds that payload. */
  lemma {:induction false} ReadIsHeld(ws: seq<World>, actions: seq<Action>, k: nat, m: nat, id: CallID, payload: nat)
    requires Run(ws, actions) && k < m < |ws| && actions[k] == ReaderTakes(id, payload) && id in ws[k].pending
    requires forall n :: k < n < m ==> actions[n] != ReaderSends
    ensures ws[m].reader == Took(id, Reply(id, payload))
    decreases m
  {
    assert Enabled(ws[m - 1], actions[m - 1]) && ws[m] == Next(ws[m - 1], actions[m - 1]);
    if m > k + 1 {
      ReadIsHeld(ws, actions, k, m - 1, id, payload);
    }
  }

  lemma ReadIsSent(ws: seq<World>, actions: seq<Action>, k: nat, m: nat, id: CallID, payload: nat)
    requires Run(ws, actions) && k < m < |actions| && actions[k] == ReaderTakes(id, payload) && id in ws[k].pending
    requires actions[m] == ReaderSends && forall n :: k < n < m ==> actions[n] != ReaderSends
    ensures id in ws[m + 1].replies && ws[m + 1].replies[id].sent == [Reply(id, payload)]
  {
    ReadIsHeld(ws, actions, k, m, id, payload);
    EveryActionIsSafe(ws, actions, m);
    RunKeepsInvariant(ws, actions, m);
    assert ws[m + 1] == Next(ws[m], actions[m]);
    assert ChannelSound(ws[m], id);
  }

  /** A call that receives gets the one response its channel holds. */
  lemma ReceiveGetsTheResponse(ws: seq<World>, actions: seq<Action>, i: nat, id: CallID)
    requires Run(ws, actions) && i < |actions| && actions[i] == Receive(id)
    ensures id in ws[i].replies && |ws[i].replies[id].sent| == 1 && ws[i].replies[id].received == []
    ensures id in ws[i + 1].replies && ws[i + 1].replies[id].received == ws[i].replies[id].sent
    ensures id !in ws[i + 1].waiting
  {
    RunKeepsInvariant(ws, actions, i);
    EveryActionIsSafe(ws, actions, i);
    assert Enabled(ws[i], actions[i]) && ws[i + 1] == Next(ws[i], actions[i]);
    assert ChannelSound(ws[i], id);
  }

  predicate SentBetween(actions: seq<Action>, i: nat, m: nat, sub: SubID) {
    exists k :: i < k < m && k < |actions| && actions[k] == BroadcastSends(sub)
  }

  /** During a broadcast each subscriber it started with is still due or has been sent to. */
  lemma {:induction false} DueOrSent(ws: seq<World>, actions: seq<Action>, i: nat, m: nat, t: Topic, sub: SubID)
    requires Run(ws, actions) && i < m < |ws| && actions[i] == BroadcastBegins(t) && sub in RegistryOf(ws[i], t).registered
    requires forall n :: i < n < m ==> actions[n] != BroadcastEnds
    ensures ws[m].reader.Broadcasting? && ws[m].reader.topic == t
    ensures sub in ws[m].reader.rest || SentBetween(actions, i, m, sub)
    decreases m
  {
    assert Enabled(ws[m - 1], actions[m - 1]) && ws[m] == Next(ws[m - 1], actions[m - 1]);
    if m > i + 1 {
      DueOrSent(ws, actions, i, m - 1, t, sub);
      if SentBetween(actions, i, m - 1, sub) {
        var k :| i < k < m - 1 && k < |actions| && actions[k] == BroadcastSends(sub);
        assert SentBetween(actions, i, m, sub);
      } else if actions[m - 1] == BroadcastSends(sub) {
        assert SentBetween(actions, i, m, sub);
      }
    }
  }

  /** A broadcast that ends while the transport is open has been sent to every subscriber registered when it began. */
  lemma EverySubscriberHears(ws: seq<World>, actions: seq<Action>, i: nat, m: nat, t: Topic, sub: SubID)
    requires Run(ws, actions) && i < m < |actions| && actions[i] == BroadcastBegins(t) && actions[m] == BroadcastEnds
    requires sub in RegistryOf(ws[i], t).registered && (forall n :: i < n < m ==> actions[n] != BroadcastEnds)
    ensures ws[m].closed || SentBetween(actions, i, m, sub)
  {
    DueOrSent(ws, actions, i, m, t, sub);
    assert Enabled(ws[m], actions[m]);
  }
}
