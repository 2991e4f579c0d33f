/** Starting OMP turns: one at a time for each thread handle, and every failed start undone. */
module OmpProvider {
  import opened Wrappers
  import opened Text

  datatype TurnRequest = TurnRequest(threadID: string, providerThreadID: string, prompt: Option<string>, model: string)

  /** What the calls made on the way answer; prompted is None when starting the prompt failed. */
  datatype Answers = Answers(modelParsed: bool, modelSet: bool, prompted: Option<string>)

  datatype StartError = InvalidRequest | NoPrompt | NotAttached | AlreadyActive | BadModel | ModelNotSet | PromptFailed | NoPromptID

  function HandleOf(req: TurnRequest): string {
    FirstNonBlank(req.providerThreadID, req.threadID)
  }

  /** The client a request is served by: registered under its handle, or else under its thread. */
  function ClientFor<C>(clients: map<string, C>, req: TurnRequest): (r: Option<C>)
    ensures HandleOf(req) in clients ==> r == Some(clients[HandleOf(req)])
    ensures r.None? <==> HandleOf(req) !in clients && req.threadID !in clients
  {
    var handle := HandleOf(req);
    if handle in clients then Some(clients[handle])
    else if req.threadID in clients then Some(clients[req.threadID]) else None
  }

  /** Every locked section takes one step of the world of attempts. */
  class Provider<Client(==)> {
    var clients: map<string, Client>
    var active: set<string>
    var subscriptions: multiset<Client>
    ghost var world: World

    ghost predicate Valid()
      reads this
    {
      world.active == active && Exclusive(world)
    }

    constructor ()
      ensures Valid() && clients == map[] && subscriptions == multiset{} && world == World({}, map[])
    {
      clients, active, subscriptions := map[], {}, multiset{};
      world := World({}, map[]);
    }

    /** A registered handle leads to its own client; only one that is not registered falls back to the thread's. */
    function Lookup(handle: string, threadID: string): (r: Option<Client>)
      reads this`clients
      ensures handle in clients ==> r == Some(clients[handle])
      ensures handle !in clients && threadID in clients ==> r == Some(clients[threadID])
      ensures r.None? <==> handle !in clients && threadID !in clients
    {
      if handle in clients then Some(clients[handle])
      else if threadID in clients then Some(clients[threadID]) else None
    }

    method RegisterClient(sessionDir: string, threadID: string, client: Client)
      modifies this`clients
      ensures sessionDir in clients && clients[sessionDir] == client
      ensures !Blank(threadID) ==> threadID in clients && clients[threadID] == client
      ensures forall h :: h in clients && h != sessionDir && (Blank(threadID) || h != threadID) ==> h in old(clients)
      ensures forall h :: h in old(clients) && h != sessionDir && (Blank(threadID) || h != threadID) ==>
                h in clients && clients[h] == old(clients[h])
    {
      hide TrimSpace;
      clients := clients[sessionDir := client];
      if !Blank(threadID) {
        clients := clients[threadID := client];
      }
    }

    method MarkActive(handle: string, ghost id: nat) returns (ok: bool)
      requires Valid() && id !in world.attempts
      modifies this`active, this`world
      ensures Valid() && Step(old(world), Mark(id, handle), world)
      ensures ok <==> InPhase(world, id, Preparing)
      ensures ok <==> handle !in old(active)
      ensures active == old(active) + {handle}
    {
      ghost var next := World(active + {handle}, world.attempts[id := Attempt(handle, if handle in active then Over else Preparing)]);
      StepKeepsExclusive(world, Mark(id, handle), next);
      world := next;
      if handle in active {
        assert active + {handle} == active;
        return false;
      }
      active := active + {handle};
      return true;
    }

    method ClearActive(handle: string, ghost a: Action)
      requires Valid() && a.id in world.attempts && world.attempts[a.id].handle == handle
      requires (a.GiveUp? && InPhase(world, a.id, Preparing)) || (a.Finish? && InPhase(world, a.id, Streaming))
      modifies this`active, this`world
      ensures Valid() && Step(old(world), a, world)
      ensures active == old(active) - {handle}
    {
      ghost var next := World(active - {handle}, Moved(world, a.id, Over));
      StepKeepsExclusive(world, a, next);
      world := next;
      active := active - {handle};
    }

    predicate Startable(req: TurnRequest, a: Answers)
      reads this
    {
      && !Blank(req.threadID) && req.prompt.Some? && ClientFor(clients, req).Some?
      && HandleOf(req) !in active && (req.model != "" ==> a.modelParsed && a.modelSet)
      && a.prompted.Some? && !Blank(a.prompted.value)
    }

    /** Succeeds exactly when every step does; a failure at any step leaves no mark, no live attempt and no subscription. */
    method RunTurn(req: TurnRequest, a: Answers, ghost id: nat) returns (r: Result<string, StartError>)
      requires Valid() && id !in world.attempts
      modifies this`active, this`subscriptions, this`world
      ensures Valid() && world.attempts.Keys <= old(world.attempts.Keys) + {id}
      ensures r.Success? <==> old(Startable(req, a))
      ensures r.Failure? ==> active == old(active) && subscriptions == old(subscriptions) && !Live(world, id)
      ensures r.Success? ==>
                && r.value == a.prompted.value && active == old(active) + {HandleOf(req)}
                && ClientFor(clients, req).Some?
                && subscriptions == old(subscriptions) + multiset{ClientFor(clients, req).value}
                && InPhase(world, id, Streaming) && world.attempts[id].handle == HandleOf(req)
    {
      hide TrimSpace, Exclusive;
      if Blank(req.threadID) {
        return Failure(InvalidRequest);
      }
      if req.prompt.None? {
        return Failure(NoPrompt);
      }
      var handle := HandleOf(req);
      var client := Lookup(handle, req.threadID);
      if client.None? {
        return Failure(NotAttached);
      }
      var ok := MarkActive(handle, id);
      if !ok {
        return Failure(AlreadyActive);
      }
      if req.model != "" {
        if !a.modelParsed {
          ClearActive(handle, GiveUp(id));
          return Failure(BadModel);
        }
        if !a.modelSet {
          ClearActive(handle, GiveUp(id));
          return Failure(ModelNotSet);
        }
      }
      r := StartPrompt(handle, client.value, a, id);
    }

    /** Subscribes and starts the prompt of a marked turn; if that fails both are undone. */
    method StartPrompt(handle: string, client: Client, a: Answers, ghost id: nat) returns (r: Result<string, StartError>)
      requires Valid() && InPhase(world, id, Preparing) && world.attempts[id].handle == handle
      modifies this`active, this`subscriptions, this`world
      ensures Valid() && id in world.attempts && world.attempts[id].handle == handle
      ensures world.attempts.Keys == old(world.attempts.Keys)
      ensures r.Success? <==> a.prompted.Some? && !Blank(a.prompted.value)
      ensures r.Failure? ==> active == old(active) - {handle} && subscriptions == old(subscriptions) && !Live(world, id)
      ensures r.Success? ==>
                && r.value == a.prompted.value && active == old(active)
                && subscriptions == old(subscriptions) + multiset{client} && InPhase(world, id, Streaming)
    {
      hide TrimSpace, Exclusive;
      subscriptions := subscriptions + multiset{client};
      if a.prompted.None? {
        subscriptions := subscriptions - multiset{client};
        ClearActive(handle, GiveUp(id));
        return Failure(PromptFailed);
      }
      if Blank(a.prompted.value) {
        subscriptions := subscriptions - multiset{client};
        ClearActive(handle, GiveUp(id));
        return Failure(NoPromptID);
      }
      ghost var next := World(active, Moved(world, id, Streaming));
      StepKeepsExclusive(world, Start(id), next);
      world := next;
      return Success(a.prompted.value);
    }

    /** The deferred calls of a stream that ends: its handle is free again and its subscription given back. */
    method StreamEnds(handle: string, client: Client, ghost id: nat)
      requires Valid() && InPhase(world, id, Streaming) && world.attempts[id].handle == handle
      modifies this`active, this`subscriptions, this`world
      ensures Valid() && Step(old(world), Finish(id), world)
      ensures active == old(active) - {handle} && subscriptions == old(subscriptions) - multiset{client}
    {
      ClearActive(handle, Finish(id));
      subscriptions := subscriptions - multiset{client};
    }
  }

  // ---- Interleaved starts: each locked section is one step

  datatype Phase = Preparing | Streaming | Over

  datatype Attempt = Attempt(handle: string, phase: Phase)

  datatype World = World(active: set<string>, attempts: map<nat, Attempt>)

  datatype Action = Mark(id: nat, handle: string) | GiveUp(id: nat) | Start(id: nat) | Finish(id: nat)

  predicate InPhase(w: World, id: nat, p: Phase) {
    id in w.attempts && w.attempts[id].phase == p
  }

  function Moved(w: World, id: nat, p: Phase): map<nat, Attempt>
    requires id in w.attempts
  {
    w.attempts[id := w.attempts[id].(phase := p)]
  }

  ghost predicate Step(w: World, a: Action, w': World) {
    match a
    case Mark(id, handle) =>
      && id !in w.attempts
      && w'.active == w.active + {handle}
      && w'.attempts == w.attempts[id := Attempt(handle, if handle in w.active then Over else Preparing)]
    case GiveUp(id) =>
      InPhase(w, id, Preparing) && w' == World(w.active - {w.attempts[id].handle}, Moved(w, id, Over))
    case Start(id) =>
      InPhase(w, id, Preparing) && w' == World(w.active, Moved(w, id, Streaming))
    case Finish(id) =>
      InPhase(w, id, Streaming) && w' == World(w.active - {w.attempts[id].handle}, Moved(w, id, Over))
  }

  predicate Live(w: World, id: nat) {
    id in w.attempts && w.attempts[id].phase != Over
  }

  /** A handle is marked exactly while one attempt on it is live, and never two. */
  ghost predicate Exclusive(w: World) {
    && (forall h :: h in w.active <==> exists id :: Marked(w, id, h))
    && (forall i, j, h :: Marked(w, i, h) && Marked(w, j, h) ==> i == j)
  }

  predicate Marked(w: World, id: nat, h: string) {
    Live(w, id) && w.attempts[id].handle == h
  }

  /** Which attempts are live on a handle after a step. */
  lemma LiveAfter(w: World, a: Action, w': World, id: nat, h: string)
    requires Step(w, a, w')
    ensures Marked(w', id, h) <==>
              || (Marked(w, id, h) && !((a.GiveUp? || a.Finish?) && a.id == id))
              || (a == Mark(id, h) && h !in w.active)
  {
  }

  lemma StepKeepsExclusive(w: World, a: Action, w': World)
    requires Exclusive(w) && Step(w, a, w')
    ensures Exclusive(w')
  {
    assert !a.Mark? ==> Marked(w, a.id, w.attempts[a.id].handle);
    hide Live;
    forall id, h
      ensures Marked(w', id, h) <==>
                || (Marked(w, id, h) && !((a.GiveUp? || a.Finish?) && a.id == id))
                || (a == Mark(id, h) && h !in w.active)
    {
      LiveAfter(w, a, w', id, h);
    }
    forall h
      ensures h in w'.active <==> exists id :: Marked(w', id, h)
    {
      if a.Mark? && a.handle == h && h !in w.active {
        assert Marked(w', a.id, h);
      } else if h in w'.active {
        var id :| Marked(w, id, h);
        assert Marked(w', id, h);
      }
    }
  }

  ghost predicate Run(ws: seq<World>, actions: seq<Action>) {
    |ws| == |actions| + 1 && forall i :: 0 <= i < |actions| ==> Step(ws[i], actions[i], ws[i + 1])
  }

  /** Under every interleaving no handle has two live turns, and none stays marked without one. */
  lemma {:induction false} TurnsAreExclusive(ws: seq<World>, actions: seq<Action>, i: nat)
    requires Run(ws, actions) && ws[0] == World({}, map[]) && i < |ws|
    ensures Exclusive(ws[i])
  {
    hide Step;
    if i > 0 {
      TurnsAreExclusive(ws, actions, i - 1);
      StepKeepsExclusive(ws[i - 1], actions[i - 1], ws[i]);
    }
  }

  // ---- One client under two handles

  /** Exclusion is by handle: two live turns are on one client exactly when their handles differ and both lead to it. */
  lemma OneClientExactly<C>(w: World, clients: map<string, C>, i: nat, a: TurnRequest, j: nat, b: TurnRequest)
    requires Exclusive(w) && Marked(w, i, HandleOf(a)) && Marked(w, j, HandleOf(b))
    ensures i != j && ClientFor(clients, a) == ClientFor(clients, b)
            <==> HandleOf(a) != HandleOf(b) && ClientFor(clients, a) == ClientFor(clients, b)
  {
    hide FirstNonBlank;
  }

  /** One client serves any number of turns at once: a handle it is not registered under leads to it by the thread. */
  method TurnsOnOneClient(handles: seq<string>) returns (streams: nat)
    requires forall k :: 0 <= k < |handles| ==> !Blank(handles[k])
    requires forall j, k :: 0 <= j < k < |handles| ==> handles[j] != handles[k]
    ensures streams == |handles|
  {
    NamesNotBlank();
    hide Blank, Exclusive;
    var provider := new Provider<nat>();
    provider.RegisterClient("dir", "thread", 7);
    for k := 0 to |handles|
      invariant fresh(provider) && provider.Valid() && provider.subscriptions == multiset{}[7 := k]
      invariant forall h :: h in provider.clients ==> h == "dir" || h == "thread"
      invariant "dir" in provider.clients && provider.clients["dir"] == 7
      invariant "thread" in provider.clients && provider.clients["thread"] == 7
      invariant forall h :: h in provider.active ==> h in handles[..k]
      invariant forall id :: id in provider.world.attempts ==> id < k
    {
      var req := TurnRequest("thread", handles[k], Some("go"), "");
      assert HandleOf(req) == handles[k] && handles[k] !in handles[..k];
      assert provider.Lookup(handles[k], "thread") == Some(7);
      var turn := provider.RunTurn(req, Answers(true, true, Some("prompt")), k);
      assert turn.Success?;
    }
    streams := provider.subscriptions[7];
  }

  lemma NamesNotBlank()
    ensures !Blank("thread") && !Blank("prompt")
  {
    TrimSpaceKeeps("thread");
    TrimSpaceKeeps("prompt");
  }
}
