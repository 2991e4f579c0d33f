/** The Codex request store under any interleaving of arriving requests and responders. */
module CodexApprovals {
  import opened Wrappers
  import opened Text
  import opened AgentProtocol

  type RequestID = nat

  type ResponderID = nat

  // ---- The store

  class RequestStore {
    var values: map<string, RequestID>

    ghost predicate Valid()
      reads this
    {
      forall id :: id in values ==> !Blank(id)
    }

    constructor ()
      ensures Valid() && values == map[]
    {
      values := map[];
    }

    method Store(itemID: string, requestID: Option<RequestID>)
      requires Valid()
      modifies this
      ensures Valid() && values == Kept(old(values), itemID, requestID)
    {
      hide Blank;
      if Blank(itemID) || requestID.None? {
        return;
      }
      values := values[itemID := requestID.value];
    }

    method LoadAndDelete(itemID: string) returns (requestID: Option<RequestID>)
      requires Valid()
      modifies this
      ensures Valid()
      ensures requestID == (if itemID in old(values) then Some(old(values)[itemID]) else None)
      ensures values == old(values) - {itemID}
    {
      if itemID !in values {
        return None;
      }
      requestID := Some(values[itemID]);
      values := values - {itemID};
    }

    /** Takes the request out, answers it, and puts it back unless the answer went through. */
    method Respond(itemID: string, decision: Decision, send: bool) returns (answered: Option<RequestID>)
      requires Valid()
      modifies this
      ensures Valid()
      ensures answered.Some? <==> itemID in old(values) && decision in {Approve, Deny} && send
      ensures answered.Some? ==> answered.value == old(values)[itemID] && values == old(values) - {itemID}
      ensures answered.None? ==> values == old(values)
    {
      hide Blank;
      var requestID := LoadAndDelete(itemID);
      if requestID.None? {
        assert values == old(values);
        return None;
      }
      if decision.OtherDecision? || !send {
        Store(itemID, requestID);
        assert values == old(values);
        return None;
      }
      return requestID;
    }
  }

  function Kept(values: map<string, RequestID>, itemID: string, requestID: Option<RequestID>): map<string, RequestID> {
    if Blank(itemID) || requestID.None? then values else values[itemID := requestID.value]
  }

  // ---- Interleavings: taking, answering and putting back are separate steps

  datatype Held = Held(itemID: string, request: RequestID)

  /** seen are the requests that have arrived; answered those whose answer went through, oldest first. */
  datatype World = World(
    values: map<string, RequestID>, held: map<ResponderID, Held>, seen: set<RequestID>, answered: seq<RequestID>)

  datatype Action =
    | Arrive(itemID: string, request: RequestID)
    | Take(responder: ResponderID, itemID: string)
    | Answer(responder: ResponderID)
    | PutBack(responder: ResponderID)

  ghost predicate Step(w: World, a: Action, w': World) {
    match a
    case Arrive(itemID, request) =>
      && request !in w.seen
      && w' == w.(values := Kept(w.values, itemID, Some(request)), seen := w.seen + {request})
    case Take(p, itemID) =>
      && p !in w.held && itemID in w.values
      && w' == w.(values := w.values - {itemID}, held := w.held[p := Held(itemID, w.values[itemID])])
    case Answer(p) =>
      && p in w.held
      && w' == w.(held := w.held - {p}, answered := w.answered + [w.held[p].request])
    case PutBack(p) =>
      && p in w.held
      && w' == w.(held := w.held - {p}, values := Kept(w.values, w.held[p].itemID, Some(w.held[p].request)))
  }

  /** A request is in at most one place: stored under one item, held by one responder, or answered once; and no item
      is blank. */
  ghost predicate Unique(w: World) {
    && (forall i :: i in w.values ==> w.values[i] in w.seen && w.values[i] !in w.answered)
    && (forall p :: p in w.held ==> w.held[p].request in w.seen && w.held[p].request !in w.answered)
    && (forall r :: r in w.answered ==> r in w.seen)
    && (forall i, j :: i in w.values && j in w.values && i != j ==> w.values[i] != w.values[j])
    && (forall p, q :: p in w.held && q in w.held && p != q ==> w.held[p].request != w.held[q].request)
    && (forall i, p :: i in w.values && p in w.held ==> w.values[i] != w.held[p].request)
    && (forall m, n :: 0 <= m < n < |w.answered| ==> w.answered[m] != w.answered[n])
    && (forall i :: i in w.values ==> !Blank(i))
    && (forall p :: p in w.held ==> !Blank(w.held[p].itemID))
  }

  lemma StepKeepsUnique(w: World, a: Action, w': World)
    requires Unique(w) && Step(w, a, w')
    ensures Unique(w')
  {
    hide Blank;
  }

  ghost predicate Run(ws: seq<World>, actions: seq<Action>) {
    && |ws| == |actions| + 1 && ws[0] == World(map[], map[], {}, [])
    && forall i :: 0 <= i < |actions| ==> Step(ws[i], actions[i], ws[i + 1])
  }

  /** Under every interleaving each stored request is answered successfully at most once. */
  lemma {:induction false} AnsweredAtMostOnce(ws: seq<World>, actions: seq<Action>, i: nat)
    requires Run(ws, actions) && i < |ws|
    ensures Unique(ws[i])
    ensures forall m, n :: 0 <= m < n < |ws[i].answered| ==> ws[i].answered[m] != ws[i].answered[n]
  {
    if i > 0 {
      AnsweredAtMostOnce(ws, actions, i - 1);
      hide Unique, Step;
      StepKeepsUnique(ws[i - 1], actions[i - 1], ws[i]);
    }
  }

  // ---- Which requests are lost

  /** The request has arrived and can no longer be answered: it is neither stored nor held. */
  ghost predicate Lost(w: World, r: RequestID) {
    && r in w.seen && r !in w.answered
    && (forall i :: i in w.values ==> w.values[i] != r)
    && (forall p :: p in w.held ==> w.held[p].request != r)
  }

  /** The action stores a request under an item, which takes the place of what is there. */
  predicate StoresUnder(w: World, a: Action, itemID: string) {
    match a
    case Arrive(i, _) => i == itemID
    case PutBack(p) => p in w.held && w.held[p].itemID == itemID
    case _ => false
  }

  /** A step newly loses a request exactly when it stores over it, or when the request arrives under a blank item. */
  lemma StepLosesExactly(w: World, a: Action, w': World, r: RequestID)
    requires Unique(w) && Step(w, a, w') && !Lost(w, r)
    ensures Lost(w', r) <==>
              || (exists i :: i in w.values && w.values[i] == r && StoresUnder(w, a, i))
              || (a.Arrive? && a.request == r && Blank(a.itemID))
  {
    hide Blank;
    if r in w.seen && r !in w.answered {
      if i :| i in w.values && w.values[i] == r {
        assert a.Take? && a.itemID == i ==> a.responder in w'.held && w'.held[a.responder].request == r;
        assert !StoresUnder(w, a, i) && !(a.Take? && a.itemID == i) ==> i in w'.values && w'.values[i] == r;
      } else {
        var p :| p in w.held && w.held[p].request == r;
        assert p in w'.held || r in w'.answered || (w.held[p].itemID in w'.values && w'.values[w.held[p].itemID] == r);
      }
    } else if a.Arrive? && a.request == r && !Blank(a.itemID) {
      assert a.itemID in w'.values && w'.values[a.itemID] == r;
    }
  }

  lemma LostStays(w: World, a: Action, w': World, r: RequestID)
    requires Step(w, a, w') && Lost(w, r)
    ensures Lost(w', r)
  {
    hide Blank;
  }

  /** A request is stored for an item that already holds one, or under no item. */
  predicate Overwrites(w: World, a: Action) {
    (a.Arrive? && Blank(a.itemID)) || exists i :: i in w.values && StoresUnder(w, a, i)
  }

  ghost predicate NoneLost(w: World) {
    forall r :: !Lost(w, r)
  }

  /** In any run, no request has been lost exactly when none was stored for an item that held one or under no item. */
  lemma {:induction false} NoneLostExactly(ws: seq<World>, actions: seq<Action>, n: nat)
    requires Run(ws, actions) && n < |ws|
    ensures NoneLost(ws[n]) <==> forall k :: 0 <= k < n ==> !Overwrites(ws[k], actions[k])
  {
    if n > 0 {
      NoneLostExactly(ws, actions, n - 1);
      AnsweredAtMostOnce(ws, actions, n - 1);
      assert Step(ws[n - 1], actions[n - 1], ws[n]);
      hide *;
      NoneLostStep(ws[n - 1], actions[n - 1], ws[n]);
    }
  }

  lemma NoneLostStep(w: World, a: Action, w': World)
    requires Unique(w) && Step(w, a, w')
    ensures NoneLost(w') <==> NoneLost(w) && !Overwrites(w, a)
  {
    hide Lost, Unique, Step, Overwrites;
    if r :| Lost(w, r) {
      LostStays(w, a, w', r);
    } else {
      StepLosesNone(w, a, w');
    }
  }

  lemma StepLosesNone(w: World, a: Action, w': World)
    requires Unique(w) && Step(w, a, w') && forall r :: !Lost(w, r)
    ensures (forall r :: !Lost(w', r)) <==> !Overwrites(w, a)
  {
    hide Blank, Step, Unique;
    forall r
      ensures Lost(w', r) <==>
                || (exists i :: i in w.values && w.values[i] == r && StoresUnder(w, a, i))
                || (a.Arrive? && a.request == r && Blank(a.itemID))
    {
      StepLosesExactly(w, a, w', r);
    }
    if Overwrites(w, a) {
      if a.Arrive? && Blank(a.itemID) {
        assert Lost(w', a.request);
      } else {
        var i :| i in w.values && StoresUnder(w, a, i);
        assert Lost(w', w.values[i]);
      }
    }
  }

  /** Four steps from the start: the answer to request 1 fails, and request 2, which arrived meanwhile, is lost. */
  lemma PutBackLosesRequest() returns (ws: seq<World>, actions: seq<Action>)
    ensures Run(ws, actions)
    ensures actions == [Arrive("command", 1), Take(0, "command"), Arrive("command", 2), PutBack(0)] && Lost(ws[4], 2)
  {
    NotBlank();
    hide Blank;
    actions := [Arrive("command", 1), Take(0, "command"), Arrive("command", 2), PutBack(0)];
    var taken := map[0 := Held("command", 1)];
    ws := [
      World(map[], map[], {}, []),
      World(map["command" := 1], map[], {1}, []),
      World(map[], taken, {1}, []),
      World(map["command" := 2], taken, {1, 2}, []),
      World(map["command" := 1], map[], {1, 2}, [])];
    assert Step(ws[0], actions[0], ws[1]);
    assert Step(ws[1], actions[1], ws[2]);
    assert Step(ws[2], actions[2], ws[3]);
    assert Step(ws[3], actions[3], ws[4]);
  }

  /** Two steps suffice: a second request for an item replaces the first. */
  lemma ArrivalLosesRequest() returns (ws: seq<World>, actions: seq<Action>)
    ensures Run(ws, actions)
    ensures actions == [Arrive("command", 1), Arrive("command", 2)] && Lost(ws[2], 1)
  {
    NotBlank();
    hide Blank;
    actions := [Arrive("command", 1), Arrive("command", 2)];
    ws := [World(map[], map[], {}, []), World(map["command" := 1], map[], {1}, []), World(map["command" := 2], map[], {1, 2}, [])];
    assert Step(ws[0], actions[0], ws[1]);
    assert Step(ws[1], actions[1], ws[2]);
  }

  lemma NotBlank()
    ensures !Blank("command")
  {
    TrimSpaceKeeps("command");
  }
}
