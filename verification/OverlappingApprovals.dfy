/** Approval calls for one item that overlap: what the item no longer guards, and what the Codex store still does. */
module OverlappingApprovals {
  import opened Text
  import opened AgentProtocol
  import Approvals
  import Codex = CodexApprovals

  /** How far a call got; a held request is the Codex store's, under the call's own number. */
  datatype Phase = Loaded | Marked | Holding | Asked(accepted: bool) | Ended

  datatype Call = Call(decision: Decision, phase: Phase)

  /** One item with its calls; accepted are the decisions the provider took, oldest first. */
  datatype World = World(
    status: ItemStatus, calls: map<nat, Call>, codex: Codex.World, dispatched: seq<Decision>, accepted: seq<Decision>)

  datatype Action =
    | Arrive(request: Codex.RequestID)
    | Load(c: nat, decision: Decision)
    | MarkRunning(c: nat)
    | Dispatch(c: nat, taken: bool)
    | Answer(c: nat, sent: bool)
    | Finish(c: nat)

  predicate InPhase(w: World, c: nat, p: Phase) {
    c in w.calls && w.calls[c].phase == p
  }

  function Moved(w: World, c: nat, p: Phase): map<nat, Call>
    requires c in w.calls
  {
    w.calls[c := w.calls[c].(phase := p)]
  }

  /** Each load, write and answer of Deliver is a step.  With the Codex provider a dispatch takes the stored request, if
      there is one; another provider takes it or not. */
  ghost predicate Step(codex: bool, item: string, w: World, a: Action, w': World) {
    match a
    case Arrive(request) =>
      Codex.Step(w.codex, Codex.Arrive(item, request), w'.codex) && w' == w.(codex := w'.codex)
    case Load(c, decision) =>
      && c !in w.calls && w.status == ItemPending && decision in {Approve, Deny}
      && w' == w.(calls := w.calls[c := Call(decision, Loaded)])
    case MarkRunning(c) =>
      InPhase(w, c, Loaded) && w' == w.(status := ItemRunning, calls := Moved(w, c, Marked))
    case Dispatch(c, taken) =>
      && InPhase(w, c, Marked)
      && var asked := w.(dispatched := w.dispatched + [w.calls[c].decision]);
         if !codex then
           w' == asked.(calls := Moved(w, c, Asked(taken)),
                        accepted := if taken then w.accepted + [w.calls[c].decision] else w.accepted)
         else
           && (taken <==> item in w.codex.values)
           && (if taken then Codex.Step(w.codex, Codex.Take(c, item), w'.codex) else w'.codex == w.codex)
           && w' == asked.(calls := Moved(w, c, if taken then Holding else Asked(false)), codex := w'.codex)
    case Answer(c, sent) =>
      && InPhase(w, c, Holding)
      && Codex.Step(w.codex, if sent then Codex.Answer(c) else Codex.PutBack(c), w'.codex)
      && w' == w.(codex := w'.codex, calls := Moved(w, c, Asked(sent)),
                  accepted := if sent then w.accepted + [w.calls[c].decision] else w.accepted)
    case Finish(c) =>
      && c in w.calls && w.calls[c].phase.Asked?
      && w' == w.(calls := Moved(w, c, Ended),
                  status := if w.calls[c].phase.accepted then Approvals.FinalStatus(w.calls[c].decision) else ItemPending)
  }

  const START := World(ItemPending, map[], Codex.World(map[], map[], {}, []), [], [])

  ghost predicate Run(codex: bool, item: string, ws: seq<World>, actions: seq<Action>) {
    && |ws| == |actions| + 1 && ws[0] == START
    && forall i :: 0 <= i < |actions| ==> Step(codex, item, ws[i], actions[i], ws[i + 1])
  }

  // ---- The store's single use bounds acceptance whatever overlaps

  /** With the Codex provider every acceptance is an answered request. */
  ghost predicate Backed(w: World) {
    Codex.Unique(w.codex) && |w.accepted| == |w.codex.answered|
  }

  lemma StepKeepsBacked(item: string, w: World, a: Action, w': World)
    requires Backed(w) && Step(true, item, w, a, w')
    ensures Backed(w')
  {
    hide Codex.Unique;
    match a
    case Arrive(request) => Codex.StepKeepsUnique(w.codex, Codex.Arrive(item, request), w'.codex);
    case Dispatch(c, taken) => if taken { Codex.StepKeepsUnique(w.codex, Codex.Take(c, item), w'.codex); }
    case Answer(c, sent) => Codex.StepKeepsUnique(w.codex, if sent then Codex.Answer(c) else Codex.PutBack(c), w'.codex);
    case _ =>
  }

  lemma {:induction false} RunKeepsBacked(item: string, ws: seq<World>, actions: seq<Action>, i: nat)
    requires Run(true, item, ws, actions) && i < |ws|
    ensures Backed(ws[i])
  {
    if i > 0 {
      RunKeepsBacked(item, ws, actions, i - 1);
      assert Step(true, item, ws[i - 1], actions[i - 1], ws[i]);
      hide *;
      StepKeepsBacked(item, ws[i - 1], actions[i - 1], ws[i]);
    }
  }

  lemma {:induction false} DistinctFit(s: seq<nat>, all: set<nat>)
    requires (forall i, j :: 0 <= i < j < |s| ==> s[i] != s[j]) && forall x :: x in s ==> x in all
    ensures |s| <= |all|
  {
    if s != [] {
      assert s[0] in s;
      forall x | x in s[1..]
        ensures x in all - {s[0]}
      {
        var k :| 0 <= k < |s[1..]| && s[1..][k] == x;
        assert s[k + 1] == x;
      }
      DistinctFit(s[1..], all - {s[0]});
    }
  }

  /** However calls overlap, no more responses are accepted for an item than requests have arrived for it. */
  lemma AcceptedAtMostRequested(item: string, ws: seq<World>, actions: seq<Action>, i: nat)
    requires Run(true, item, ws, actions) && i < |ws|
    ensures |ws[i].accepted| <= |ws[i].codex.seen|
  {
    RunKeepsBacked(item, ws, actions, i);
    DistinctFit(ws[i].codex.answered, ws[i].codex.seen);
  }

  // ---- What overlapping calls can do

  /** Two calls, one to approve and one to deny, as far as they got. */
  function Two(approve: Phase, deny: Phase): map<nat, Call> {
    map[0 := Call(Approve, approve), 1 := Call(Deny, deny)]
  }

  function BothLoaded(codex: Codex.World): seq<World> {
    [World(ItemPending, map[], codex, [], []),
     World(ItemPending, map[0 := Call(Approve, Loaded)], codex, [], []),
     World(ItemPending, Two(Loaded, Loaded), codex, [], []),
     World(ItemRunning, Two(Marked, Loaded), codex, [], []),
     World(ItemRunning, Two(Marked, Marked), codex, [], [])]
  }

  const BOTH_LOAD := [Load(0, Approve), Load(1, Deny), MarkRunning(0), MarkRunning(1)]

  /** Neither load nor write stops the second call once both have loaded the pending item. */
  lemma BothGetPastTheItem(codex: bool, item: string, c: Codex.World)
    ensures forall k :: 0 <= k < 4 ==> Step(codex, item, BothLoaded(c)[k], BOTH_LOAD[k], BothLoaded(c)[k + 1])
  {
    var ws := BothLoaded(c);
    assert Step(codex, item, ws[0], BOTH_LOAD[0], ws[1]);
    assert Step(codex, item, ws[1], BOTH_LOAD[1], ws[2]);
    assert Step(codex, item, ws[2], BOTH_LOAD[2], ws[3]);
    assert Step(codex, item, ws[3], BOTH_LOAD[3], ws[4]);
  }

  function BothTaken(c: Codex.World): seq<World> {
    [World(ItemRunning, Two(Marked, Marked), c, [], []),
     World(ItemRunning, Two(Asked(true), Marked), c, [Approve], [Approve]),
     World(ItemRunning, Two(Asked(true), Asked(true)), c, [Approve, Deny], [Approve, Deny])]
  }

  lemma BothAreTaken(item: string, c: Codex.World)
    ensures Step(false, item, BothTaken(c)[0], Dispatch(0, true), BothTaken(c)[1])
    ensures Step(false, item, BothTaken(c)[1], Dispatch(1, true), BothTaken(c)[2])
  {
  }

  /** Two overlapping calls both dispatch, and a provider without single use accepts both decisions. */
  lemma OverlapAcceptsTwice(item: string) returns (ws: seq<World>, actions: seq<Action>)
    ensures actions == BOTH_LOAD + [Dispatch(0, true), Dispatch(1, true)]
    ensures |ws| == 7 && Run(false, item, ws, actions) && ws[6].accepted == [Approve, Deny]
  {
    var c := START.codex;
    BothGetPastTheItem(false, item, c);
    BothAreTaken(item, c);
    actions := BOTH_LOAD + [Dispatch(0, true), Dispatch(1, true)];
    ws := BothLoaded(c) + BothTaken(c)[1..];
    hide Step;
    assert BothLoaded(c)[4] == BothTaken(c)[0];
    forall k | 0 <= k < 6
      ensures Step(false, item, ws[k], actions[k], ws[k + 1])
    {
      if k < 4 {
        assert ws[k] == BothLoaded(c)[k] && ws[k + 1] == BothLoaded(c)[k + 1] && actions[k] == BOTH_LOAD[k];
      } else {
        assert ws[k] == BothTaken(c)[k - 4] && ws[k + 1] == BothTaken(c)[k - 4 + 1];
      }
    }
  }

  function AfterRequest(item: string): Codex.World {
    Codex.World(map[item := 1], map[], {1}, [])
  }

  const ONE_TAKEN := [Dispatch(0, true), Answer(0, true), Finish(0), Dispatch(1, false), Finish(1)]

  function OneTaken(item: string): seq<World> {
    var held := Codex.World(map[], map[0 := Codex.Held(item, 1)], {1}, []);
    var answered := Codex.World(map[], map[], {1}, [1]);
    [World(ItemRunning, Two(Marked, Marked), AfterRequest(item), [], []),
     World(ItemRunning, Two(Holding, Marked), held, [Approve], []),
     World(ItemRunning, Two(Asked(true), Marked), answered, [Approve], [Approve]),
     World(ItemCompleted, Two(Ended, Marked), answered, [Approve], [Approve]),
     World(ItemCompleted, Two(Ended, Asked(false)), answered, [Approve, Deny], [Approve]),
     World(ItemPending, Two(Ended, Ended), answered, [Approve, Deny], [Approve])]
  }

  lemma OneIsTaken(item: string)
    ensures forall k :: 0 <= k < 5 ==> Step(true, item, OneTaken(item)[k], ONE_TAKEN[k], OneTaken(item)[k + 1])
  {
    var ws := OneTaken(item);
    assert Step(true, item, ws[0], ONE_TAKEN[0], ws[1]);
    assert Step(true, item, ws[1], ONE_TAKEN[1], ws[2]);
    assert Step(true, item, ws[2], ONE_TAKEN[2], ws[3]);
    assert Step(true, item, ws[3], ONE_TAKEN[3], ws[4]);
    assert Step(true, item, ws[4], ONE_TAKEN[4], ws[5]);
  }

  /** With the Codex provider the second dispatch fails, and taking it back leaves the approved item pending. */
  lemma OverlapForgetsDecision(item: string) returns (ws: seq<World>, actions: seq<Action>)
    requires !Blank(item)
    ensures actions == [Arrive(1)] + BOTH_LOAD + ONE_TAKEN
    ensures |ws| == 11 && Run(true, item, ws, actions)
    ensures ws[10].status == ItemPending && ws[10].accepted == [Approve] && ws[10].dispatched == [Approve, Deny]
  {
    actions := [Arrive(1)] + BOTH_LOAD + ONE_TAKEN;
    var c := AfterRequest(item);
    BothGetPastTheItem(true, item, c);
    OneIsTaken(item);
    assert Step(true, item, START, Arrive(1), BothLoaded(c)[0]);
    ws := [START] + BothLoaded(c) + OneTaken(item)[1..];
    hide Step;
    assert BothLoaded(c)[4] == OneTaken(item)[0];
    forall k | 0 <= k < 10
      ensures Step(true, item, ws[k], actions[k], ws[k + 1])
    {
      if 1 <= k < 5 {
        assert ws[k] == BothLoaded(c)[k - 1] && ws[k + 1] == BothLoaded(c)[k - 1 + 1] && actions[k] == BOTH_LOAD[k - 1];
      } else if k >= 5 {
        assert ws[k] == OneTaken(item)[k - 5] && ws[k + 1] == OneTaken(item)[k - 5 + 1] && actions[k] == ONE_TAKEN[k - 5];
      }
    }
  }
}
