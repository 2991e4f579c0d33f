/** How failures reach waiting tasks when each decision's skipped ids are marked skipped. */
module FailureSpread {
  import opened Scheduler
  import opened Admission

  predicate Lost(st: State, id: string) {
    StatusOf(st, id) in {Failed, Skipped}
  }

  /** The state after one decision whose skipped ids have been marked. */
  function MarkRound(m: Manifest, st: State): State {
    var skipped := Decide(m, st).skipped.Keys;
    map id | id in st.Keys + skipped :: if id in skipped then Skipped else st[id]
  }

  function Rounds(m: Manifest, st: State, n: nat): State {
    if n == 0 then st else MarkRound(m, Rounds(m, st, n - 1))
  }

  /** A waiting task depends directly on id b. */
  predicate Link(m: Manifest, st: State, a: string, b: string) {
    exists i :: 0 <= i < |m.tasks| && m.tasks[i].id == a && StatusOf(st, a) == Pending && b in m.tasks[i].dependsOn
  }

  /** From p[0] through waiting tasks to a failed or skipped one. */
  predicate Chain(m: Manifest, st: State, p: seq<string>) {
    && p != [] && Lost(st, p[|p| - 1])
    && forall i :: 0 <= i < |p| - 1 ==> Link(m, st, p[i], p[i + 1])
  }

  ghost predicate Doomed(m: Manifest, st: State, id: string) {
    exists p :: Chain(m, st, p) && |p| >= 2 && p[0] == id
  }

  lemma RoundStatus(m: Manifest, st: State, id: string)
    ensures StatusOf(MarkRound(m, st), id) == if id in SkippedIds(m.tasks, st) then Skipped else StatusOf(st, id)
    ensures id in SkippedIds(m.tasks, st) <==> exists d :: Lost(st, d) && Link(m, st, id, d)
  {
    hide Chosen;
    if id in SkippedIds(m.tasks, st) {
      var i :| 0 <= i < |m.tasks| && StatusOf(st, m.tasks[i].id) == Pending && DependencyFailed(m.tasks[i], st) && m.tasks[i].id == id;
      var d :| d in m.tasks[i].dependsOn && StatusOf(st, d) in {Failed, Skipped};
      assert Lost(st, d) && Link(m, st, id, d);
    }
  }

  /** Rounds only ever turn a doomed waiting task into a skipped one. */
  lemma {:induction false} OnlyDoomedChange(m: Manifest, st: State, k: nat, id: string)
    ensures StatusOf(Rounds(m, st, k), id) == StatusOf(st, id)
            || (StatusOf(st, id) == Pending && StatusOf(Rounds(m, st, k), id) == Skipped && Doomed(m, st, id))
  {
    hide MarkRound, SkippedIds, StatusOf;
    if k > 0 {
      var before := Rounds(m, st, k - 1);
      OnlyDoomedChange(m, st, k - 1, id);
      RoundStatus(m, before, id);
      if id in SkippedIds(m.tasks, before) {
        var d :| Lost(before, d) && Link(m, before, id, d);
        OnlyDoomedChange(m, st, k - 1, d);
        assert Link(m, st, id, d);
        if Lost(st, d) {
          assert Chain(m, st, [id, d]);
        } else {
          var p :| Chain(m, st, p) && |p| >= 2 && p[0] == d;
          ChainGrows(m, st, id, p);
        }
      }
    }
  }

  lemma ChainGrows(m: Manifest, st: State, id: string, p: seq<string>)
    requires Chain(m, st, p) && Link(m, st, id, p[0])
    ensures Chain(m, st, [id] + p)
  {
    hide Link, Lost;
    var q := [id] + p;
    forall i | 0 <= i < |q| - 1
      ensures Link(m, st, q[i], q[i + 1])
    {
      if i > 0 {
        assert q[i] == p[i - 1] && q[i + 1] == p[i];
      }
    }
  }

  /** A chain of n links is consumed within n rounds. */
  lemma {:induction false} ChainIsConsumed(m: Manifest, st: State, p: seq<string>, k: nat)
    requires Chain(m, st, p) && |p| <= k + 1
    ensures Lost(Rounds(m, st, k), p[0])
    decreases k
  {
    hide MarkRound, SkippedIds, StatusOf;
    OnlyDoomedChange(m, st, k, p[0]);
    if |p| >= 2 {
      assert Link(m, st, p[0], p[1]);
      var rest := p[1..];
      assert forall i :: 0 <= i < |rest| - 1 ==> rest[i] == p[i + 1] && Link(m, st, p[i + 1], p[i + 1 + 1]);
      assert Chain(m, st, rest);
      ChainIsConsumed(m, st, rest, k - 1);
      var before := Rounds(m, st, k - 1);
      OnlyDoomedChange(m, st, k - 1, p[0]);
      RoundStatus(m, before, p[0]);
      if StatusOf(before, p[0]) == Pending {
        assert Link(m, before, p[0], p[1]);
      }
    }
  }

  // ---- Stabilising

  function Waiting(m: Manifest, st: State): set<string> {
    set i | 0 <= i < |m.tasks| && StatusOf(st, m.tasks[i].id) == Pending :: m.tasks[i].id
  }

  lemma WaitingShrinks(m: Manifest, st: State)
    ensures Waiting(m, MarkRound(m, st)) == Waiting(m, st) - SkippedIds(m.tasks, st)
    ensures SkippedIds(m.tasks, st) <= Waiting(m, st)
    ensures SkippedIds(m.tasks, st) == {} ==> MarkRound(m, st) == st
  {
    hide Chosen;
    forall id
      ensures StatusOf(MarkRound(m, st), id) == if id in SkippedIds(m.tasks, st) then Skipped else StatusOf(st, id)
    {
      RoundStatus(m, st, id);
    }
  }

  lemma {:induction false} WaitingBound(m: Manifest, st: State, n: nat)
    requires n <= |m.tasks|
    ensures |set i | 0 <= i < n && StatusOf(st, m.tasks[i].id) == Pending :: m.tasks[i].id| <= n
  {
    if n > 0 {
      WaitingBound(m, st, n - 1);
      var all := set i | 0 <= i < n && StatusOf(st, m.tasks[i].id) == Pending :: m.tasks[i].id;
      var init := set i | 0 <= i < n - 1 && StatusOf(st, m.tasks[i].id) == Pending :: m.tasks[i].id;
      assert all <= init + {m.tasks[n - 1].id};
      SubsetCount(all, init + {m.tasks[n - 1].id});
    }
  }

  lemma {:induction false} SubsetCount(a: set<string>, b: set<string>)
    requires a <= b
    ensures |a| <= |b|
    ensures |a| == |b| ==> a == b
  {
    if a != {} {
      var x :| x in a;
      SubsetCount(a - {x}, b - {x});
    }
  }

  lemma {:induction false} StableOrSmaller(m: Manifest, st: State, k: nat)
    ensures Rounds(m, st, k + 1) == Rounds(m, st, k) || |Waiting(m, Rounds(m, st, k))| + k < |m.tasks| + 1
  {
    hide MarkRound, SkippedIds;
    if k == 0 {
      WaitingBound(m, st, |m.tasks|);
    } else {
      StableOrSmaller(m, st, k - 1);
      var before, after := Rounds(m, st, k - 1), Rounds(m, st, k);
      WaitingShrinks(m, before);
      if SkippedIds(m.tasks, before) != {} {
        SubsetCount(Waiting(m, after), Waiting(m, before));
      }
    }
  }

  /** After one round per task nothing changes any more. */
  lemma StableAfterOneRoundPerTask(m: Manifest, st: State)
    ensures MarkRound(m, Rounds(m, st, |m.tasks|)) == Rounds(m, st, |m.tasks|)
  {
    hide MarkRound, SkippedIds;
    var n := |m.tasks|;
    StableOrSmaller(m, st, n);
    WaitingShrinks(m, Rounds(m, st, n));
  }

  lemma {:induction false} StaysStable(m: Manifest, st: State, extra: nat)
    ensures Rounds(m, st, |m.tasks| + extra) == Rounds(m, st, |m.tasks|)
  {
    hide MarkRound;
    StableAfterOneRoundPerTask(m, st);
    if extra > 0 {
      StaysStable(m, st, extra - 1);
    }
  }

  /** Exactly the doomed tasks end up skipped; every other id keeps its status. */
  lemma FailureSpreadsExactly(m: Manifest, st: State, id: string)
    ensures StatusOf(Rounds(m, st, |m.tasks|), id) == if Doomed(m, st, id) then Skipped else StatusOf(st, id)
  {
    hide Rounds, StatusOf;
    OnlyDoomedChange(m, st, |m.tasks|, id);
    if Doomed(m, st, id) {
      var p :| Chain(m, st, p) && |p| >= 2 && p[0] == id;
      assert Link(m, st, p[0], p[1]);
      ChainIsConsumed(m, st, p, |m.tasks| + |p|);
      StaysStable(m, st, |p|);
    }
  }
}
