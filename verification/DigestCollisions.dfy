/** Exactly which grant sets share their digest with another. */
module DigestCollisions {
  import opened ByteStrings
  import opened Grants

  // ---- A body is known by the stretches that NUL bytes set apart

  /** What lies between the resource of grant i and the next NUL: its revision, the fence, the next operation. */
  function Joint(c: Manifest, i: nat): Bytes
    requires i + 1 < |c|
  {
    c[i].revision + [FENCE] + c[i + 1].operation
  }

  /** Equal resources, equal joints and an equal last revision: all but the first operation. */
  predicate SameOnward(c: Manifest, d: Manifest) {
    && |c| == |d|
    && (c != [] ==> c[|c| - 1].revision == d[|d| - 1].revision)
    && (forall i :: 0 <= i < |c| ==> c[i].resource == d[i].resource)
    && (forall i :: 0 <= i < |c| - 1 ==> Joint(c, i) == Joint(d, i))
  }

  predicate SameStretches(c: Manifest, d: Manifest) {
    SameOnward(c, d) && (c != [] ==> c[0].operation == d[0].operation)
  }

  /** The body from the first resource on. */
  function Onward(c: Manifest): Bytes
    requires c != []
  {
    c[0].resource + [NUL] + (c[0].revision + [FENCE] + Body(c[1..]))
  }

  lemma OnwardSpelled(c: Manifest)
    requires c != []
    ensures |c| == 1 ==> Onward(c) == c[0].resource + [NUL] + (c[0].revision + [FENCE])
    ensures |c| > 1 ==> Onward(c) == c[0].resource + [NUL] + (Joint(c, 0) + [NUL] + Onward(c[1..]))
  {
    if |c| > 1 {
      HeadSpelled(c[1..]);
      var v, o, rest := c[0].revision, c[1].operation, Onward(c[1..]);
      assert v + [FENCE] + (o + [NUL] + rest) == (v + [FENCE] + o) + [NUL] + rest;
    } else {
      assert Body(c[1..]) == [];
    }
  }

  predicate NulFree(g: Grant) {
    NUL !in g.operation && NUL !in g.resource && NUL !in g.revision
  }

  lemma ValidIsNulFree(g: Grant)
    requires ValidGrant(g)
    ensures NulFree(g)
  {
  }

  /** A stretch up to the next NUL and the rest are known from the two together. */
  lemma NextStretch(x: Bytes, rest: Bytes, y: Bytes, rest': Bytes)
    requires NUL !in x && NUL !in y
    ensures x + [NUL] + rest == y + [NUL] + rest' <==> x == y && rest == rest'
  {
    if x + [NUL] + rest == y + [NUL] + rest' {
      FirstSeparator(NUL, x, rest, y, rest');
    }
  }

  lemma OnwardStep(c: Manifest, d: Manifest)
    requires |c| > 1 && |d| > 1 && NulFree(c[0]) && NulFree(c[1]) && NulFree(d[0]) && NulFree(d[1])
    ensures Onward(c) == Onward(d) <==>
            c[0].resource == d[0].resource && Joint(c, 0) == Joint(d, 0) && Onward(c[1..]) == Onward(d[1..])
  {
    OnwardSpelled(c);
    OnwardSpelled(d);
    NextStretch(Joint(c, 0), Onward(c[1..]), Joint(d, 0), Onward(d[1..]));
    hide Onward, Joint;
    NextStretch(c[0].resource, Joint(c, 0) + [NUL] + Onward(c[1..]), d[0].resource, Joint(d, 0) + [NUL] + Onward(d[1..]));
  }

  lemma OnwardEnd(c: Manifest, d: Manifest)
    requires |c| == 1 && d != [] && NulFree(c[0]) && NulFree(d[0])
    ensures Onward(c) == Onward(d) <==> |d| == 1 && c[0].resource == d[0].resource && c[0].revision == d[0].revision
  {
    OnwardSpelled(c);
    OnwardSpelled(d);
    var x := c[0].revision + [FENCE];
    var y := if |d| == 1 then d[0].revision + [FENCE] else Joint(d, 0) + [NUL] + Onward(d[1..]);
    NextStretch(c[0].resource, x, d[0].resource, y);
    assert |d| > 1 ==> y[|Joint(d, 0)|] == NUL;
    assert |d| > 1 ==> NUL in y && NUL !in x;
    assert x[..|x| - 1] == c[0].revision;
    assert |d| == 1 ==> y[..|y| - 1] == d[0].revision;
  }

  lemma SameOnwardStep(c: Manifest, d: Manifest)
    requires |c| > 1 && |d| > 1
    ensures SameOnward(c, d) <==>
            c[0].resource == d[0].resource && Joint(c, 0) == Joint(d, 0) && SameOnward(c[1..], d[1..])
  {
    assert forall i :: 0 <= i < |c| - 2 ==> Joint(c[1..], i) == Joint(c, i + 1);
    assert forall i :: 0 <= i < |d| - 2 ==> Joint(d[1..], i) == Joint(d, i + 1);
    hide Joint;
    if c[0].resource == d[0].resource && Joint(c, 0) == Joint(d, 0) && SameOnward(c[1..], d[1..]) {
      forall i | 0 <= i < |c|
        ensures c[i].resource == d[i].resource
      {
        assert i > 0 ==> c[i] == c[1..][i - 1] && d[i] == d[1..][i - 1];
      }
      forall i | 0 <= i < |c| - 1
        ensures Joint(c, i) == Joint(d, i)
      {
        assert i > 0 ==> Joint(c[1..], i - 1) == Joint(c, i) && Joint(d[1..], i - 1) == Joint(d, i);
      }
    }
  }

  lemma {:induction false} OnwardExactly(c: Manifest, d: Manifest)
    requires c != [] && d != [] && AllValid(c) && AllValid(d)
    ensures Onward(c) == Onward(d) <==> SameOnward(c, d)
  {
    hide ValidGrant, Onward, SameOnward, NulFree;
    ValidIsNulFree(c[0]);
    ValidIsNulFree(d[0]);
    if |c| == 1 {
      OnwardEnd(c, d);
      SameOnwardEnd(c, d);
    } else if |d| == 1 {
      OnwardEnd(d, c);
      SameOnwardEnd(d, c);
    } else {
      ValidIsNulFree(c[1]);
      ValidIsNulFree(d[1]);
      OnwardStep(c, d);
      SameOnwardStep(c, d);
      OnwardExactly(c[1..], d[1..]);
    }
  }

  lemma SameOnwardEnd(c: Manifest, d: Manifest)
    requires |c| == 1 && d != []
    ensures SameOnward(c, d) <==> |d| == 1 && c[0].resource == d[0].resource && c[0].revision == d[0].revision
    ensures SameOnward(d, c) <==> SameOnward(c, d)
  {
  }

  /** Two lists of valid grants are encoded alike exactly when their stretches agree. */
  lemma BodyExactly(c: Manifest, d: Manifest)
    requires AllValid(c) && AllValid(d)
    ensures Body(c) == Body(d) <==> SameStretches(c, d)
  {
    hide ValidGrant, Body;
    EmptyBody(c);
    EmptyBody(d);
    if c != [] && d != [] {
      ValidIsNulFree(c[0]);
      ValidIsNulFree(d[0]);
      HeadSpelled(c);
      HeadSpelled(d);
      NextStretch(c[0].operation, Onward(c), d[0].operation, Onward(d));
      OnwardExactly(c, d);
    }
  }

  // ---- Reading the fences elsewhere

  /** One fence byte chosen in every joint. */
  predicate Cuts(c: Manifest, cuts: seq<nat>) {
    && |cuts| == (if c == [] then 0 else |c| - 1)
    && forall i :: 0 <= i < |cuts| ==> cuts[i] < |Joint(c, i)| && Joint(c, i)[cuts[i]] == FENCE
  }

  function RereadAt(c: Manifest, cuts: seq<nat>, i: nat): (g: Grant)
    requires Cuts(c, cuts) && i < |c|
    ensures g.resource == c[i].resource
    ensures (i == 0 ==> g.operation == c[i].operation) && (i == |c| - 1 ==> g.revision == c[i].revision)
  {
    Grant(
      if i == 0 then c[i].operation else Joint(c, i - 1)[cuts[i - 1] + 1..],
      c[i].resource,
      if i == |c| - 1 then c[i].revision else Joint(c, i)[..cuts[i]])
  }

  /** The grants that come out when each joint is cut at the chosen byte. */
  function Reread(c: Manifest, cuts: seq<nat>): (d: Manifest)
    requires Cuts(c, cuts)
    ensures |d| == |c| && forall i :: 0 <= i < |c| ==> d[i] == RereadAt(c, cuts, i)
  {
    seq(|c|, i requires 0 <= i < |c| => RereadAt(c, cuts, i))
  }

  lemma CutJoint(c: Manifest, cuts: seq<nat>, i: nat)
    requires Cuts(c, cuts) && i < |cuts|
    ensures Joint(Reread(c, cuts), i) == Joint(c, i)
  {
    var joint := Joint(c, i);
    assert joint[cuts[i]] == FENCE;
    assert RereadAt(c, cuts, i).revision == joint[..cuts[i]];
    assert RereadAt(c, cuts, i + 1).operation == joint[cuts[i] + 1..];
    assert joint == joint[..cuts[i]] + [joint[cuts[i]]] + joint[cuts[i] + 1..];
  }

  lemma RereadKeepsStretches(c: Manifest, cuts: seq<nat>)
    requires Cuts(c, cuts)
    ensures SameStretches(c, Reread(c, cuts))
  {
    hide Joint, RereadAt, Reread;
    forall i | 0 <= i < |c| - 1
      ensures Joint(Reread(c, cuts), i) == Joint(c, i)
    {
      CutJoint(c, cuts, i);
    }
  }

  /** Where the fences of d lie in its joints. */
  function CutsOf(d: Manifest): (cuts: seq<nat>)
    ensures |cuts| == if d == [] then 0 else |d| - 1
    ensures forall i :: 0 <= i < |cuts| ==> cuts[i] == |d[i].revision|
  {
    seq(if d == [] then 0 else |d| - 1, i requires 0 <= i < |d| - 1 => |d[i].revision|)
  }

  lemma JointCut(d: Manifest, i: nat)
    requires i + 1 < |d|
    ensures var n := |d[i].revision|;
            && n < |Joint(d, i)| && Joint(d, i)[n] == FENCE
            && Joint(d, i)[..n] == d[i].revision && Joint(d, i)[n + 1..] == d[i + 1].operation
  {
  }

  lemma FencesFit(c: Manifest, d: Manifest)
    requires SameStretches(c, d)
    ensures Cuts(c, CutsOf(d))
  {
    var cuts := CutsOf(d);
    hide Joint, CutsOf;
    forall i | 0 <= i < |cuts|
      ensures cuts[i] < |Joint(c, i)| && Joint(c, i)[cuts[i]] == FENCE
    {
      JointCut(d, i);
      assert Joint(c, i) == Joint(d, i);
    }
  }

  lemma RereadsTo(c: Manifest, d: Manifest, i: nat)
    requires SameStretches(c, d) && Cuts(c, CutsOf(d)) && i < |d|
    ensures RereadAt(c, CutsOf(d), i) == d[i]
  {
    hide Joint, CutsOf, Cuts;
    if i > 0 {
      JointCut(d, i - 1);
      assert Joint(c, i - 1) == Joint(d, i - 1);
    }
    if i < |d| - 1 {
      JointCut(d, i);
      assert Joint(c, i) == Joint(d, i);
    }
  }

  lemma SameStretchesAreReread(c: Manifest, d: Manifest)
    requires SameStretches(c, d)
    ensures Cuts(c, CutsOf(d)) && Reread(c, CutsOf(d)) == d
  {
    FencesFit(c, d);
    var e := Reread(c, CutsOf(d));
    assert |e| == |d|;
    forall i | 0 <= i < |d|
      ensures e[i] == d[i]
    {
      RereadsTo(c, d, i);
      assert e[i] == RereadAt(c, CutsOf(d), i);
    }
    hide *;
    assert e == d;
  }

  /** Lists with the same stretches that differ have a fence in different places. */
  lemma FencesDiffer(c: Manifest, d: Manifest)
    requires SameStretches(c, d) && c != d
    ensures Cuts(c, CutsOf(d)) && Moved(c, CutsOf(d))
  {
    assert SameStretches(c, c);
    SameStretchesAreReread(c, c);
    SameStretchesAreReread(c, d);
    hide SameStretches, Reread, Cuts;
    assert |CutsOf(c)| == |CutsOf(d)| && CutsOf(c) != CutsOf(d);
  }

  /** Some fence is read elsewhere than where it is. */
  predicate Moved(c: Manifest, cuts: seq<nat>)
    requires Cuts(c, cuts)
  {
    exists i :: 0 <= i < |cuts| && cuts[i] != |c[i].revision|
  }

  /** Some other choice of fences also yields valid grants in increasing order. */
  ghost predicate Ambiguous(c: Manifest) {
    exists cuts :: Cuts(c, cuts) && Moved(c, cuts) && AllValid(Reread(c, cuts)) && Increasing(Reread(c, cuts))
  }

  lemma MovedChanges(c: Manifest, cuts: seq<nat>)
    requires Cuts(c, cuts) && Moved(c, cuts)
    ensures Reread(c, cuts) != c
  {
    var i :| 0 <= i < |cuts| && cuts[i] != |c[i].revision|;
    assert |RereadAt(c, cuts, i).revision| == cuts[i];
  }

  /** A valid manifest shares its digest with a different grant set exactly when its canonical form is ambiguous. */
  lemma DigestSharedExactly(a: Manifest, c: Manifest)
    requires AllValid(a) && CanonicalForm(c, a)
    ensures (exists b :: AllValid(b) && !SameGrants(a, b) && NamesGrants(Sha256(Preimage(c)), b)) <==> Ambiguous(c)
  {
    if b :| AllValid(b) && !SameGrants(a, b) && NamesGrants(Sha256(Preimage(c)), b) {
      SharedIsAmbiguous(a, c, b);
    }
    if Ambiguous(c) {
      var d := AmbiguousIsShared(a, c);
    }
  }

  lemma SharedIsAmbiguous(a: Manifest, c: Manifest, b: Manifest)
    requires AllValid(a) && CanonicalForm(c, a)
    requires AllValid(b) && !SameGrants(a, b) && NamesGrants(Sha256(Preimage(c)), b)
    ensures Ambiguous(c)
  {
    hide ValidGrant, Below, Body, Preimage, SameStretches;
    var d :| CanonicalForm(d, b) && Sha256(Preimage(c)) == Sha256(Preimage(d));
    PreimageShowsBody(c, d);
    BodyExactly(c, d);
    SameStretchesAreReread(c, d);
    FencesDiffer(c, d);
  }

  lemma BodyGivesPreimage(c: Manifest, d: Manifest)
    requires Body(c) == Body(d)
    ensures Preimage(c) == Preimage(d)
  {
  }

  lemma AmbiguousIsShared(a: Manifest, c: Manifest) returns (d: Manifest)
    requires AllValid(a) && CanonicalForm(c, a) && Ambiguous(c)
    ensures AllValid(d) && !SameGrants(a, d) && NamesGrants(Sha256(Preimage(c)), d)
  {
    hide ValidGrant, Increasing, Body, SameStretches, Reread, Preimage, Cuts, Moved;
    var cuts :| Cuts(c, cuts) && Moved(c, cuts) && AllValid(Reread(c, cuts)) && Increasing(Reread(c, cuts));
    d := Reread(c, cuts);
    MovedChanges(c, cuts);
    RereadKeepsStretches(c, cuts);
    BodyExactly(c, d);
    BodyGivesPreimage(c, d);
    if SameGrants(a, d) {
      CanonicalFormIsUnique(c, d);
    }
    assert CanonicalForm(d, d);
  }
}
