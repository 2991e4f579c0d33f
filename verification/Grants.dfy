/** Authority grants: canonical manifests, delegation and the digest that names a grant set. */
module Grants {
  import opened Wrappers
  import opened ByteStrings

  datatype Grant = Grant(operation: Bytes, resource: Bytes, revision: Bytes)

  type Manifest = seq<Grant>

  datatype AuthorityError = InvalidManifest(index: nat) | InvalidGrant | Escalation(grant: Grant)

  predicate ValidGrant(g: Grant) {
    !InvalidToken(g.operation) && !InvalidToken(g.resource) && NUL !in g.revision
  }

  predicate AllValid(m: Manifest) {
    forall g :: g in m ==> ValidGrant(g)
  }

  function Canonical(g: Grant): Bytes {
    Join([g.operation, g.resource, g.revision])
  }

  lemma CanonicalSpelled(g: Grant)
    ensures Canonical(g) == g.operation + [NUL] + (g.resource + [NUL] + g.revision)
  {
    var parts := [g.operation, g.resource, g.revision];
    assert parts[1..] == [g.resource, g.revision] && parts[1..][1..] == [g.revision];
    assert Join(parts[1..]) == g.resource + [NUL] + Join([g.revision]);
  }

  lemma CanonicalIsInjective(g: Grant, h: Grant)
    requires ValidGrant(g) && ValidGrant(h) && Canonical(g) == Canonical(h)
    ensures g == h
  {
    hide Blank, Join;
    var a, b := [g.operation, g.resource, g.revision], [h.operation, h.resource, h.revision];
    JoinIsInjective(a, b);
    assert a[0] == b[0] && a[1] == b[1] && a[2] == b[2];
  }

  // ---- Order and canonical form

  predicate Below(g: Grant, h: Grant) {
    Less(Canonical(g), Canonical(h))
  }

  predicate Increasing(s: Manifest) {
    forall i, j :: 0 <= i < j < |s| ==> Below(s[i], s[j])
  }

  predicate Ordered(s: Manifest) {
    forall i, j :: 0 <= i < j < |s| ==> !Below(s[j], s[i])
  }

  ghost predicate SameGrants(a: Manifest, b: Manifest) {
    forall g :: g in a <==> g in b
  }

  ghost predicate CanonicalForm(c: Manifest, m: Manifest) {
    Increasing(c) && SameGrants(c, m)
  }

  lemma BelowIsTotal(g: Grant, h: Grant)
    requires ValidGrant(g) && ValidGrant(h)
    ensures Below(g, h) || g == h || Below(h, g)
    ensures !(Below(g, h) && Below(h, g))
  {
    hide ValidGrant, Canonical, Less;
    LessIsTotal(Canonical(g), Canonical(h));
    if Canonical(g) == Canonical(h) {
      CanonicalIsInjective(g, h);
    }
  }

  /** Not being below carries over, as for any total order. */
  lemma NotBelowCarries(f: Grant, g: Grant, h: Grant)
    requires !Below(g, f) && !Below(h, g)
    ensures !Below(h, f)
  {
    hide Canonical, Less;
    LessIsTotal(Canonical(g), Canonical(f));
    LessIsTotal(Canonical(h), Canonical(g));
    LessIsTotal(Canonical(h), Canonical(f));
    if Below(f, g) && Below(g, h) {
      LessIsTransitive(Canonical(f), Canonical(g), Canonical(h));
    }
  }

  /** A grant set has one canonical form, whatever the order and repetitions it was given in. */
  lemma {:induction false} CanonicalFormIsUnique(a: Manifest, b: Manifest)
    requires Increasing(a) && Increasing(b) && SameGrants(a, b)
    ensures a == b
  {
    hide Below;
    SameEmptiness(a, b);
    if a != [] {
      HeadsAgree(a, b);
      var x, y := a[1..], b[1..];
      HeadIsLeast(a);
      HeadIsLeast(b);
      assert SameGrants(x, y) by {
        assert a == [a[0]] + x && b == [b[0]] + y;
      }
      CanonicalFormIsUnique(x, y);
    }
  }

  lemma SameEmptiness(a: Manifest, b: Manifest)
    requires SameGrants(a, b)
    ensures a == [] <==> b == []
  {
    assert (a != [] ==> a[0] in a) && (b != [] ==> b[0] in b);
  }

  lemma HeadIsLeast(a: Manifest)
    requires Increasing(a) && a != []
    ensures a[0] !in a[1..] && Increasing(a[1..])
    ensures forall g :: g in a ==> g == a[0] || Below(a[0], g)
  {
    hide Canonical, Less;
    LessIsTotal(Canonical(a[0]), Canonical(a[0]));
  }

  lemma HeadsAgree(a: Manifest, b: Manifest)
    requires Increasing(a) && Increasing(b) && SameGrants(a, b) && a != [] && b != []
    ensures a[0] == b[0]
  {
    hide Canonical, Less, Increasing;
    HeadIsLeast(a);
    HeadIsLeast(b);
    assert a[0] in a && b[0] in b;
    LessIsTotal(Canonical(a[0]), Canonical(b[0]));
  }

  // ---- The in-place sort and compaction of NewManifest

  method ValidateManifest(m: Manifest) returns (r: Outcome<AuthorityError>)
    ensures r.Pass? <==> AllValid(m)
    ensures r.Fail? ==> r.error.InvalidManifest? && r.error.index < |m|
                        && !ValidGrant(m[r.error.index]) && AllValid(m[..r.error.index])
  {
    hide ValidGrant;
    for i := 0 to |m|
      invariant AllValid(m[..i])
    {
      if !ValidGrant(m[i]) {
        return Fail(InvalidManifest(i));
      }
    }
    assert m[..|m|] == m;
    return Pass;
  }

  /** The first n are ordered except that the grant at position j may still have to move down. */
  predicate OrderedBut(s: Manifest, n: nat, j: nat) {
    j < n <= |s| && forall p, q :: 0 <= p < q < n && q != j ==> !Below(s[q], s[p])
  }

  lemma StepDown(s: Manifest, n: nat, j: nat)
    requires OrderedBut(s, n, j) && j > 0 && Below(s[j], s[j - 1])
    ensures OrderedBut(s[j := s[j - 1]][j - 1 := s[j]], n, j - 1)
    ensures multiset(s[j := s[j - 1]][j - 1 := s[j]]) == multiset(s)
  {
    hide Below;
    BelowIsOneWay(s[j], s[j - 1]);
  }

  lemma InPlace(s: Manifest, n: nat, j: nat)
    requires OrderedBut(s, n, j) && (j == 0 || !Below(s[j], s[j - 1]))
    ensures Ordered(s[..n])
  {
    hide Below;
    forall p | 0 <= p < j
      ensures !Below(s[j], s[p])
    {
      BelowIsOneWay(s[j - 1], s[j - 1]);
      NotBelowCarries(s[p], s[j - 1], s[j]);
    }
  }

  /** Moves the grant at i down to its place among the ordered grants before it. */
  method Sink(a: array<Grant>, i: nat)
    requires i < a.Length && Ordered(a[..i])
    modifies a
    ensures Ordered(a[..i + 1]) && multiset(a[..]) == multiset(old(a[..]))
  {
    hide Below;
    var j: nat := i;
    while j > 0 && Below(a[j], a[j - 1])
      invariant OrderedBut(a[..], i + 1, j) && multiset(a[..]) == multiset(old(a[..]))
    {
      ghost var s := a[..];
      StepDown(s, i + 1, j);
      a[j], a[j - 1] := a[j - 1], a[j];
      assert a[..] == s[j := s[j - 1]][j - 1 := s[j]];
      j := j - 1;
    }
    InPlace(a[..], i + 1, j);
    assert a[..][..i + 1] == a[..i + 1];
  }

  /** sort.Slice with canonical order as its comparison. */
  method SortByCanonical(a: array<Grant>)
    modifies a
    ensures Ordered(a[..]) && multiset(a[..]) == multiset(old(a[..]))
  {
    hide Below;
    for i := 0 to a.Length
      invariant Ordered(a[..i]) && multiset(a[..]) == multiset(old(a[..]))
    {
      Sink(a, i);
    }
    assert a[..a.Length] == a[..];
  }

  lemma BelowIsOneWay(g: Grant, h: Grant)
    ensures !(Below(g, h) && Below(h, g))
  {
    LessIsTotal(Canonical(g), Canonical(h));
  }

  /** A later grant of an ordered list that differs from the last one kept is above all that were kept. */
  lemma NextIsAbove(kept: Manifest, g: Grant)
    requires Increasing(kept) && AllValid(kept) && ValidGrant(g)
    requires kept != [] ==> !Below(g, kept[|kept| - 1]) && kept[|kept| - 1] != g
    ensures Increasing(kept + [g])
  {
    hide Canonical, Less, ValidGrant;
    if kept != [] {
      var last := kept[|kept| - 1];
      BelowIsTotal(last, g);
      forall i | 0 <= i < |kept|
        ensures Below(kept[i], g)
      {
        if i < |kept| - 1 {
          LessIsTransitive(Canonical(kept[i]), Canonical(last), Canonical(g));
        }
      }
    }
  }

  /** Drops repeats by writing the kept grants over the front of the list being read. */
  method Compact(a: array<Grant>) returns (n: nat)
    requires Ordered(a[..]) && AllValid(a[..])
    modifies a
    ensures n <= a.Length && CanonicalForm(a[..n], old(a[..]))
  {
    hide Below, ValidGrant;
    n := 0;
    for i := 0 to a.Length
      invariant n <= i && a[i..] == old(a[i..])
      invariant CanonicalForm(a[..n], old(a[..i]))
      invariant n > 0 ==> i > 0 && a[n - 1] == old(a[i - 1])
    {
      var g := a[i];
      assert g == old(a[i]) by {
        assert a[i..][0] == old(a[i..])[0];
      }
      if n == 0 || a[n - 1] != g {
        ghost var kept := a[..n];
        assert AllValid(kept) && old(a[..])[i] == g;
        assert n > 0 ==> kept[n - 1] == old(a[..])[i - 1];
        NextIsAbove(kept, g);
        a[n] := g;
        n := n + 1;
        assert a[..n] == kept + [g];
      }
      assert old(a[..i + 1]) == old(a[..i]) + [g];
    }
    assert old(a[..a.Length]) == old(a[..]);
  }

  /** Succeeds exactly on valid grants and then returns the canonical form of the set they make. */
  method NewManifest(grants: Manifest) returns (r: Result<Manifest, AuthorityError>)
    ensures r.Success? <==> AllValid(grants)
    ensures r.Success? ==> CanonicalForm(r.value, grants)
    ensures r.Failure? ==> r.error.InvalidManifest? && r.error.index < |grants| && !ValidGrant(grants[r.error.index])
  {
    hide ValidGrant, Below;
    var a := new Grant[|grants|](i requires 0 <= i < |grants| => grants[i]);
    assert a[..] == grants;
    var valid := ValidateManifest(grants);
    if valid.Fail? {
      return Failure(valid.error);
    }
    SortByCanonical(a);
    assert SameGrants(a[..], grants) by {
      forall g
        ensures g in a[..] <==> g in grants
      {
        assert g in multiset(a[..]) <==> g in multiset(grants);
      }
    }
    if |grants| < 2 {
      return Success(a[..]);
    }
    ghost var sorted := a[..];
    var n := Compact(a);
    return Success(a[..n]);
  }

  // ---- Delegation

  method Allows(held: Manifest, g: Grant) returns (r: Result<bool, AuthorityError>)
    ensures r.Success? <==> AllValid(held) && ValidGrant(g)
    ensures r.Success? ==> r.value == (g in held)
  {
    hide ValidGrant;
    var valid := ValidateManifest(held);
    if valid.Fail? {
      return Failure(valid.error);
    }
    if !ValidGrant(g) {
      return Failure(InvalidGrant);
    }
    for i := 0 to |held|
      invariant g !in held[..i]
    {
      if held[i] == g {
        return Success(true);
      }
    }
    assert held[..|held|] == held;
    return Success(false);
  }

  /** Delegation asks for no more than is held. */
  predicate Contained(requested: Manifest, held: Manifest) {
    forall g :: g in requested ==> g in held
  }

  method Delegate(held: Manifest, requested: Manifest) returns (r: Result<Manifest, AuthorityError>)
    ensures r.Success? <==> AllValid(held) && AllValid(requested) && Contained(requested, held)
    ensures r.Success? ==> CanonicalForm(r.value, requested)
    ensures r.Failure? && r.error.Escalation? ==> r.error.grant in requested && r.error.grant !in held
  {
    hide ValidGrant, Below;
    var valid := ValidateManifest(held);
    if valid.Fail? {
      return Failure(valid.error);
    }
    valid := ValidateManifest(requested);
    if valid.Fail? {
      return Failure(valid.error);
    }
    for i := 0 to |requested|
      invariant Contained(requested[..i], held)
    {
      var allowed := Allows(held, requested[i]);
      if !allowed.value {
        return Failure(Escalation(requested[i]));
      }
    }
    assert requested[..|requested|] == requested;
    r := NewManifest(requested);
  }

  /** Each manifest of a chain was delegated from the one before it. */
  ghost predicate Chain(ms: seq<Manifest>, requests: seq<Manifest>) {
    && |ms| == |requests| + 1
    && forall i :: 0 <= i < |requests| ==> Contained(requests[i], ms[i]) && CanonicalForm(ms[i + 1], requests[i])
  }

  /** Along any chain of delegations no grant is gained. */
  lemma {:induction false} ChainNeverGrows(ms: seq<Manifest>, requests: seq<Manifest>, i: nat, j: nat)
    requires Chain(ms, requests) && i <= j < |ms|
    ensures Contained(ms[j], ms[i])
  {
    hide Increasing;
    if i < j {
      ChainNeverGrows(ms, requests, i, j - 1);
      assert CanonicalForm(ms[j - 1 + 1], requests[j - 1]);
    }
  }

  // ---- The digest

  const AUTHORITY_DOMAIN := "dev-plane/authority/v1"

  /** The bytes hashed after the domain: every grant closed by 0xFF. */
  function Body(c: Manifest): Bytes {
    if c == [] then [] else Canonical(c[0]) + [FENCE] + Body(c[1..])
  }

  lemma {:induction false} BodyGrows(c: Manifest, g: Grant)
    ensures Body(c + [g]) == Body(c) + Canonical(g) + [FENCE]
  {
    hide Canonical;
    if c == [] {
      assert Body([g]) == Canonical(g) + [FENCE] + Body([g][1..]);
    } else {
      BodyGrows(c[1..], g);
      assert (c + [g])[1..] == c[1..] + [g];
    }
  }

  function Preimage(c: Manifest): Bytes {
    Ascii(AUTHORITY_DOMAIN) + [NUL] + Body(c)
  }

  ghost predicate NamesGrants(d: Digest, m: Manifest) {
    exists c :: CanonicalForm(c, m) && d == Sha256(Preimage(c))
  }

  method DigestOf(m: Manifest) returns (r: Result<Digest, AuthorityError>)
    ensures r.Success? <==> AllValid(m)
    ensures r.Success? ==> NamesGrants(r.value, m)
  {
    hide ValidGrant, Canonical, Ascii, Increasing;
    var canonical := NewManifest(m);
    if canonical.Failure? {
      return Failure(canonical.error);
    }
    var c := canonical.value;
    var written := Ascii(AUTHORITY_DOMAIN) + [NUL];
    for i := 0 to |c|
      invariant written == Ascii(AUTHORITY_DOMAIN) + [NUL] + Body(c[..i])
    {
      BodyGrows(c[..i], c[i]);
      assert c[..i + 1] == c[..i] + [c[i]];
      written := written + Canonical(c[i]);
      written := written + [FENCE];
    }
    assert c[..|c|] == c;
    return Success(Sha256(written));
  }

  /** A 0xFF inside the revision of x's grant i can be read as its end, when it fits into y's next operation. */
  predicate Spills(x: Manifest, y: Manifest, i: nat) {
    i + 1 < |y| && i < |x| && FENCE in x[i].revision && FENCE in y[i + 1].operation
  }

  /** Different lists of valid grants are encoded alike only where a 0xFF of one spills into the other. */
  lemma {:induction false} BodyCollision(c: Manifest, d: Manifest) returns (i: nat)
    requires AllValid(c) && AllValid(d) && Body(c) == Body(d) && c != d
    ensures Spills(c, d, i) || Spills(d, c, i)
  {
    hide InvalidToken;
    EmptyBody(c);
    EmptyBody(d);
    var g, h := c[0], d[0];
    assert g in c && h in d;
    assert AllValid(c[1..]) && AllValid(d[1..]);
    SplitHead(c, d);
    var sc, sd := Body(c[1..]), Body(d[1..]);
    if |g.revision| > |h.revision| {
      RevisionSpills(g.revision, sc, h.revision, d[1..]);
      return 0;
    }
    if |h.revision| > |g.revision| {
      RevisionSpills(h.revision, sd, g.revision, c[1..]);
      return 0;
    }
    var whole := g.revision + [FENCE] + sc;
    assert g.revision == whole[..|g.revision|] == h.revision;
    assert sc == whole[|g.revision| + 1..] == sd;
    assert c == [g] + c[1..] && d == [h] + d[1..];
    var k := BodyCollision(c[1..], d[1..]);
    return k + 1;
  }

  lemma EmptyBody(c: Manifest)
    ensures Body(c) == [] <==> c == []
  {
  }

  lemma HeadSpelled(c: Manifest)
    requires c != []
    ensures var g := c[0];
            Body(c) == g.operation + [NUL] + (g.resource + [NUL] + (g.revision + [FENCE] + Body(c[1..])))
  {
    CanonicalSpelled(c[0]);
    Regroup(c[0].operation, c[0].resource, c[0].revision, Body(c[1..]));
  }

  lemma Regroup(o: Bytes, r: Bytes, v: Bytes, rest: Bytes)
    ensures (o + [NUL] + (r + [NUL] + v)) + [FENCE] + rest == o + [NUL] + (r + [NUL] + (v + [FENCE] + rest))
  {
    assert (r + [NUL] + v) + [FENCE] + rest == r + [NUL] + (v + [FENCE] + rest);
  }

  /** Equal bodies agree on the first operation and resource, and on all that follows them. */
  lemma SplitHead(c: Manifest, d: Manifest)
    requires c != [] && d != [] && AllValid(c) && AllValid(d) && Body(c) == Body(d)
    ensures c[0].operation == d[0].operation && c[0].resource == d[0].resource
    ensures c[0].revision + [FENCE] + Body(c[1..]) == d[0].revision + [FENCE] + Body(d[1..])
  {
    hide Blank;
    var g, h := c[0], d[0];
    assert g in c && h in d;
    HeadSpelled(c);
    HeadSpelled(d);
    hide *;
    var tc, td := g.revision + [FENCE] + Body(c[1..]), h.revision + [FENCE] + Body(d[1..]);
    FirstSeparator(NUL, g.operation, g.resource + [NUL] + tc, h.operation, h.resource + [NUL] + td);
    FirstSeparator(NUL, g.resource, tc, h.resource, td);
  }

  lemma LongerSide(long: Bytes, after: Bytes, short: Bytes, body: Bytes)
    requires |long| > |short| && long + [FENCE] + after == short + [FENCE] + body
    ensures long[|short|] == FENCE && body == long[|short| + 1..] + [FENCE] + after
  {
    var whole := long + [FENCE] + after;
    assert whole[|short|] == FENCE;
    assert whole[|short| + 1..] == body;
  }

  lemma FenceBeforeNul(o: Bytes, tail: Bytes, t: Bytes, after: Bytes)
    requires o + [NUL] + tail == t + [FENCE] + after && NUL !in t
    ensures FENCE in o
  {
    var whole := o + [NUL] + tail;
    assert whole[|o|] == NUL && whole[|t|] == FENCE;
    assert forall k :: 0 <= k < |t| ==> whole[k] == t[k];
    assert whole[|t|] == o[|t|];
  }

  /** A longer revision reaches past the separator into the next operation of the other list. */
  lemma RevisionSpills(long: Bytes, after: Bytes, short: Bytes, next: Manifest)
    requires |long| > |short| && NUL !in long
    requires long + [FENCE] + after == short + [FENCE] + Body(next)
    ensures FENCE in long && next != [] && FENCE in next[0].operation
  {
    LongerSide(long, after, short, Body(next));
    EmptyBody(next);
    HeadSpelled(next);
    hide *;
    var g := next[0];
    FenceBeforeNul(g.operation, g.resource + [NUL] + (g.revision + [FENCE] + Body(next[1..])), long[|short| + 1..], after);
  }

  predicate FenceInRevisions(m: Manifest) {
    exists g :: g in m && FENCE in g.revision
  }

  predicate FenceInOperations(m: Manifest) {
    exists g :: g in m && FENCE in g.operation
  }

  lemma CollisionShowsFences(c: Manifest, d: Manifest)
    requires AllValid(c) && AllValid(d) && Body(c) == Body(d) && c != d
    ensures (FenceInRevisions(c) && FenceInOperations(d)) || (FenceInRevisions(d) && FenceInOperations(c))
  {
    hide ValidGrant, Body;
    var i := BodyCollision(c, d);
    if Spills(c, d, i) {
      assert c[i] in c && d[i + 1] in d;
    } else {
      assert d[i] in d && c[i + 1] in c;
    }
  }

  /** Equal digests name equal grant sets, unless 0xFF sits in a revision of one and an operation of the other. */
  lemma DigestIdentifiesGrants(a: Manifest, b: Manifest, da: Digest, db: Digest)
    requires AllValid(a) && AllValid(b) && NamesGrants(da, a) && NamesGrants(db, b)
    requires !(FenceInRevisions(a) && FenceInOperations(b)) && !(FenceInRevisions(b) && FenceInOperations(a))
    ensures da == db <==> SameGrants(a, b)
  {
    hide ValidGrant, Ascii, Body, Increasing;
    var c :| CanonicalForm(c, a) && da == Sha256(Preimage(c));
    var d :| CanonicalForm(d, b) && db == Sha256(Preimage(d));
    if SameGrants(a, b) {
      CanonicalFormIsUnique(c, d);
    }
    PreimageShowsBody(c, d);
    if Body(c) == Body(d) && c != d {
      CollisionShowsFences(c, d);
    }
  }

  lemma PreimageShowsBody(c: Manifest, d: Manifest)
    ensures Preimage(c) == Preimage(d) ==> Body(c) == Body(d)
  {
    hide Ascii, Body;
    var n := |Ascii(AUTHORITY_DOMAIN) + [NUL]|;
    assert Preimage(c)[n..] == Body(c) && Preimage(d)[n..] == Body(d);
  }

  lemma PairBody(g: Grant, h: Grant)
    ensures Body([g, h]) == Canonical(g) + [FENCE] + (Canonical(h) + [FENCE])
  {
    hide Canonical;
    assert [g, h][1..] == [h] && [h][1..] == [];
    assert Body([h]) == Canonical(h) + [FENCE];
  }

  const SPLIT_LATE := Grant([97], [114], [112, FENCE, 98])
  const SPLIT_EARLY := Grant([97], [114], [112])
  const THEN_SHORT := Grant([99], [116], [])
  const THEN_LONG := Grant([98, FENCE, 99], [116], [])

  lemma SampleEncodings()
    ensures Canonical(SPLIT_LATE) == [97, 0, 114, 0, 112, 0xFF, 98] && Canonical(SPLIT_EARLY) == [97, 0, 114, 0, 112]
    ensures Canonical(THEN_SHORT) == [99, 0, 116, 0] && Canonical(THEN_LONG) == [98, 0xFF, 99, 0, 116, 0]
  {
    CanonicalSpelled(SPLIT_LATE);
    CanonicalSpelled(SPLIT_EARLY);
    CanonicalSpelled(THEN_SHORT);
    CanonicalSpelled(THEN_LONG);
    hide Canonical;
  }

  lemma SamplesAreCanonical()
    ensures ValidGrant(SPLIT_LATE) && ValidGrant(SPLIT_EARLY) && ValidGrant(THEN_SHORT) && ValidGrant(THEN_LONG)
    ensures Below(SPLIT_LATE, THEN_SHORT) && Below(SPLIT_EARLY, THEN_LONG)
  {
    SampleEncodings();
    SampleIsValid(SPLIT_LATE);
    SampleIsValid(SPLIT_EARLY);
    SampleIsValid(THEN_SHORT);
    SampleIsValid(THEN_LONG);
    assert Below(SPLIT_LATE, THEN_SHORT) && Below(SPLIT_EARLY, THEN_LONG) by {
      hide Canonical;
    }
    hide *;
  }

  lemma SampleIsValid(g: Grant)
    requires g in {SPLIT_LATE, SPLIT_EARLY, THEN_SHORT, THEN_LONG}
    ensures ValidGrant(g)
  {
    assert SpaceWidth(g.operation) == 0 && SpaceWidth(g.resource) == 0;
  }

  /** The condition is needed: two valid grant sets that differ and have one digest. */
  lemma DigestCollision() returns (a: Manifest, b: Manifest, d: Digest)
    ensures AllValid(a) && AllValid(b) && !SameGrants(a, b)
    ensures NamesGrants(d, a) && NamesGrants(d, b)
  {
    a, b := [SPLIT_LATE, THEN_SHORT], [SPLIT_EARLY, THEN_LONG];
    SamplesAreCanonical();
    SampleEncodings();
    PairBody(SPLIT_LATE, THEN_SHORT);
    PairBody(SPLIT_EARLY, THEN_LONG);
    hide Canonical, Body, ValidGrant, Below, Ascii;
    assert Body(a) == [97, 0, 114, 0, 112, 0xFF, 98, 0xFF, 99, 0, 116, 0, 0xFF] == Body(b);
    d := Sha256(Preimage(a));
    assert SPLIT_LATE in a && SPLIT_LATE !in b;
    assert CanonicalForm(a, a) && CanonicalForm(b, b);
  }
}
