/** Single-use consumption of approved authority by any number of interleaved consumers. */
module Authority {
  import opened Wrappers
  import opened ByteStrings
  import opened Grants

  type RowID = nat

  type ConsumerID = nat

  type Time = int

  datatype Response = Approved | OtherResponse(name: Bytes)

  /** The approval metadata as parsed; rest stands for the keys this code leaves alone. */
  datatype Metadata =
    | Undecodable(text: Bytes)
    | Metadata(grant: Option<Grant>, digest: Digest, consumedAt: Option<Time>, rest: Bytes)

  /** An approval of type "capability:" followed by the operation. */
  datatype Approval = Approval(
    runID: Bytes, operation: Bytes, response: Response, expiresAt: Option<Time>, metadata: Metadata)

  datatype Candidate = Candidate(id: RowID, raw: Metadata)

  datatype ConsumeError = UndecodableApproval | InvalidApproval | DigestMismatch

  type Rows = map<RowID, Approval>

  // ---- One candidate

  datatype Verdict = Skip | Reject(error: ConsumeError) | Attempt

  predicate NoDigestGiven(d: Digest) {
    d.NoDigest? || (d.OtherText? && Blank(d.text))
  }

  /** The digest of the manifest holding just g. */
  function DigestOfOne(g: Grant): Digest {
    Sha256(Preimage([g]))
  }

  lemma OneGrantDigest(g: Grant, m: Manifest, d: Digest)
    requires CanonicalForm(m, [g]) && NamesGrants(d, m)
    ensures d == DigestOfOne(g)
  {
    hide Preimage, Below;
    assert Increasing([g]);
    CanonicalFormIsUnique(m, [g]);
    var c :| CanonicalForm(c, m) && d == Sha256(Preimage(c));
    CanonicalFormIsUnique(c, m);
  }

  lemma OneGrantValid(g: Grant)
    ensures AllValid([g]) <==> ValidGrant(g)
    ensures forall m :: SameGrants(m, [g]) ==> (AllValid(m) <==> ValidGrant(g))
  {
    hide ValidGrant;
    assert g in [g];
  }

  function Consider(raw: Metadata, requested: Grant): Verdict {
    if raw.Undecodable? then Reject(UndecodableApproval)
    else if raw.grant.None? || NoDigestGiven(raw.digest) || raw.consumedAt.Some? then Skip
    else if !ValidGrant(raw.grant.value) then Reject(InvalidApproval)
    else if raw.digest != DigestOfOne(raw.grant.value) then Reject(DigestMismatch)
    else if raw.grant.value != requested then Skip
    else Attempt
  }

  /** The metadata cannot be read, or it offers a grant that is not valid or not the one its digest was made of. */
  predicate Broken(raw: Metadata) {
    || raw.Undecodable?
    || (&& raw.consumedAt.None? && raw.grant.Some? && raw.digest != NoDigest && !(raw.digest.OtherText? && Blank(raw.digest.text))
        && (!ValidGrant(raw.grant.value) || raw.digest != Sha256(Preimage([raw.grant.value]))))
  }

  /** The metadata offers exactly the requested grant, under its digest, and has not been consumed. */
  predicate Offers(raw: Metadata, requested: Grant) {
    && raw.Metadata? && raw.consumedAt.None? && raw.grant == Some(requested)
    && ValidGrant(requested) && raw.digest == Sha256(Preimage([requested]))
  }

  /** The candidate offers the grant, and its row is still there as it was loaded, approved. */
  predicate Usable(rows: Rows, c: Candidate, requested: Grant) {
    && Offers(c.raw, requested)
    && c.id in rows && rows[c.id].metadata == c.raw && rows[c.id].response == Approved
  }

  predicate Explains(raw: Metadata, e: ConsumeError) {
    match e
    case UndecodableApproval => raw.Undecodable?
    case InvalidApproval => raw.Metadata? && raw.grant.Some? && !ValidGrant(raw.grant.value)
    case DigestMismatch =>
      raw.Metadata? && raw.grant.Some? && ValidGrant(raw.grant.value) && raw.digest != Sha256(Preimage([raw.grant.value]))
  }

  /** A candidate is attempted exactly when it offers the grant, rejected exactly when it is broken, and else passed over. */
  lemma ConsiderExactly(raw: Metadata, requested: Grant)
    ensures Consider(raw, requested) == Attempt <==> Offers(raw, requested)
    ensures Consider(raw, requested).Reject? <==> Broken(raw)
    ensures Consider(raw, requested).Reject? ==> Explains(raw, Consider(raw, requested).error)
    ensures !(Broken(raw) && Offers(raw, requested))
  {
    hide Preimage, ValidGrant;
  }

  predicate SwapApplies(rows: Rows, c: Candidate) {
    c.id in rows && rows[c.id].metadata == c.raw && rows[c.id].response == Approved
  }

  function Swapped(rows: Rows, c: Candidate, now: Time): Rows
    requires c.raw.Metadata?
  {
    if SwapApplies(rows, c)
    then rows[c.id := rows[c.id].(metadata := c.raw.(consumedAt := Some(now)))] else rows
  }

  // ---- The loop over the candidates, when nobody else is at work

  /** Candidate k settles the matter: it can be used or is broken, and none before it is either. */
  predicate Settles(rows: Rows, candidates: seq<Candidate>, requested: Grant, k: nat) {
    && k < |candidates| && (Usable(rows, candidates[k], requested) || Broken(candidates[k].raw))
    && forall j :: 0 <= j < k ==> !Usable(rows, candidates[j], requested) && !Broken(candidates[j].raw)
  }

  class ApprovalTable {
    var rows: Rows

    method CompareAndSwap(c: Candidate, now: Time) returns (affected: nat)
      requires c.raw.Metadata?
      modifies this
      ensures rows == Swapped(old(rows), c, now)
      ensures affected == if SwapApplies(old(rows), c) then 1 else 0
    {
      if c.id in rows && rows[c.id].metadata == c.raw && rows[c.id].response == Approved {
        rows := rows[c.id := rows[c.id].(metadata := c.raw.(consumedAt := Some(now)))];
        return 1;
      }
      return 0;
    }

    /** The first candidate that can be used or is broken decides: it is consumed, or it is reported and nothing changes;
        the answer is no exactly when there is neither. */
    method Consume(candidates: seq<Candidate>, requested: Grant, now: Time) returns (r: Result<bool, ConsumeError>, ghost k: nat)
      modifies this
      ensures r != Success(false) ==> Settles(old(rows), candidates, requested, k)
      ensures r != Success(false) ==> (r == Success(true) <==> Usable(old(rows), candidates[k], requested))
      ensures r == Success(true) <==>
                exists n: nat :: Settles(old(rows), candidates, requested, n) && Usable(old(rows), candidates[n], requested)
      ensures r.Failure? <==> exists n: nat :: Settles(old(rows), candidates, requested, n) && Broken(candidates[n].raw)
      ensures r == Success(true) ==>
                var c := candidates[k];
                rows == old(rows)[c.id := old(rows)[c.id].(metadata := c.raw.(consumedAt := Some(now)))]
      ensures r.Failure? ==> Broken(candidates[k].raw) && Explains(candidates[k].raw, r.error)
      ensures r != Success(true) ==> rows == old(rows)
    {
      hide Preimage, ValidGrant, NoDigestGiven, Blank;
      for i := 0 to |candidates|
        invariant rows == old(rows)
        invariant forall j :: 0 <= j < i ==> !Usable(old(rows), candidates[j], requested) && !Broken(candidates[j].raw)
      {
        var c := candidates[i];
        k := i;
        if c.raw.Undecodable? {
          return Failure(UndecodableApproval), i;
        }
        NoneGiven(c.raw.digest);
        if c.raw.grant.None? || NoDigestGiven(c.raw.digest) || c.raw.consumedAt.Some? {
          continue;
        }
        var approved := c.raw.grant.value;
        OneGrantValid(approved);
        var manifest := NewManifest([approved]);
        if manifest.Failure? {
          return Failure(InvalidApproval), i;
        }
        var digest := DigestOf(manifest.value);
        OneGrantDigest(approved, manifest.value, digest.value);
        if digest.value != c.raw.digest {
          return Failure(DigestMismatch), i;
        }
        if approved != requested {
          continue;
        }
        var affected := CompareAndSwap(c, now);
        if affected == 1 {
          return Success(true), i;
        }
      }
      return Success(false), 0;
    }
  }

  lemma NoneGiven(d: Digest)
    ensures NoDigestGiven(d) <==> d == NoDigest || (d.OtherText? && Blank(d.text))
  {
  }

  // ---- Any number of consumers, interleaved

  datatype Phase =
    | Trying(rest: seq<Candidate>, now: Time)
    | Granted(row: RowID)
    | TurnedDown

  datatype Consumer = Consumer(runID: Bytes, requested: Grant, phase: Phase)

  /** everApproved remembers which rows have been approved at some time. */
  datatype World = World(rows: Rows, consumers: map<ConsumerID, Consumer>, everApproved: set<RowID>)

  datatype Action =
    | Load(c: ConsumerID, runID: Bytes, requested: Grant, now: Time, candidates: seq<Candidate>)
    | TryNext(c: ConsumerID)
    | LoseReply(c: ConsumerID, applied: bool)
    | Insert(id: RowID, row: Approval)
    | Edit(id: RowID, row: Approval)

  predicate Matches(a: Approval, runID: Bytes, requested: Grant, now: Time) {
    && a.runID == runID && a.operation == requested.operation && a.response == Approved
    && (a.expiresAt.None? || a.expiresAt.value > now)
  }

  /** The next phase of a consumer that looks at one more candidate, and the table it leaves. */
  function TryOne(rows: Rows, k: Consumer): (Phase, Rows)
    requires k.phase.Trying?
  {
    if k.phase.rest == [] then (TurnedDown, rows)
    else
      var c, later := k.phase.rest[0], Trying(k.phase.rest[1..], k.phase.now);
      match Consider(c.raw, k.requested)
      case Skip => (later, rows)
      case Reject(_) => (TurnedDown, rows)
      case Attempt => (if SwapApplies(rows, c) then Granted(c.id) else later, Swapped(rows, c, k.phase.now))
  }

  /** The next candidate is granted exactly when it can be used, ends the search exactly when it is broken, and is
      otherwise left behind; only a grant changes the table, and only by marking that row consumed. */
  lemma TryOneExactly(rows: Rows, k: Consumer)
    requires k.phase.Trying?
    ensures var (phase, rows') := TryOne(rows, k);
            var rest := k.phase.rest;
            && (phase.Granted? <==> rest != [] && Usable(rows, rest[0], k.requested))
            && (phase.Granted? ==>
                  && phase.row == rest[0].id
                  && rows' == rows[phase.row := rows[phase.row].(metadata := rest[0].raw.(consumedAt := Some(k.phase.now)))])
            && (phase == TurnedDown <==> rest == [] || Broken(rest[0].raw))
            && (phase.Trying? ==> phase == Trying(rest[1..], k.phase.now))
            && (!phase.Granted? ==> rows' == rows)
  {
    if k.phase.rest != [] {
      ConsiderExactly(k.phase.rest[0].raw, k.requested);
    }
    hide Preimage, ValidGrant, NoDigestGiven, Consider, Broken, Offers;
  }

  function ApprovedIDs(rows: Rows): set<RowID> {
    set id | id in rows && rows[id].response == Approved
  }

  ghost predicate Step(w: World, a: Action, w': World) {
    && w'.everApproved == w.everApproved + ApprovedIDs(w'.rows)
    && match a
       case Load(c, runID, requested, now, candidates) =>
         && c !in w.consumers && ValidGrant(requested) && !Blank(runID)
         && (forall k :: 0 <= k < |candidates| ==> var x := candidates[k];
               && x.id in w.rows && x.raw == w.rows[x.id].metadata && Matches(w.rows[x.id], runID, requested, now))
         && w'.rows == w.rows
         && w'.consumers == w.consumers[c := Consumer(runID, requested, Trying(candidates, now))]
       case TryNext(c) =>
         && c in w.consumers && w.consumers[c].phase.Trying?
         && var (phase, rows) := TryOne(w.rows, w.consumers[c]);
            w'.rows == rows && w'.consumers == w.consumers[c := w.consumers[c].(phase := phase)]
       case LoseReply(c, applied) =>
         && c in w.consumers && w.consumers[c].phase.Trying?
         && w'.consumers == w.consumers[c := w.consumers[c].(phase := TurnedDown)]
         && w'.rows == if applied then TryOne(w.rows, w.consumers[c]).1 else w.rows
       case Insert(id, row) =>
         id !in w.rows && w'.rows == w.rows[id := row] && w'.consumers == w.consumers
       case Edit(id, row) =>
         && id in w.rows && w'.consumers == w.consumers && w'.rows == w.rows[id := row]
         && row == w.rows[id].(response := row.response, expiresAt := row.expiresAt)
  }

  // ---- Safety

  /** A row whose grant was used: it was approved once, for this run and exactly this grant, and is marked consumed. */
  predicate UsedFor(w: World, id: RowID, runID: Bytes, g: Grant) {
    && id in w.rows && id in w.everApproved
    && w.rows[id].runID == runID && w.rows[id].operation == g.operation
    && w.rows[id].metadata.Metadata? && w.rows[id].metadata.consumedAt.Some?
    && w.rows[id].metadata.grant == Some(g) && w.rows[id].metadata.digest == DigestOfOne(g)
  }

  predicate IsGranted(w: World, c: ConsumerID) {
    c in w.consumers && w.consumers[c].phase.Granted?
  }

  predicate ConsumerSound(w: World, k: Consumer) {
    match k.phase
    case TurnedDown => true
    case Granted(row) => UsedFor(w, row, k.runID, k.requested)
    case Trying(rest, _) =>
      forall j :: 0 <= j < |rest| ==>
        && rest[j].id in w.rows && rest[j].id in w.everApproved
        && w.rows[rest[j].id].runID == k.runID && w.rows[rest[j].id].operation == k.requested.operation
  }

  ghost predicate Invariant(w: World) {
    && ApprovedIDs(w.rows) <= w.everApproved
    && (forall c :: c in w.consumers ==> ConsumerSound(w, w.consumers[c]))
    && (forall c, d :: IsGranted(w, c) && IsGranted(w, d) && c != d ==> w.consumers[c].phase.row != w.consumers[d].phase.row)
  }

  /** What every action keeps of a row: who it is for, and a consumed row's metadata. */
  predicate RowKept(before: Approval, after: Approval) {
    && after.runID == before.runID && after.operation == before.operation
    && (before.metadata.Metadata? && before.metadata.consumedAt.Some? ==> after.metadata == before.metadata)
  }

  lemma StepKeepsRows(w: World, a: Action, w': World)
    requires Step(w, a, w')
    ensures forall id :: id in w.rows ==> id in w'.rows && RowKept(w.rows[id], w'.rows[id])
    ensures w.everApproved <= w'.everApproved
  {
    hide Preimage, ValidGrant, NoDigestGiven, DigestOfOne;
  }

  lemma SoundStays(w: World, a: Action, w': World, k: Consumer)
    requires Step(w, a, w') && ConsumerSound(w, k)
    ensures ConsumerSound(w', k)
  {
    hide Step, DigestOfOne;
    StepKeepsRows(w, a, w');
  }

  /** A granted attempt: the row was unconsumed before and is used for this consumer after. */
  lemma GrantUsesFreshRow(w: World, c: ConsumerID, w': World)
    requires Step(w, TryNext(c), w') && ConsumerSound(w, w.consumers[c])
    ensures ConsumerSound(w', w'.consumers[c])
    ensures var k := w'.consumers[c];
            k.phase.Granted? ==> w.rows[k.phase.row].metadata.Metadata? && w.rows[k.phase.row].metadata.consumedAt.None?
  {
    hide Preimage, ValidGrant, NoDigestGiven, DigestOfOne;
    StepKeepsRows(w, TryNext(c), w');
  }

  lemma LoadedIsSound(w: World, c: ConsumerID, a: Action, w': World)
    requires a.Load? && a.c == c && Step(w, a, w')
    requires ApprovedIDs(w.rows) <= w.everApproved
    ensures ConsumerSound(w', w'.consumers[c])
  {
    hide ValidGrant, Blank, UsedFor;
    var rest := a.candidates;
    forall j | 0 <= j < |rest|
      ensures rest[j].id in w'.rows && rest[j].id in w'.everApproved && w'.rows[rest[j].id].runID == a.runID
              && w'.rows[rest[j].id].operation == a.requested.operation
    {
      assert rest[j].id in ApprovedIDs(w.rows);
    }
  }

  lemma StepKeepsSoundness(w: World, a: Action, w': World)
    requires Invariant(w) && Step(w, a, w')
    ensures forall c :: c in w'.consumers ==> ConsumerSound(w', w'.consumers[c])
  {
    hide DigestOfOne, ValidGrant, Consider, Swapped, SwapApplies, ConsumerSound, TryOne;
    forall d | d in w.consumers
      ensures ConsumerSound(w', w.consumers[d])
    {
      SoundStays(w, a, w', w.consumers[d]);
    }
    match a
    case Load(c, _, _, _, _) => LoadedIsSound(w, c, a, w');
    case TryNext(c) => GrantUsesFreshRow(w, c, w');
    case LoseReply(c, _) => assert ConsumerSound(w', w'.consumers[c]) by { RefusedIsSound(w', w'.consumers[c]); }
    case Insert(_, _) =>
    case Edit(_, _) =>
  }

  lemma RefusedIsSound(w: World, k: Consumer)
    requires k.phase.TurnedDown?
    ensures ConsumerSound(w, k)
  {
  }

  /** A newly granted row was unconsumed, so no other consumer can have been granted it. */
  lemma StepKeepsRowsApart(w: World, a: Action, w': World)
    requires Invariant(w) && Step(w, a, w')
    ensures forall c, d :: IsGranted(w', c) && IsGranted(w', d) && c != d
              ==> w'.consumers[c].phase.row != w'.consumers[d].phase.row
  {
    hide DigestOfOne, ValidGrant, Consider, Swapped, SwapApplies, TryOne;
    if a.TryNext? {
      GrantUsesFreshRow(w, a.c, w');
    }
  }

  lemma StepKeepsInvariant(w: World, a: Action, w': World)
    requires Invariant(w) && Step(w, a, w')
    ensures Invariant(w')
  {
    StepKeepsSoundness(w, a, w');
    StepKeepsRowsApart(w, a, w');
    hide ConsumerSound, IsGranted, TryOne, ValidGrant;
  }

  ghost predicate Run(ws: seq<World>, actions: seq<Action>) {
    && |ws| == |actions| + 1
    && forall i :: 0 <= i < |actions| ==> Step(ws[i], actions[i], ws[i + 1])
  }

  /** Before anyone asks. */
  predicate Initial(w: World) {
    w.consumers == map[] && w.everApproved == ApprovedIDs(w.rows)
  }

  lemma {:induction false} RunKeepsInvariant(ws: seq<World>, actions: seq<Action>, i: nat)
    requires Run(ws, actions) && Initial(ws[0]) && i < |ws|
    ensures Invariant(ws[i])
  {
    hide Step;
    if i > 0 {
      RunKeepsInvariant(ws, actions, i - 1);
      StepKeepsInvariant(ws[i - 1], actions[i - 1], ws[i]);
    }
  }

  // ---- At most one true return per approved row

  function TrueReturns(w: World, runID: Bytes, g: Grant): set<ConsumerID> {
    set c | c in w.consumers && w.consumers[c].phase.Granted? && w.consumers[c].runID == runID && w.consumers[c].requested == g
  }

  function ApprovedRowsFor(w: World, runID: Bytes, g: Grant): set<RowID> {
    set id | id in w.everApproved && id in w.rows && w.rows[id].runID == runID
             && w.rows[id].metadata.Metadata? && w.rows[id].metadata.grant == Some(g)
  }

  lemma {:induction false} DistinctRowsCount(w: World, cs: set<ConsumerID>, rows: set<RowID>)
    requires Invariant(w) && forall c :: c in cs ==> IsGranted(w, c) && w.consumers[c].phase.row in rows
    ensures |cs| <= |rows|
  {
    hide ConsumerSound;
    if cs != {} {
      var c :| c in cs;
      DistinctRowsCount(w, cs - {c}, rows - {w.consumers[c].phase.row});
    }
  }

  /** In every reachable world the true returns for a run and a grant are no more than the rows ever approved for them. */
  lemma TrueReturnsAreCovered(ws: seq<World>, actions: seq<Action>, i: nat, runID: Bytes, g: Grant)
    requires Run(ws, actions) && Initial(ws[0]) && i < |ws|
    ensures |TrueReturns(ws[i], runID, g)| <= |ApprovedRowsFor(ws[i], runID, g)|
    ensures forall c :: c in TrueReturns(ws[i], runID, g) ==> UsedFor(ws[i], ws[i].consumers[c].phase.row, runID, g)
  {
    hide Step, DigestOfOne;
    RunKeepsInvariant(ws, actions, i);
    DistinctRowsCount(ws[i], TrueReturns(ws[i], runID, g), ApprovedRowsFor(ws[i], runID, g));
  }

  // ---- What was approved when it was asked for

  /** Consumer c found row id approved for its run and operation, and not expired, when it loaded its candidates. */
  predicate FoundInForce(ws: seq<World>, actions: seq<Action>, n: nat, c: ConsumerID, id: RowID) {
    exists k :: 0 <= k < n && k < |actions| && k < |ws| && actions[k].Load? && FoundAt(ws[k], actions[k], c, id)
  }

  predicate FoundAt(w: World, a: Action, c: ConsumerID, id: RowID)
    requires a.Load?
  {
    && a.c == c && id in w.rows && w.rows[id].response == Approved
    && w.rows[id].runID == a.runID && w.rows[id].operation == a.requested.operation
    && (w.rows[id].expiresAt.Some? ==> a.now < w.rows[id].expiresAt.value)
  }

  predicate AllFound(ws: seq<World>, actions: seq<Action>, n: nat, c: ConsumerID)
    requires n < |ws| && c in ws[n].consumers
  {
    match ws[n].consumers[c].phase
    case TurnedDown => true
    case Granted(row) => FoundInForce(ws, actions, n, c, row)
    case Trying(rest, _) => forall j :: 0 <= j < |rest| ==> FoundInForce(ws, actions, n, c, rest[j].id)
  }

  lemma FoundStays(ws: seq<World>, actions: seq<Action>, n: nat, c: ConsumerID, id: RowID)
    requires FoundInForce(ws, actions, n, c, id)
    ensures FoundInForce(ws, actions, n + 1, c, id)
  {
    hide FoundAt;
  }

  lemma LoadFinds(ws: seq<World>, actions: seq<Action>, n: nat, id: RowID)
    requires n < |actions| && n < |ws| && actions[n].Load? && FoundAt(ws[n], actions[n], actions[n].c, id)
    ensures FoundInForce(ws, actions, n + 1, actions[n].c, id)
  {
    hide FoundAt;
  }

  /** A consumer's candidates after a step are those it had, or the ones it has just loaded. */
  lemma CandidatesComeFrom(w: World, a: Action, w': World, c: ConsumerID)
    requires Step(w, a, w') && c in w'.consumers
    ensures var after := w'.consumers[c].phase;
            if a.Load? && a.c == c
            then after == Trying(a.candidates, a.now) && forall j :: 0 <= j < |a.candidates| ==> FoundAt(w, a, c, a.candidates[j].id)
            else
              && c in w.consumers
              && var before := w.consumers[c].phase;
                 || after == before || after.TurnedDown?
                 || (&& before.Trying? && before.rest != []
                     && (after == Granted(before.rest[0].id) || (after.Trying? && after.rest == before.rest[1..])))
  {
    hide ValidGrant, Blank, Consider, Swapped, SwapApplies;
  }

  lemma {:induction false} EveryoneFound(ws: seq<World>, actions: seq<Action>, n: nat, c: ConsumerID)
    requires Run(ws, actions) && Initial(ws[0]) && n < |ws| && c in ws[n].consumers
    ensures AllFound(ws, actions, n, c)
  {
    if n > 0 {
      var w, a := ws[n - 1], actions[n - 1];
      assert Step(w, a, ws[n]);
      CandidatesComeFrom(w, a, ws[n], c);
      hide Step, FoundInForce, FoundAt;
      var after := ws[n].consumers[c].phase;
      if a.Load? && a.c == c {
        forall j | 0 <= j < |a.candidates|
          ensures FoundInForce(ws, actions, n, c, a.candidates[j].id)
        {
          LoadFinds(ws, actions, n - 1, a.candidates[j].id);
        }
      } else {
        EveryoneFound(ws, actions, n - 1, c);
        var before := w.consumers[c].phase;
        if before.Granted? {
          FoundStays(ws, actions, n - 1, c, before.row);
        } else if before.Trying? {
          forall j | 0 <= j < |before.rest|
            ensures FoundInForce(ws, actions, n, c, before.rest[j].id)
          {
            FoundStays(ws, actions, n - 1, c, before.rest[j].id);
          }
        }
      }
    }
  }

  /** Whoever is granted a row found it approved, for its own run and operation and not expired, when it asked. */
  lemma GrantedWasInForce(ws: seq<World>, actions: seq<Action>, n: nat, c: ConsumerID)
    requires Run(ws, actions) && Initial(ws[0]) && n < |ws| && IsGranted(ws[n], c)
    ensures FoundInForce(ws, actions, n, c, ws[n].consumers[c].phase.row)
  {
    EveryoneFound(ws, actions, n, c);
  }
}
