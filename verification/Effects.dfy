/** Activations, operation identity and effects: what fencing and replay guarantee over every run. */
module Effects {
  import opened Wrappers
  import opened ByteStrings
  import opened Grants

  const MAX_EPOCH := 0xFFFF_FFFF_FFFF_FFFF

  type Epoch = e: int | 0 <= e <= MAX_EPOCH

  type Ordinal = n: int | 0 <= n <= 0xFFFF_FFFF

  datatype Activation = Activation(runID: Bytes, id: Bytes, epoch: Epoch)

  datatype OperationKind = EventKind | EffectKind | OtherKind(name: Bytes)

  datatype OperationID = NoID | Dp1(preimage: Bytes) | OtherID(text: Bytes)

  datatype EffectIntent = EffectIntent(
    id: OperationID, runID: Bytes, activationID: Bytes, epoch: Epoch, ordinal: Ordinal, grant: Grant, inputDigest: Digest)

  datatype EffectReceipt = EffectReceipt(effectID: OperationID, provider: Bytes, reference: Bytes, outputDigest: Digest)

  datatype RecoveryAction = Execute | ReplayRecordedResult

  datatype EffectError =
    | InvalidActivation | EpochExhausted | InvalidOperation | InvalidGrantField | ActivationMismatch | StaleEpoch
    | InvalidEffect | ReceiptMismatch | ReceiptConflict

  // ---- Activations and operation ids

  predicate ValidActivation(a: Activation) {
    !InvalidToken(a.runID) && !InvalidToken(a.id) && a.epoch != 0
  }

  function AdvanceEpoch(a: Activation): (r: Result<Activation, EffectError>)
    ensures r.Success? <==> ValidActivation(a) && a.epoch < MAX_EPOCH
    ensures r.Success? ==> ValidActivation(r.value) && r.value == a.(epoch := r.value.epoch) && r.value.epoch - a.epoch == 1
    ensures r == Failure(EpochExhausted) <==> ValidActivation(a) && a.epoch == MAX_EPOCH
  {
    if !ValidActivation(a) then Failure(InvalidActivation)
    else if a.epoch == MAX_EPOCH then Failure(EpochExhausted)
    else Success(a.(epoch := a.epoch + 1))
  }

  const OPERATION_DOMAIN := "dev-plane/execution/v1"

  function KindName(kind: OperationKind): Bytes {
    match kind
    case EventKind => Ascii("event")
    case EffectKind => Ascii("effect")
    case OtherKind(name) => name
  }

  function OperationParts(a: Activation, kind: OperationKind, ordinal: Ordinal): seq<Bytes> {
    [Ascii(OPERATION_DOMAIN), a.runID, a.id, KindName(kind), Decimal(ordinal)]
  }

  function NewOperationID(a: Activation, kind: OperationKind, ordinal: Ordinal): Result<OperationID, EffectError> {
    if !ValidActivation(a) then Failure(InvalidActivation)
    else if kind.OtherKind? then Failure(InvalidOperation)
    else Success(Dp1(Join(OperationParts(a, kind, ordinal))))
  }

  /** An operation id names exactly a run, an activation, a kind and an ordinal, whatever the epoch. */
  lemma OperationIDIdentifies(a: Activation, k: OperationKind, m: Ordinal, b: Activation, l: OperationKind, n: Ordinal)
    requires NewOperationID(a, k, m).Success? && NewOperationID(b, l, n).Success?
    ensures NewOperationID(a, k, m) == NewOperationID(b, l, n) <==> a.runID == b.runID && a.id == b.id && k == l && m == n
  {
    hide Blank, Join, Decimal;
    var x, y := OperationParts(a, k, m), OperationParts(b, l, n);
    if Join(x) == Join(y) {
      JoinIsInjective(x, y);
      assert x[1] == y[1] && x[2] == y[2] && x[3] == y[3] && x[4] == y[4];
      DecimalIsInjective(m, n);
    }
  }

  // ---- Intents and receipts

  function ActivationOf(i: EffectIntent): Activation {
    Activation(i.runID, i.activationID, i.epoch)
  }

  predicate ValidIntent(i: EffectIntent) {
    && ValidActivation(ActivationOf(i)) && ValidGrant(i.grant) && i.inputDigest != NoDigest
    && NewOperationID(ActivationOf(i), EffectKind, i.ordinal) == Success(i.id)
  }

  function DigestBytes(domain: Bytes, value: Bytes): (d: Digest)
    ensures d != NoDigest
  {
    Sha256(domain + [NUL] + value)
  }

  const INPUT_DOMAIN := Ascii("dev-plane/effect-input/v1")
  const OUTPUT_DOMAIN := Ascii("dev-plane/effect-output/v1")

  function NewEffectIntent(a: Activation, ordinal: Ordinal, grant: Grant, input: Bytes): (r: Result<EffectIntent, EffectError>)
    ensures r.Success? <==> ValidActivation(a) && ValidGrant(grant)
    ensures r.Success? ==> ValidIntent(r.value) && ActivationOf(r.value) == a && r.value.ordinal == ordinal
    ensures r.Success? ==> NewOperationID(a, EffectKind, ordinal) == Success(r.value.id)
    ensures r.Success? ==> r.value.grant == grant && r.value.inputDigest == DigestBytes(INPUT_DOMAIN, input)
    ensures r.Failure? ==> r.error == if ValidActivation(a) then InvalidGrantField else InvalidActivation
  {
    hide ValidGrant, DigestBytes, InvalidToken, Join, OperationParts;
    if !ValidActivation(a) then Failure(InvalidActivation)
    else if !ValidGrant(grant) then Failure(InvalidGrantField)
    else
      var id := NewOperationID(a, EffectKind, ordinal).value;
      Success(EffectIntent(id, a.runID, a.id, a.epoch, ordinal, grant, DigestBytes(INPUT_DOMAIN, input)))
  }

  /** Passes exactly for a valid intent against the very activation it was made for; with an error for each other case. */
  function AuthorizeAgainst(i: EffectIntent, current: Activation): (r: Outcome<EffectError>)
    ensures r.Pass? <==> ValidIntent(i) && ActivationOf(i) == current
    ensures r == Fail(StaleEpoch) <==>
              && ValidIntent(i) && ValidActivation(current)
              && ActivationOf(i).(epoch := current.epoch) == current && i.epoch != current.epoch
    ensures r == Fail(ActivationMismatch) <==>
              ValidIntent(i) && ValidActivation(current) && (i.runID, i.activationID) != (current.runID, current.id)
  {
    if !ValidIntent(i) then Fail(InvalidEffect)
    else if !ValidActivation(current) then Fail(InvalidActivation)
    else if i.runID != current.runID || i.activationID != current.id then Fail(ActivationMismatch)
    else if i.epoch != current.epoch then Fail(StaleEpoch)
    else Pass
  }

  predicate ValidReceipt(r: EffectReceipt) {
    r.effectID != NoID && !InvalidToken(r.provider) && r.outputDigest != NoDigest
  }

  function NewEffectReceipt(i: EffectIntent, provider: Bytes, reference: Bytes, output: Bytes): (r: Result<EffectReceipt, EffectError>)
    ensures r.Success? <==> ValidIntent(i) && !InvalidToken(provider)
    ensures r.Success? ==> ValidReceipt(r.value) && r.value.effectID == i.id
    ensures r.Success? ==> r.value.provider == provider && r.value.reference == reference
    ensures r.Success? ==> r.value.outputDigest == DigestBytes(OUTPUT_DOMAIN, output)
  {
    hide ValidIntent, DigestBytes, InvalidToken;
    if !ValidIntent(i) then Failure(InvalidEffect)
    else if InvalidToken(provider) then Failure(ReceiptMismatch)
    else Success(EffectReceipt(i.id, provider, reference, DigestBytes(OUTPUT_DOMAIN, output)))
  }

  /** Executes only when nothing is on record, and replays only what is on record for this very effect. */
  function RecoverEffect(i: EffectIntent, receipt: Option<EffectReceipt>): (r: Result<RecoveryAction, EffectError>)
    ensures r.Success? <==> ValidIntent(i) && (receipt.Some? ==> ValidReceipt(receipt.value) && receipt.value.effectID == i.id)
    ensures r == Success(Execute) ==> receipt.None?
    ensures r == Success(ReplayRecordedResult) ==> receipt.Some?
  {
    if !ValidIntent(i) then Failure(InvalidEffect)
    else if receipt.None? then Success(Execute)
    else if !ValidReceipt(receipt.value) || receipt.value.effectID != i.id then Failure(ReceiptMismatch)
    else Success(ReplayRecordedResult)
  }

  /** Two valid receipts merge exactly when they are the same one, and conflict otherwise. */
  function MergeReceipt(existing: EffectReceipt, incoming: EffectReceipt): (r: Result<EffectReceipt, EffectError>)
    ensures r.Success? <==> ValidReceipt(existing) && existing == incoming
    ensures r.Success? ==> r.value == existing
    ensures r == Failure(ReceiptConflict) <==> ValidReceipt(existing) && ValidReceipt(incoming) && existing != incoming
  {
    if !ValidReceipt(existing) || !ValidReceipt(incoming) then Failure(ReceiptMismatch)
    else if existing == incoming then Success(existing)
    else Failure(ReceiptConflict)
  }

  /** Two intents for one effect differ only in epoch, grant or input; one id per effect. */
  lemma SameEffectSameID(i: EffectIntent, j: EffectIntent)
    requires ValidIntent(i) && ValidIntent(j)
    ensures i.id == j.id <==> i.runID == j.runID && i.activationID == j.activationID && i.ordinal == j.ordinal
  {
    hide NewOperationID, ValidActivation;
    OperationIDIdentifies(ActivationOf(i), EffectKind, i.ordinal, ActivationOf(j), EffectKind, j.ordinal);
  }

  /** Takeover: the next owner prepares the same effect under the same id; each owner's intent is fenced off
      from the other's activation. */
  lemma TakeoverKeepsTheEffect(a: Activation, n: Ordinal, g: Grant, input: Bytes, g': Grant, input': Bytes)
    requires ValidActivation(a) && a.epoch < MAX_EPOCH && ValidGrant(g) && ValidGrant(g')
    ensures var b := AdvanceEpoch(a).value;
            var i, j := NewEffectIntent(a, n, g, input).value, NewEffectIntent(b, n, g', input').value;
            && i.id == j.id
            && AuthorizeAgainst(i, a).Pass? && AuthorizeAgainst(j, b).Pass?
            && AuthorizeAgainst(i, b) == Fail(StaleEpoch) && AuthorizeAgainst(j, a) == Fail(StaleEpoch)
  {
    hide Blank;
    var b := AdvanceEpoch(a).value;
    OperationIDIdentifies(a, EffectKind, n, b, EffectKind, n);
  }

  // ---- A store that keeps what the package asks its callers to keep

  /** The current activation of each run and activation id, and the receipts on record. */
  datatype Store = Store(current: map<(Bytes, Bytes), Activation>, receipts: map<OperationID, EffectReceipt>)

  datatype Event =
    | Activate(a: Activation)
    | Advance(runID: Bytes, id: Bytes)
    | Authorise(intent: EffectIntent)
    | Recover(intent: EffectIntent)
    | Record(intent: EffectIntent, provider: Bytes, reference: Bytes, output: Bytes)

  function CurrentFor(s: Store, i: EffectIntent): Option<Activation> {
    if (i.runID, i.activationID) in s.current then Some(s.current[(i.runID, i.activationID)]) else None
  }

  function ReceiptFor(s: Store, id: OperationID): Option<EffectReceipt> {
    if id in s.receipts then Some(s.receipts[id]) else None
  }

  predicate Authorised(s: Store, i: EffectIntent) {
    CurrentFor(s, i).Some? && AuthorizeAgainst(i, CurrentFor(s, i).value).Pass?
  }

  /** A first receipt is stored; a later one goes through MergeReceipt, and a refused operation changes nothing. */
  function AfterReceipt(s: Store, r: EffectReceipt): Store {
    match ReceiptFor(s, r.effectID)
    case None => s.(receipts := s.receipts[r.effectID := r])
    case Some(existing) =>
      var merged := MergeReceipt(existing, r);
      if merged.Success? then s.(receipts := s.receipts[r.effectID := merged.value]) else s
  }

  function Apply(s: Store, e: Event): Store {
    match e
    case Activate(a) =>
      if ValidActivation(a) && (a.runID, a.id) !in s.current then s.(current := s.current[(a.runID, a.id) := a]) else s
    case Advance(runID, id) =>
      if (runID, id) !in s.current then s
      else
        var next := AdvanceEpoch(s.current[(runID, id)]);
        if next.Success? then s.(current := s.current[(runID, id) := next.value]) else s
    case Authorise(_) => s
    case Recover(_) => s
    case Record(i, provider, reference, output) =>
      var r := NewEffectReceipt(i, provider, reference, output);
      if r.Success? then AfterReceipt(s, r.value) else s
  }

  function After(s: Store, events: seq<Event>): Store {
    if events == [] then s else Apply(After(s, events[..|events| - 1]), events[|events| - 1])
  }

  predicate Consistent(s: Store) {
    && (forall k :: k in s.current ==> ValidActivation(s.current[k]) && (s.current[k].runID, s.current[k].id) == k)
    && (forall id :: id in s.receipts ==> ValidReceipt(s.receipts[id]) && s.receipts[id].effectID == id)
  }

  /** Later stores keep every receipt as it is and never lower an epoch. */
  ghost predicate Extends(s: Store, s': Store) {
    && (forall id :: id in s.receipts ==> id in s'.receipts && s'.receipts[id] == s.receipts[id])
    && (forall k :: k in s.current ==> k in s'.current && s.current[k].epoch <= s'.current[k].epoch)
  }

  /** The receipt on record wins. */
  lemma ReceiptExtends(s: Store, r: EffectReceipt)
    requires Consistent(s) && ValidReceipt(r)
    ensures Consistent(AfterReceipt(s, r)) && Extends(s, AfterReceipt(s, r)) && r.effectID in AfterReceipt(s, r).receipts
  {
    hide InvalidToken;
  }

  lemma StepExtends(s: Store, e: Event)
    requires Consistent(s)
    ensures Consistent(Apply(s, e)) && Extends(s, Apply(s, e))
  {
    hide ValidIntent, InvalidToken, NewEffectReceipt, AfterReceipt;
    if e.Record? {
      var r := NewEffectReceipt(e.intent, e.provider, e.reference, e.output);
      if r.Success? {
        ReceiptExtends(s, r.value);
      }
    }
  }

  lemma {:induction false} RunExtends(s: Store, events: seq<Event>)
    requires Consistent(s)
    ensures Consistent(After(s, events)) && Extends(s, After(s, events))
  {
    hide Apply, Consistent;
    if events != [] {
      RunExtends(s, events[..|events| - 1]);
      StepExtends(After(s, events[..|events| - 1]), events[|events| - 1]);
    }
  }

  /** Fencing: once the epoch has moved on, an intent authorised before is never authorised again. */
  lemma StaleIntentStaysFenced(s: Store, i: EffectIntent, events: seq<Event>)
    requires Consistent(s) && Authorised(s, i)
    ensures var moved := Apply(s, Advance(i.runID, i.activationID));
            CurrentFor(moved, i) != CurrentFor(s, i) ==> !Authorised(After(moved, events), i)
    ensures i.epoch < MAX_EPOCH ==>
              CurrentFor(Apply(s, Advance(i.runID, i.activationID)), i) == Some(ActivationOf(i).(epoch := i.epoch + 1))
  {
    hide ValidIntent, InvalidToken;
    var moved := Apply(s, Advance(i.runID, i.activationID));
    StepExtends(s, Advance(i.runID, i.activationID));
    RunExtends(moved, events);
  }

  /** Over every run an intent passes against what is stored under a key only if the key is its own run and activation. */
  lemma PassesOnlyUnderItsKey(s: Store, events: seq<Event>, i: EffectIntent, key: (Bytes, Bytes))
    requires Consistent(s) && key in After(s, events).current
    ensures AuthorizeAgainst(i, After(s, events).current[key]).Pass? <==>
              ValidIntent(i) && key == (i.runID, i.activationID) && After(s, events).current[key].epoch == i.epoch
  {
    hide ValidIntent, InvalidToken, After;
    RunExtends(s, events);
  }

  /** Replay: until a receipt is recorded, recovery executes the effect; after that every recovery of it, from any epoch
      and at any later point, replays that very receipt. */
  lemma {:induction false} RecordedEffectReplays(
        s: Store, i: EffectIntent, provider: Bytes, reference: Bytes, output: Bytes, events: seq<Event>, j: EffectIntent)
    requires Consistent(s) && ValidIntent(i) && !InvalidToken(provider)
    requires ValidIntent(j) && j.runID == i.runID && j.activationID == i.activationID && j.ordinal == i.ordinal
    ensures RecoverEffect(i, ReceiptFor(s, i.id)) == Success(if i.id in s.receipts then ReplayRecordedResult else Execute)
    ensures var recorded := Apply(s, Record(i, provider, reference, output));
            && ReceiptFor(recorded, i.id).Some?
            && ReceiptFor(After(recorded, events), j.id) == ReceiptFor(recorded, i.id)
            && RecoverEffect(j, ReceiptFor(After(recorded, events), j.id)) == Success(ReplayRecordedResult)
  {
    hide ValidIntent, InvalidToken;
    SameEffectSameID(i, j);
    var e := Record(i, provider, reference, output);
    StepExtends(s, e);
    RunExtends(Apply(s, e), events);
  }
}
