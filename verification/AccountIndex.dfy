/**
 The index of accounts by their current output: binding, planning, confirmation, rollback, restart.
 Each operation is a function on the index value; the class in AccountIndexObject.dfy performs it in place.
 */
module AccountIndexes {
  import opened Bytes
  import opened Ledger
  import opened AccountStores

  type SnapshotId = nat

  datatype Indexed = Indexed(utxo: Utxo, store: Store)

  datatype PendingStore = PendingStore(account: AccountId, oldRef: OutputRef, store: Store)

  datatype BindingError = AlreadyBound | OutputAlreadyBound | OutputNotObserved | NonEmptyUnplannedRoot

  datatype Index = Index(
    byAccount: map<AccountId, Indexed>,
    byRef: map<OutputRef, AccountId>,
    predicted: map<OutputRef, (AccountId, TxOut)>,
    unbound: map<OutputRef, Utxo>,
    persisted: map<OutputRef, (AccountId, Store)>,
    pending: set<AccountId>,
    rollback: map<OutputRef, (AccountId, Indexed)>,
    plans: map<SnapshotId, PendingStore>,
    planByRef: map<OutputRef, SnapshotId>,
    nextId: SnapshotId)

  const EMPTY_INDEX := Index(map[], map[], map[], map[], map[], {}, map[], map[], map[], 0)

  // ----- binding -----

  function BindIndexed(s: Index, id: AccountId, ix: Indexed): Index {
    var byRef := if id in s.byAccount then s.byRef - {s.byAccount[id].utxo.ref} else s.byRef;
    s.(byRef := byRef[ix.utxo.ref := id],
       byAccount := s.byAccount[id := ix],
       pending := s.pending - {id},
       unbound := s.unbound - {ix.utxo.ref})
  }

  function BindObserved(s: Index, id: AccountId, utxo: Utxo): Index {
    match FromObservedRoot(utxo.output.storeRoot)
    case None => s.(unbound := s.unbound[utxo.ref := utxo])
    case Some(store) => BindIndexed(s, id, Indexed(utxo, store))
  }

  // A persisted store of the account waits to be restored.
  predicate Waits(s: Index, id: AccountId) {
    exists r :: r in s.persisted && s.persisted[r].0 == id
  }

  function BindOnce(s: Index, id: AccountId, ref: OutputRef): Result<Index, BindingError> {
    if id in s.byAccount || id in s.pending || Waits(s, id) then Failure(AlreadyBound)
    else if ref in s.byRef || ref in s.persisted then Failure(OutputAlreadyBound)
    else if ref !in s.unbound then Failure(OutputNotObserved)
    else
      match FromObservedRoot(s.unbound[ref].output.storeRoot)
      case None => Failure(NonEmptyUnplannedRoot)
      case Some(store) => Success(BindIndexed(s.(unbound := s.unbound - {ref}), id, Indexed(s.unbound[ref], store)))
  }

  // ----- planning -----

  predicate HasPlan(s: Index, id: AccountId, oldRef: OutputRef) {
    exists n :: n in s.plans && s.plans[n].account == id && s.plans[n].oldRef == oldRef
  }

  function StoreForPlanning(s: Index, id: AccountId, oldRef: OutputRef): Option<Store> {
    if id in s.byAccount then
      if s.byAccount[id].utxo.ref != oldRef then None else Some(s.byAccount[id].store)
    else if id !in s.pending || oldRef !in s.rollback then None
    else if HasPlan(s, id, oldRef) then Some(s.rollback[oldRef].1.store)
    else None
  }

  // Keeps the plans that are not for this account and output.
  function DropPlans(s: Index, id: AccountId, oldRef: OutputRef): Index {
    var dropped := set n | n in s.plans && s.plans[n].account == id && s.plans[n].oldRef == oldRef;
    s.(plans := s.plans - dropped,
       planByRef := map r | r in s.planByRef && s.planByRef[r] !in dropped :: s.planByRef[r])
  }

  function Reserve(s: Index, id: AccountId, oldRef: OutputRef, store: Store): Index {
    s.(nextId := s.nextId + 1,
       byRef := s.byRef - {oldRef},
       rollback := if id in s.byAccount then s.rollback[oldRef := (id, s.byAccount[id])] else s.rollback,
       byAccount := s.byAccount - {id},
       pending := s.pending + {id},
       plans := s.plans[s.nextId := PendingStore(id, oldRef, store)])
  }

  // A plan is a store operation on a copy of the base store; only a success changes the index.
  datatype PlanResult = Planned(index: Index, predicted: Store, snapshotId: SnapshotId) | Refused(error: PlanningError)

  ghost function OpResult(cx: Cx, base: Store, op: StoreOp): Result<Store, PlanningError>
    requires Usable(cx, base)
  {
    match op
    case InsertOp(key, id, intent) =>
      (match Inserted(cx, base, key, id, intent) case Success(p) => Success(p.0) case Failure(e) => Failure(e))
    case UpdateOp(key, d, intent) =>
      (match Updated(cx, base, key, d, intent) case Success(p) => Success(p.0) case Failure(e) => Failure(e))
    case CompleteOp(key, d) =>
      (match MarkedCompleted(cx, base, key, d) case Success(p) => Success(p.0) case Failure(e) => Failure(e))
  }

  ghost function Plan(cx: Cx, s: Index, id: AccountId, oldRef: OutputRef, op: StoreOp): PlanResult
    requires StoreForPlanning(s, id, oldRef).Some? ==> Usable(cx, StoreForPlanning(s, id, oldRef).value)
  {
    match StoreForPlanning(s, id, oldRef)
    case None => Refused(MissingAccount)
    case Some(base) =>
      match OpResult(cx, base, op)
      case Failure(e) => Refused(e)
      case Success(predicted) => Planned(Reserve(DropPlans(s, id, oldRef), id, oldRef, predicted), predicted, s.nextId)
  }

  function Attach(s: Index, snapshot: SnapshotId, ref: OutputRef): Result<Index, PlanningError> {
    if snapshot !in s.plans then Failure(MissingStore) else Success(s.(planByRef := s.planByRef[ref := snapshot]))
  }

  // ----- observing the chain -----

  function ObserveConsumed(s: Index, ref: OutputRef): Index {
    var s1 :=
      if ref !in s.byRef then s
      else
        var id := s.byRef[ref];
        s.(byRef := s.byRef - {ref},
           rollback := if id in s.byAccount then s.rollback[ref := (id, s.byAccount[id])] else s.rollback,
           byAccount := s.byAccount - {id},
           pending := s.pending + {id});
    s1.(predicted := s1.predicted - {ref}, unbound := s1.unbound - {ref})
  }

  function ObserveRemoved(s: Index, ref: OutputRef): Index {
    var s1 :=
      if ref !in s.byRef then s
      else
        s.(byRef := s.byRef - {ref},
           byAccount := s.byAccount - {s.byRef[ref]},
           pending := s.pending + {s.byRef[ref]});
    s1.(predicted := s1.predicted - {ref}, unbound := s1.unbound - {ref})
  }

  function ObserveRollbackConsumed(s: Index, ref: OutputRef): Index {
    var s1 :=
      if ref !in s.rollback then s
      else BindIndexed(s.(rollback := s.rollback - {ref}), s.rollback[ref].0, s.rollback[ref].1);
    var plans := map n | n in s1.plans && s1.plans[n].oldRef != ref :: s1.plans[n];
    s1.(plans := plans, planByRef := map r | r in s1.planByRef && s1.planByRef[r] in plans :: s1.planByRef[r])
  }

  // The accounts bound to any of the outputs.
  function Owners(s: Index, refs: set<OutputRef>): set<AccountId> {
    set r | r in refs && r in s.byRef :: s.byRef[r]
  }

  // The accounts kept for rollback when a set of outputs is consumed.
  function Spent(s: Index, refs: set<OutputRef>): map<OutputRef, (AccountId, Indexed)> {
    map r | r in refs && r in s.byRef && s.byRef[r] in s.byAccount :: (s.byRef[r], s.byAccount[s.byRef[r]])
  }

  // Consuming a set of outputs, in any order.
  function ConsumeAll(s: Index, refs: set<OutputRef>): Index {
    var owners := Owners(s, refs);
    s.(byRef := s.byRef - refs,
       rollback := s.rollback + Spent(s, refs),
       byAccount := s.byAccount - owners,
       pending := s.pending + owners,
       predicted := s.predicted - refs,
       unbound := s.unbound - refs)
  }

  function Matching(s: Index, consumed: set<OutputRef>, root: Hash32): set<SnapshotId> {
    set n | n in s.plans && s.plans[n].oldRef in consumed && s.plans[n].store.root == root
  }

  // All matching plans predict one store for one account.
  predicate Unanimous(s: Index, ids: set<SnapshotId>)
    requires ids <= s.plans.Keys
  {
    forall n, k :: n in ids && k in ids ==>
      s.plans[n].account == s.plans[k].account && s.plans[n].store == s.plans[k].store
  }

  // The index without some of its plans.
  function WithoutPlans(s: Index, ids: set<SnapshotId>): Index {
    s.(plans := s.plans - ids, planByRef := map r | r in s.planByRef && s.planByRef[r] !in ids :: s.planByRef[r])
  }

  ghost function BindConfirmed(s: Index, consumed: set<OutputRef>, utxo: Utxo): Option<Index> {
    var ids := Matching(s, consumed, utxo.output.storeRoot);
    if ids == {} || !Unanimous(s, ids) then None
    else
      var n :| n in ids;
      Some(BindIndexed(WithoutPlans(s, ids), s.plans[n].account, Indexed(utxo, s.plans[n].store)))
  }

  ghost function BindEmptySuccessor(s: Index, owners: set<AccountId>, utxo: Utxo): Option<Index> {
    if |owners| != 1 then None
    else
      match FromObservedRoot(utxo.output.storeRoot)
      case None => None
      case Some(store) =>
        var id :| id in owners;
        if id !in s.pending then None else Some(BindIndexed(s, id, Indexed(utxo, store)))
  }

  function BindPredicted(s: Index, utxo: Utxo): Option<Index> {
    if utxo.ref !in s.planByRef || s.planByRef[utxo.ref] !in s.plans then None
    else
      var n := s.planByRef[utxo.ref];
      if utxo.output.storeRoot != s.plans[n].store.root then None
      else
        var s1 := s.(plans := s.plans - {n}, planByRef := s.planByRef - {utxo.ref});
        Some(BindIndexed(s1, s.plans[n].account, Indexed(utxo, s.plans[n].store)))
  }

  function ObserveCreated(s: Index, utxo: Utxo): Index {
    if utxo.ref in s.predicted then
      var s1 := s.(predicted := s.predicted - {utxo.ref});
      (match BindPredicted(s1, utxo)
       case Some(s2) => s2
       case None => BindObserved(s1, s.predicted[utxo.ref].0, utxo))
    else if utxo.ref in s.planByRef then
      (match BindPredicted(s, utxo)
       case Some(s2) => s2
       case None => s)
    else if utxo.ref in s.persisted && s.persisted[utxo.ref].1.root == utxo.output.storeRoot then
      var (id, store) := s.persisted[utxo.ref];
      BindIndexed(s.(persisted := s.persisted - {utxo.ref}), id, Indexed(utxo, store))
    else s.(unbound := s.unbound[utxo.ref := utxo])
  }

  ghost function ObserveProduced(s: Index, consumed: set<OutputRef>, owners: set<AccountId>, utxo: Utxo): Index {
    match BindConfirmed(s, consumed, utxo)
    case Some(s1) => s1
    case None =>
      match BindEmptySuccessor(s, owners, utxo)
      case Some(s1) => s1
      case None => ObserveCreated(s, utxo)
  }

  ghost function ObserveAllProduced(
    s: Index, consumed: set<OutputRef>, owners: set<AccountId>, produced: seq<Utxo>): Index
    decreases |produced|
  {
    if produced == [] then s
    else
      var last := |produced| - 1;
      ObserveProduced(ObserveAllProduced(s, consumed, owners, produced[..last]), consumed, owners, produced[last])
  }

  ghost function ObserveTransaction(s: Index, consumed: set<OutputRef>, produced: seq<Utxo>): Index {
    ObserveAllProduced(ConsumeAll(s, consumed), consumed, Owners(s, consumed), produced)
  }

  // ----- account events -----

  datatype AccountEvent = Consumed(ref: OutputRef) | Produced(utxo: Utxo)

  datatype Tx = Tx(inputs: seq<OutputRef>, produced: seq<Utxo>)

  function ConsumedRefs(events: seq<AccountEvent>): seq<OutputRef> {
    if events == [] then []
    else
      var rest := ConsumedRefs(events[..|events| - 1]);
      match events[|events| - 1]
      case Consumed(ref) => rest + [ref]
      case Produced(_) => rest
  }

  function ProducedUtxos(events: seq<AccountEvent>): seq<Utxo> {
    if events == [] then []
    else
      var rest := ProducedUtxos(events[..|events| - 1]);
      match events[|events| - 1]
      case Consumed(_) => rest
      case Produced(utxo) => rest + [utxo]
  }

  function RefSet(refs: seq<OutputRef>): set<OutputRef> {
    set r | r in refs
  }

  ghost function ApplyEvents(s: Index, events: seq<AccountEvent>): Index {
    ObserveTransaction(s, RefSet(ConsumedRefs(events)), ProducedUtxos(events))
  }

  function RevertEvent(s: Index, event: AccountEvent): Index {
    match event
    case Produced(utxo) => ObserveRemoved(s, utxo.ref)
    case Consumed(ref) => ObserveRollbackConsumed(s, ref)
  }

  function RevertEvents(s: Index, events: seq<AccountEvent>): Index {
    if events == [] then s else RevertEvent(RevertEvents(s, events[..|events| - 1]), events[|events| - 1])
  }

  // The events of a transaction: every input first, then the account outputs.
  function ScanEvents(tx: Tx): seq<AccountEvent> {
    seq(|tx.inputs|, i requires 0 <= i < |tx.inputs| => Consumed(tx.inputs[i])) +
    seq(|tx.produced|, i requires 0 <= i < |tx.produced| => Produced(tx.produced[i]))
  }
}
