/**
 Outputs that are announced by an attached plan or a prediction, or by nothing; and which bindings and plans are
 accepted afterwards.
 */
module IndexClaims {
  import opened Bytes
  import opened Ledger
  import opened AccountStores
  import opened AccountIndexes
  import opened Tries
  import opened IndexInvariant
  import opened IndexStores
  import opened IndexPlanning
  import opened IndexObserved

  // ----- an attached plan -----

  // The plan is live and attached to the output.
  ghost predicate Attached(s: Index, n: SnapshotId, plan: PendingStore, ref: OutputRef) {
    n in s.plans && s.plans[n] == plan && ref in s.planByRef && s.planByRef[ref] == n
  }

  lemma PredictedKeepsOther(s: Index, utxo: Utxo, n: SnapshotId, plan: PendingStore, ref: OutputRef)
    requires Attached(s, n, plan, ref) && utxo.ref != ref && !Foresees(s, utxo.ref, plan.account)
    ensures BindPredicted(s, utxo).Some? ==> Attached(BindPredicted(s, utxo).value, n, plan, ref)
  {
  }

  lemma CreatedKeepsAttached(s: Index, utxo: Utxo, n: SnapshotId, plan: PendingStore, ref: OutputRef)
    requires Attached(s, n, plan, ref) && utxo.ref != ref && !Foresees(s, utxo.ref, plan.account)
    ensures Attached(ObserveCreated(s, utxo), n, plan, ref)
  {
    if utxo.ref in s.predicted {
      var s1 := s.(predicted := s.predicted - {utxo.ref});
      PredictedKeepsOther(s1, utxo, n, plan, ref);
    } else {
      PredictedKeepsOther(s, utxo, n, plan, ref);
    }
    hide BindPredicted, Foresees;
  }

  lemma ProducedKeepsAttached(
    s: Index, consumed: set<OutputRef>, owners: set<AccountId>, utxo: Utxo, n: SnapshotId, plan: PendingStore,
    ref: OutputRef)
    requires NoPlanOn(s, consumed)
    requires Attached(s, n, plan, ref) && utxo.ref != ref && !Foresees(s, utxo.ref, plan.account)
    ensures Attached(ObserveProduced(s, consumed, owners, utxo), n, plan, ref)
  {
    CreatedKeepsAttached(s, utxo, n, plan, ref);
    hide ObserveCreated, Foresees;
    assert Matching(s, consumed, utxo.output.storeRoot) == {};
  }

  // The outputs before `i` leave the attached plan alone.
  lemma {:induction false} UptoAttached(
    s: Index, consumed: set<OutputRef>, owners: set<AccountId>, produced: seq<Utxo>, i: nat, j: nat, n: SnapshotId,
    plan: PendingStore, ref: OutputRef)
    requires j <= i <= |produced| && NoPlanOn(s, consumed) && Attached(s, n, plan, ref)
    requires forall k :: 0 <= k < i ==> produced[k].ref != ref && !Foresees(s, produced[k].ref, plan.account)
    ensures Attached(Upto(s, consumed, owners, produced, j), n, plan, ref)
    decreases j
  {
    hide Upto, ObserveProduced, Foresees, Narrower, Attached;
    if j == 0 {
      UptoNone(s, consumed, owners, produced);
    } else {
      UptoAttached(s, consumed, owners, produced, i, j - 1, n, plan, ref);
      var sj := Upto(s, consumed, owners, produced, j - 1);
      UptoNext(s, consumed, owners, produced, j - 1);
      FromStart(s, consumed, owners, produced, j - 1);
      NoPlanner(s, sj, consumed, plan.account);
      if Foresees(sj, produced[j - 1].ref, plan.account) { LessForeseen(s, sj, produced[j - 1].ref, plan.account); }
      ProducedKeepsAttached(sj, consumed, owners, produced[j - 1], n, plan, ref);
    }
  }

  lemma AttachedBinds(s: Index, utxo: Utxo, n: SnapshotId, plan: PendingStore)
    requires Attached(s, n, plan, utxo.ref) && utxo.output.storeRoot == plan.store.root
    ensures BindPredicted(s, utxo).Some?
    ensures
      var s' := BindPredicted(s, utxo).value;
      Settled(s', plan.account, Indexed(utxo, plan.store)) && n !in s'.plans
  {
  }

  lemma AttachedHere(s: Index, utxo: Utxo, n: SnapshotId, plan: PendingStore)
    requires Attached(s, n, plan, utxo.ref) && utxo.output.storeRoot == plan.store.root
    ensures
      var s' := ObserveCreated(s, utxo);
      Settled(s', plan.account, Indexed(utxo, plan.store)) && n !in s'.plans
  {
    hide BindPredicted, Settled;
    AttachedBinds(s, utxo, n, plan);
    AttachedBinds(s.(predicted := s.predicted - {utxo.ref}), utxo, n, plan);
  }

  lemma AttachedAtOutput(
    s: Index, n: SnapshotId, plan: PendingStore, consumed: set<OutputRef>, produced: seq<Utxo>, i: nat)
    requires Alone(s, consumed, produced, i) && Attached(s, n, plan, produced[i].ref)
    requires forall k :: 0 <= k < i ==> !Foresees(s, produced[k].ref, plan.account)
    requires produced[i].output.storeRoot == plan.store.root
    ensures
      var s' := Upto(ConsumeAll(s, consumed), consumed, Owners(s, consumed), produced, i + 1);
      Settled(s', plan.account, Indexed(produced[i], plan.store)) && n !in s'.plans
  {
    var s1, owners := ConsumeAll(s, consumed), Owners(s, consumed);
    assert Attached(s1, n, plan, produced[i].ref);
    ConsumedNarrower(s, consumed);
    hide Upto, ObserveProduced, ObserveCreated, Foresees, ConsumeAll, Owners, Attached, SameAt, Settled;
    forall k | 0 <= k < i
      ensures !Foresees(s1, produced[k].ref, plan.account)
    {
      if Foresees(s1, produced[k].ref, plan.account) { LessForeseen(s, s1, produced[k].ref, plan.account); }
    }
    hide Narrower;
    var si := AloneFinds(s, consumed, produced, i);
    UptoAttached(s1, consumed, owners, produced, i, i, n, plan, produced[i].ref);
    AttachedHere(si, produced[i], n, plan);
  }

  lemma AttachedConfirmed(
    s: Index, n: SnapshotId, plan: PendingStore, consumed: set<OutputRef>, produced: seq<Utxo>, i: nat)
    requires Alone(s, consumed, produced, i) && Attached(s, n, plan, produced[i].ref)
    requires forall k :: 0 <= k < |produced| && k != i ==> !Foresees(s, produced[k].ref, plan.account)
    requires produced[i].output.storeRoot == plan.store.root
    ensures
      var s' := ObserveTransaction(s, consumed, produced);
      Settled(s', plan.account, Indexed(produced[i], plan.store)) && n !in s'.plans
  {
    var s1, owners := ConsumeAll(s, consumed), Owners(s, consumed);
    ConsumedNarrower(s, consumed);
    hide Upto, ObserveProduced, ObserveTransaction, Foresees, ConsumeAll, Owners, Attached, Settled;
    forall k | i < k < |produced|
      ensures !Foresees(s1, produced[k].ref, plan.account)
    {
      if Foresees(s1, produced[k].ref, plan.account) { LessForeseen(s, s1, produced[k].ref, plan.account); }
    }
    AttachedAtOutput(s, n, plan, consumed, produced, i);
    UptoSettled(s1, consumed, owners, produced, i + 1, |produced|, plan.account, Indexed(produced[i], plan.store));
    UptoNarrower(s1, consumed, owners, produced, i + 1, |produced|);
    UptoAll(s, consumed, produced);
  }

  // A plan that is attached to an output is confirmed by it, even when the planned output is not among the spent ones.
  lemma AttachedIsConfirmed(
    s: Index, n: SnapshotId, ref: OutputRef, consumed: set<OutputRef>, produced: seq<Utxo>, i: nat)
    requires n in s.plans && Attach(s, n, ref).Success? && Alone(s, consumed, produced, i) && produced[i].ref == ref
    requires produced[i].output.storeRoot == s.plans[n].store.root
    requires forall k :: 0 <= k < |produced| && k != i ==>
      !Foresees(Attach(s, n, ref).value, produced[k].ref, s.plans[n].account)
    ensures Fulfilled(s, ObserveTransaction(Attach(s, n, ref).value, consumed, produced), n, produced[i])
  {
    hide ObserveTransaction, Foresees;
    var s0 := Attach(s, n, ref).value;
    assert Alone(s0, consumed, produced, i) && Attached(s0, n, s.plans[n], ref);
    AttachedConfirmed(s0, n, s.plans[n], consumed, produced, i);
  }

  // ----- a prediction -----

  // A predicted output without a plan for its root binds the predicted account if its root is empty, and nobody
  // otherwise.
  lemma PredictedHere(s: Index, utxo: Utxo)
    requires utxo.ref in s.predicted && BindPredicted(s, utxo) == None
    ensures
      var a, s' := s.predicted[utxo.ref].0, ObserveCreated(s, utxo);
      && utxo.ref !in s'.predicted
      && if utxo.output.storeRoot == EMPTY_STORE.root then Settled(s', a, Indexed(utxo, EMPTY_STORE))
         else s'.byAccount == s.byAccount && utxo.ref in s'.unbound && s'.unbound[utxo.ref] == utxo
  {
  }

  // ----- an output nobody claims -----

  ghost predicate Unclaimed(s: Index, consumed: set<OutputRef>, produced: seq<Utxo>, i: nat) {
    && Alone(s, consumed, produced, i)
    && produced[i].ref !in s.predicted && produced[i].ref !in s.planByRef && produced[i].ref !in s.persisted
  }

  lemma UnclaimedHere(s: Index, utxo: Utxo)
    requires utxo.ref !in s.predicted && utxo.ref !in s.planByRef && utxo.ref !in s.persisted
    ensures ObserveCreated(s, utxo) == s.(unbound := s.unbound[utxo.ref := utxo])
  {
  }

  // ----- which bindings are accepted -----

  lemma WaitsKnown(s: Index, id: AccountId)
    ensures Waits(s, id) <==> id in PersistedIds(s)
  {
  }

  // A binding succeeds exactly for an account nobody knows at an observed, unbound output with the empty root; the
  // account is then current there with the empty store.
  lemma BindOnceExactlyWhen(s: Index, id: AccountId, ref: OutputRef)
    requires Valid(s)
    ensures BindOnce(s, id, ref).Success? <==>
      && id !in Known(s) && ref in s.unbound && ref !in s.persisted
      && s.unbound[ref].output.storeRoot == EMPTY_STORE.root
    ensures BindOnce(s, id, ref).Success? ==>
      BindOnce(s, id, ref).value.byAccount == s.byAccount[id := Indexed(s.unbound[ref], EMPTY_STORE)]
    ensures id !in Known(s) && ref in s.unbound && ref !in s.persisted && BindOnce(s, id, ref).Failure? ==>
      BindOnce(s, id, ref) == Failure(NonEmptyUnplannedRoot)
  {
    WaitsKnown(s, id);
    hide Inverse, OwnKeys, PlansKept, DatumRoots, Waits;
  }

  // Once bound, neither the account nor the output is bound again.
  lemma BoundOnce(s: Index, id: AccountId, ref: OutputRef, other: AccountId, elsewhere: OutputRef)
    requires BindOnce(s, id, ref).Success? && ref in s.unbound && s.unbound[ref].ref == ref
    ensures BindOnce(BindOnce(s, id, ref).value, id, elsewhere) == Failure(AlreadyBound)
    ensures other !in Known(BindOnce(s, id, ref).value) ==>
      BindOnce(BindOnce(s, id, ref).value, other, ref) == Failure(OutputAlreadyBound)
  {
    var s' := BindOnce(s, id, ref).value;
    assert id in s'.byAccount && ref in s'.byRef;
    hide BindIndexed;
    WaitsKnown(s', other);
    hide Waits;
  }

  // An output nobody claims can be bound by an account nobody knows if and only if its root is empty.
  lemma UnclaimedIsBindable(
    s: Index, consumed: set<OutputRef>, produced: seq<Utxo>, i: nat, id: AccountId)
    requires Valid(s) && AllFresh(s, produced) && Unclaimed(s, consumed, produced, i)
    requires id !in Known(ObserveTransaction(s, consumed, produced))
    ensures
      var s' := ObserveTransaction(s, consumed, produced);
      var r := BindOnce(s', id, produced[i].ref);
      if produced[i].output.storeRoot == EMPTY_STORE.root then
        r.Success? && r.value.byAccount == s'.byAccount[id := Indexed(produced[i], EMPTY_STORE)]
      else r == Failure(NonEmptyUnplannedRoot)
  {
    var si := AloneFinds(s, consumed, produced, i);
    UnclaimedHere(si, produced[i]);
    AloneStays(s, consumed, produced, i);
    TransactionKeeps(s, consumed, produced);
    var s' := ObserveTransaction(s, consumed, produced);
    hide Upto, ObserveCreated, ObserveTransaction, Owners;
    BindOnceExactlyWhen(s', id, produced[i].ref);
  }

  // ----- spent and removed outputs -----

  // No account can be bound to an output that has been spent, unless it was produced as well.
  lemma SpentNotBindable(
    s: Index, consumed: set<OutputRef>, produced: seq<Utxo>, r: OutputRef, id: AccountId)
    requires r in consumed && forall k :: 0 <= k < |produced| ==> produced[k].ref != r
    ensures BindOnce(ObserveTransaction(s, consumed, produced), id, r).Failure?
    ensures
      var s' := ObserveTransaction(s, consumed, produced);
      id !in Known(s') && r !in s'.byRef && r !in s'.persisted ==> BindOnce(s', id, r) == Failure(OutputNotObserved)
  {
    var s1, owners := ConsumeAll(s, consumed), Owners(s, consumed);
    assert r !in s1.unbound;
    hide Upto, ObserveTransaction, ConsumeAll, Owners;
    UptoElsewhere(s1, consumed, owners, produced, 0, |produced|, r);
    UptoNone(s1, consumed, owners, produced);
    UptoAll(s, consumed, produced);
    WaitsKnown(ObserveTransaction(s, consumed, produced), id);
    hide Waits, SameAt;
  }

  // Nor to one that a rollback has removed: nothing is left there, and it counts as not observed.
  lemma RemovedNotBindable(s: Index, ref: OutputRef, id: AccountId)
    ensures
      var s' := ObserveRemoved(s, ref);
      && ref !in s'.byRef && ref !in s'.unbound && ref !in s'.predicted
      && BindOnce(s', id, ref) ==
           Failure(if id in Known(s') then AlreadyBound
                   else if ref in s.persisted then OutputAlreadyBound else OutputNotObserved)
  {
    WaitsKnown(ObserveRemoved(s, ref), id);
    hide Waits;
  }

  lemma BindKeepsPlans(s: Index, ref: OutputRef)
    requires ref in s.rollback
    ensures
      var s1 := BindIndexed(s.(rollback := s.rollback - {ref}), s.rollback[ref].0, s.rollback[ref].1);
      s1.plans == s.plans && s1.planByRef == s.planByRef
  {
  }

  // When a spending is rolled back its plans are gone, so spending the output again confirms none of them; the other
  // plans and what they are attached to stay.
  lemma RolledBackPlans(s: Index, ref: OutputRef, root: Hash32)
    ensures
      var s' := ObserveRollbackConsumed(s, ref);
      && Matching(s', {ref}, root) == {}
      && (forall n :: n in s.plans && s.plans[n].oldRef != ref ==> n in s'.plans && s'.plans[n] == s.plans[n])
      && (forall r :: r in s.planByRef && s.planByRef[r] in s'.plans ==>
            r in s'.planByRef && s'.planByRef[r] == s.planByRef[r])
      && (forall r :: r in s'.planByRef ==> s'.planByRef[r] in s'.plans)
  {
    hide BindIndexed;
    var s1 :=
      if ref !in s.rollback then s
      else BindIndexed(s.(rollback := s.rollback - {ref}), s.rollback[ref].0, s.rollback[ref].1);
    assert s1.plans == s.plans && s1.planByRef == s.planByRef by { if ref in s.rollback { BindKeepsPlans(s, ref); } }
  }

  // Plans that disagree about the account or the store of a spent output bind nobody.
  lemma DissentBindsNobody(s: Index, consumed: set<OutputRef>, utxo: Utxo, n: SnapshotId, k: SnapshotId)
    requires n in Matching(s, consumed, utxo.output.storeRoot) && k in Matching(s, consumed, utxo.output.storeRoot)
    requires s.plans[n].account != s.plans[k].account || s.plans[n].store != s.plans[k].store
    requires NoSuccessor(Owners(s, consumed), utxo)
    requires utxo.ref !in s.predicted && utxo.ref !in s.planByRef && utxo.ref !in s.persisted
    ensures
      var s' := ObserveTransaction(s, consumed, [utxo]);
      && s'.byAccount == s.byAccount - Owners(s, consumed) && s'.plans == s.plans
      && utxo.ref in s'.unbound && s'.unbound[utxo.ref] == utxo
  {
    var s1 := ConsumeAll(s, consumed);
    assert n in Matching(s1, consumed, utxo.output.storeRoot) && k in Matching(s1, consumed, utxo.output.storeRoot);
    assert !Unanimous(s1, Matching(s1, consumed, utxo.output.storeRoot));
    UnclaimedHere(s1, utxo);
    hide ObserveCreated, BindIndexed, Owners, Unanimous, Matching;
    assert [utxo][..0] == [];
    assert ObserveAllProduced(s1, consumed, Owners(s, consumed), []) == s1;
  }

  // ----- which plans are accepted -----

  // A current account can plan on its output and on no other.
  lemma CurrentBase(s: Index, id: AccountId, oldRef: OutputRef)
    requires id in s.byAccount
    ensures StoreForPlanning(s, id, oldRef) ==
      if oldRef == s.byAccount[id].utxo.ref then Some(s.byAccount[id].store) else None
  {
  }

  // A pending account can plan again on an output exactly while it has a plan there and the output is kept; an
  // account that is neither cannot plan.
  lemma PendingBase(s: Index, id: AccountId, oldRef: OutputRef)
    requires id !in s.byAccount
    ensures StoreForPlanning(s, id, oldRef).Some? <==>
      && id in s.pending && oldRef in s.rollback
      && exists n :: n in s.plans && s.plans[n].account == id && s.plans[n].oldRef == oldRef
  {
  }

  // What the store operation needs of the store it starts from.
  ghost predicate OpFits(cx: Cx, base: Store, op: StoreOp)
    requires Usable(cx, base)
  {
    match op
    case InsertOp(key, _, _) => key !in base.leaves && Insertable(cx.h, Digests(base.leaves), key)
    case UpdateOp(key, digest, _) => PendingWith(base, key, digest)
    case CompleteOp(key, digest) => PendingWith(base, key, digest)
  }

  lemma OpExactlyWhen(cx: Cx, base: Store, op: StoreOp, strings: set<Bytes>)
    requires Consistent(cx, base) && (op.InsertOp? ==> Collisionless(cx.h, Digests(base.leaves), op.key, strings))
    ensures OpResult(cx, base, op).Success? <==> OpFits(cx, base, op)
  {
    hide Inserted, Updated, MarkedCompleted, Insertable, Consistent, Collisionless, Digests;
    match op
    case InsertOp(key, id, intent) => var _, _ := InsertKeepsRoot(cx, base, key, id, intent, strings);
    case UpdateOp(key, d, intent) => var _, _ := UpdateKeepsRoot(cx, base, key, d, intent);
    case CompleteOp(key, d) => var _, _ := CompleteKeepsRoot(cx, base, key, d);
  }

  // A plan is made if and only if there is a store to start from and the operation fits it; without one the account
  // counts as missing.
  lemma PlanExactlyWhen(cx: Cx, s: Index, id: AccountId, oldRef: OutputRef, op: StoreOp, strings: set<Bytes>)
    requires Stores(cx, s)
    requires op.InsertOp? && StoreForPlanning(s, id, oldRef).Some? ==>
      Collisionless(cx.h, Digests(StoreForPlanning(s, id, oldRef).value.leaves), op.key, strings)
    ensures StoreForPlanning(s, id, oldRef).Some? ==> Usable(cx, StoreForPlanning(s, id, oldRef).value)
    ensures Plan(cx, s, id, oldRef, op).Planned? <==>
      StoreForPlanning(s, id, oldRef).Some? && OpFits(cx, StoreForPlanning(s, id, oldRef).value, op)
    ensures StoreForPlanning(s, id, oldRef) == None ==> Plan(cx, s, id, oldRef, op) == Refused(MissingAccount)
  {
    hide StoreForPlanning, Collisionless, Stores, Reserve, DropPlans, OpFits;
    if StoreForPlanning(s, id, oldRef).Some? {
      BaseIsConsistent(cx, s, id, oldRef);
      OpExactlyWhen(cx, StoreForPlanning(s, id, oldRef).value, op, strings);
    }
    hide OpResult, Insertable, Digests;
  }
}
