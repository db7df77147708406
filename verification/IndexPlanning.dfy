/**
 Planning starts from the on-chain store, can be repeated, and is confirmed by the planned successor.
 */
module IndexPlanning {
  import opened Bytes
  import opened Ledger
  import opened AccountStores
  import opened AccountIndexes
  import opened IndexInvariant
  import opened IndexStores

  // The store a plan starts from is the store of the output it spends: current there, or already
  // reserved and kept for rollback; its root is the root in that output's datum.
  ghost predicate OnChainStore(s: Index, id: AccountId, oldRef: OutputRef, base: Store) {
    || (id in s.byAccount && s.byAccount[id].utxo.ref == oldRef && s.byAccount[id].store == base
        && base.root == s.byAccount[id].utxo.output.storeRoot)
    || (id !in s.byAccount && id in s.pending && oldRef in s.rollback && s.rollback[oldRef].1.store == base
        && s.rollback[oldRef].1.utxo.ref == oldRef && base.root == s.rollback[oldRef].1.utxo.output.storeRoot)
  }

  lemma BaseIsOnChain(s: Index, id: AccountId, oldRef: OutputRef)
    requires Valid(s) && StoreForPlanning(s, id, oldRef).Some?
    ensures OnChainStore(s, id, oldRef, StoreForPlanning(s, id, oldRef).value)
  {
  }

  lemma BaseIsConsistent(cx: Cx, s: Index, id: AccountId, oldRef: OutputRef)
    requires Stores(cx, s) && StoreForPlanning(s, id, oldRef).Some?
    ensures Consistent(cx, StoreForPlanning(s, id, oldRef).value)
  {
    hide Consistent;
  }

  // The plans after a successful plan: the one just made is the only one for its account and output.
  ghost predicate OnlyPlan(s: Index, n: SnapshotId, id: AccountId, oldRef: OutputRef, store: Store) {
    && n in s.plans && s.plans[n] == PendingStore(id, oldRef, store)
    && forall k :: k in s.plans && s.plans[k].account == id && s.plans[k].oldRef == oldRef ==> k == n
  }

  lemma ReserveApart(s: Index, id: AccountId, oldRef: OutputRef, store: Store, base: Store)
    requires Apart(s) && BoundThere(s) && OwnKeys(s) && OnChainStore(s, id, oldRef, base)
    requires id in s.byAccount ==> oldRef in s.byRef
    ensures Apart(Reserve(s, id, oldRef, store))
  {
  }

  lemma ReserveFiled(s: Index, id: AccountId, oldRef: OutputRef, store: Store, base: Store)
    requires OwnKeys(s) && DatumRoots(s) && OnChainStore(s, id, oldRef, base)
    ensures OwnKeys(Reserve(s, id, oldRef, store)) && DatumRoots(Reserve(s, id, oldRef, store))
    ensures oldRef in Reserve(s, id, oldRef, store).rollback
    ensures Reserve(s, id, oldRef, store).rollback[oldRef].1.store == base
  {
  }

  lemma ReserveInverse(s: Index, id: AccountId, oldRef: OutputRef, store: Store, base: Store)
    requires Inverse(s.byAccount, s.byRef) && Apart(s) && OnChainStore(s, id, oldRef, base)
    ensures Inverse(Reserve(s, id, oldRef, store).byAccount, Reserve(s, id, oldRef, store).byRef)
    ensures BoundThere(s) && (id in s.byAccount ==> oldRef in s.byRef)
  {
    if id in s.byAccount {
      InverseUnbind(s.byAccount, s.byRef, oldRef);
      assert s.byRef[oldRef] == id;
    } else {
      assert s.byRef - {oldRef} == s.byRef && s.byAccount - {id} == s.byAccount;
    }
  }

  lemma ReservePlans(s: Index, id: AccountId, oldRef: OutputRef, store: Store)
    requires PlansKept(s.plans, s.nextId)
    ensures
      var s' := Reserve(DropPlans(s, id, oldRef), id, oldRef, store);
      PlansKept(s'.plans, s'.nextId) && OnlyPlan(s', s.nextId, id, oldRef, store)
  {
  }

  // Every successful plan, first or repeated: it starts from the on-chain store, keeps the invariant,
  // files its prediction under an id not in use as the only plan for that account and output, marks the
  // account pending, and leaves the base store in place for the next plan on the same output.
  lemma PlanIsReentrant(cx: Cx, s: Index, id: AccountId, oldRef: OutputRef, op: StoreOp)
    requires Valid(s) && Stores(cx, s) && StoreForPlanning(s, id, oldRef).Some?
    requires Usable(cx, StoreForPlanning(s, id, oldRef).value) && Plan(cx, s, id, oldRef, op).Planned?
    ensures
      var base := StoreForPlanning(s, id, oldRef).value;
      var Planned(s', predicted, n) := Plan(cx, s, id, oldRef, op);
      && OnChainStore(s, id, oldRef, base)
      && OpResult(cx, base, op) == Success(predicted)
      && Valid(s')
      && n !in s.plans && OnlyPlan(s', n, id, oldRef, predicted)
      && id in s'.pending && id !in s'.byAccount
      && StoreForPlanning(s', id, oldRef) == Some(base)
  {
    hide OpResult, Valid, Consistent, Stores;
    var base := StoreForPlanning(s, id, oldRef).value;
    var predicted := OpResult(cx, base, op).value;
    BaseIsOnChain(s, id, oldRef);
    var s1 := DropPlans(s, id, oldRef);
    FewerPlansKeep(s, s1);
    var s' := Reserve(s1, id, oldRef, predicted);
    PlansOfValid(s);
    ReservePlans(s, id, oldRef, predicted);
    ReserveKeeps(s1, id, oldRef, predicted, base);
  }

  lemma ReserveKeeps(s: Index, id: AccountId, oldRef: OutputRef, store: Store, base: Store)
    requires Valid(s) && OnChainStore(s, id, oldRef, base)
    requires PlansKept(Reserve(s, id, oldRef, store).plans, Reserve(s, id, oldRef, store).nextId)
    ensures Valid(Reserve(s, id, oldRef, store))
    ensures oldRef in Reserve(s, id, oldRef, store).rollback
    ensures Reserve(s, id, oldRef, store).rollback[oldRef].1.store == base
  {
    hide Inverse, PlansKept, Apart, OwnKeys, DatumRoots, BoundThere, OnChainStore, Reserve;
    ReserveInverse(s, id, oldRef, store, base);
    ReserveApart(s, id, oldRef, store, base);
    ReserveFiled(s, id, oldRef, store, base);
  }

  lemma PlansOfValid(s: Index)
    requires Valid(s)
    ensures PlansKept(s.plans, s.nextId)
    ensures forall n :: n in s.plans ==> n < s.nextId
  {
  }

  // ----- plans keep stores consistent -----

  lemma OpIsApply(cx: Cx, base: Store, op: StoreOp)
    requires Usable(cx, base) && OpResult(cx, base, op).Success?
    ensures OpResult(cx, base, op).value == Apply(cx, base, op)
  {
    hide Inserted, Updated, MarkedCompleted, Usable;
  }

  lemma OpKeeps(cx: Cx, base: Store, op: StoreOp, strings: set<Bytes>)
    requires Consistent(cx, base) && (op.InsertOp? ==> Collisionless(cx.h, Digests(base.leaves), op.key, strings))
    requires OpResult(cx, base, op).Success?
    ensures Consistent(cx, OpResult(cx, base, op).value)
    ensures OpResult(cx, base, op).value == Apply(cx, base, op)
  {
    OpIsApply(cx, base, op);
    hide Consistent, OpResult, Apply, Collisionless;
    StepKeeps(cx, base, op, strings);
  }

  lemma PlanAdvances(cx: Cx, s: Index, id: AccountId, oldRef: OutputRef, op: StoreOp, strings: set<Bytes>)
    requires Stores(cx, s) && StoreForPlanning(s, id, oldRef).Some?
    requires Usable(cx, StoreForPlanning(s, id, oldRef).value)
    requires op.InsertOp? ==>
      Collisionless(cx.h, Digests(StoreForPlanning(s, id, oldRef).value.leaves), op.key, strings)
    requires Plan(cx, s, id, oldRef, op).Planned?
    ensures Advances(cx, s, Plan(cx, s, id, oldRef, op).index)
  {
    hide OpResult, Consistent, Collisionless, StoreForPlanning, DropPlans;
    BaseIsConsistent(cx, s, id, oldRef);
    OpKeeps(cx, StoreForPlanning(s, id, oldRef).value, op, strings);
    DropAdvances(cx, s, id, oldRef);
    ReserveAdvances(cx, DropPlans(s, id, oldRef), id, oldRef, Plan(cx, s, id, oldRef, op).predicted);
  }

  lemma DropAdvances(cx: Cx, s: Index, id: AccountId, oldRef: OutputRef)
    requires Stores(cx, s)
    ensures Advances(cx, s, DropPlans(s, id, oldRef))
  {
    hide Consistent;
    FewerAdvances(cx, s, DropPlans(s, id, oldRef));
  }

  lemma ReserveAdvances(cx: Cx, s: Index, id: AccountId, oldRef: OutputRef, store: Store)
    requires Stores(cx, s) && Consistent(cx, store)
    ensures Advances(cx, s, Reserve(s, id, oldRef, store))
  {
    hide Consistent;
    assert PersistedIds(Reserve(s, id, oldRef, store)) == PersistedIds(s);
  }

  // ----- what a produced output binds -----

  // A prediction, an attached plan or a persisted store would bind `a` at this output.
  ghost predicate Foresees(s: Index, ref: OutputRef, a: AccountId) {
    || (ref in s.predicted && s.predicted[ref].0 == a)
    || (ref in s.planByRef && s.planByRef[ref] in s.plans && s.plans[s.planByRef[ref]].account == a)
    || (ref in s.persisted && s.persisted[ref].0 == a)
  }

  // `a` has a plan on one of the consumed outputs.
  ghost predicate Planner(s: Index, consumed: set<OutputRef>, a: AccountId) {
    exists n :: n in s.plans && s.plans[n].oldRef in consumed && s.plans[n].account == a
  }

  ghost predicate NoPlanOn(s: Index, consumed: set<OutputRef>) {
    forall n :: n in s.plans ==> s.plans[n].oldRef !in consumed
  }

  ghost predicate Within<K(!new), V(!new)>(m: map<K, V>, m': map<K, V>) {
    forall k :: k in m' ==> k in m && m'[k] == m[k]
  }

  // `s'` foresees nothing that `s` does not.
  ghost predicate Narrower(s: Index, s': Index) {
    && Within(s.plans, s'.plans) && Within(s.planByRef, s'.planByRef)
    && Within(s.predicted, s'.predicted) && Within(s.persisted, s'.persisted)
  }

  ghost predicate BoundAt(s: Index, s': Index, x: AccountId, utxo: Utxo) {
    x in s'.byAccount && s'.byAccount[x].utxo == utxo && s'.byAccount - {x} == s.byAccount - {x}
  }

  // Plans for another root are left alone.
  ghost predicate OtherPlansStay(s: Index, s': Index, root: Hash32) {
    forall n :: n in s.plans && s.plans[n].store.root != root ==> n in s'.plans
  }

  lemma ConfirmedBinds(s: Index, consumed: set<OutputRef>, utxo: Utxo) returns (x: AccountId)
    requires BindConfirmed(s, consumed, utxo).Some?
    ensures Narrower(s, BindConfirmed(s, consumed, utxo).value) && Planner(s, consumed, x)
    ensures BoundAt(s, BindConfirmed(s, consumed, utxo).value, x, utxo)
    ensures OtherPlansStay(s, BindConfirmed(s, consumed, utxo).value, utxo.output.storeRoot)
    ensures BindConfirmed(s, consumed, utxo).value.pending <= s.pending
    ensures BindConfirmed(s, consumed, utxo).value.rollback == s.rollback
  {
    var ids := Matching(s, consumed, utxo.output.storeRoot);
    var n :| n in ids;
    x := s.plans[n].account;
  }

  lemma SuccessorBinds(s: Index, owners: set<AccountId>, utxo: Utxo) returns (x: AccountId)
    requires BindEmptySuccessor(s, owners, utxo).Some?
    ensures Narrower(s, BindEmptySuccessor(s, owners, utxo).value) && x in owners && x in s.pending
    ensures BoundAt(s, BindEmptySuccessor(s, owners, utxo).value, x, utxo)
    ensures OtherPlansStay(s, BindEmptySuccessor(s, owners, utxo).value, utxo.output.storeRoot)
    ensures BindEmptySuccessor(s, owners, utxo).value.pending <= s.pending
    ensures BindEmptySuccessor(s, owners, utxo).value.rollback == s.rollback
  {
    x :| x in owners;
    assert forall y :: y in owners ==> y == x by { SingletonOwner(owners, x); }
  }

  lemma SingletonOwner(owners: set<AccountId>, x: AccountId)
    requires |owners| == 1 && x in owners
    ensures owners == {x}
  {
    assert |owners - {x}| == 0;
  }

  lemma PredictedBinds(s: Index, utxo: Utxo) returns (x: AccountId)
    requires BindPredicted(s, utxo).Some?
    ensures Narrower(s, BindPredicted(s, utxo).value) && Foresees(s, utxo.ref, x)
    ensures BoundAt(s, BindPredicted(s, utxo).value, x, utxo)
    ensures OtherPlansStay(s, BindPredicted(s, utxo).value, utxo.output.storeRoot)
    ensures BindPredicted(s, utxo).value.pending <= s.pending
    ensures BindPredicted(s, utxo).value.rollback == s.rollback
  {
    x := s.plans[s.planByRef[utxo.ref]].account;
  }

  // What the step did: nobody bound, or `x` at the output; nothing new foreseen or pending, plans for other
  // roots kept.
  ghost predicate Outcome(s: Index, s': Index, x: Option<AccountId>, utxo: Utxo) {
    && Narrower(s, s') && OtherPlansStay(s, s', utxo.output.storeRoot) && s'.pending <= s.pending
    && s'.rollback == s.rollback
    && (x == None ==> s'.byAccount == s.byAccount)
    && (x.Some? ==> BoundAt(s, s', x.value, utxo))
  }

  lemma ObservedOutcome(s: Index, id: AccountId, utxo: Utxo) returns (x: Option<AccountId>)
    ensures Outcome(s, BindObserved(s, id, utxo), x, utxo) && (x.Some? ==> x.value == id)
  {
    x := if FromObservedRoot(utxo.output.storeRoot).Some? then Some(id) else None;
  }

  // Dropping a prediction first changes nothing that matters here.
  lemma ForgetPrediction(s: Index, s1: Index, s': Index, x: Option<AccountId>, utxo: Utxo)
    requires s1 == s.(predicted := s.predicted - {utxo.ref}) && Outcome(s1, s', x, utxo)
    ensures Outcome(s, s', x, utxo)
    ensures forall a :: Foresees(s1, utxo.ref, a) ==> Foresees(s, utxo.ref, a)
  {
  }

  lemma CreatedBinds(s: Index, utxo: Utxo) returns (x: Option<AccountId>)
    ensures Outcome(s, ObserveCreated(s, utxo), x, utxo)
    ensures x.Some? ==> Foresees(s, utxo.ref, x.value)
  {
    hide BindPredicted, BindIndexed, BindObserved, Outcome;
    if utxo.ref in s.predicted {
      var s1 := s.(predicted := s.predicted - {utxo.ref});
      if BindPredicted(s1, utxo).Some? {
        var y := PredictedOutcome(s1, utxo);
        x := Some(y);
        ForgetPrediction(s, s1, BindPredicted(s1, utxo).value, x, utxo);
      } else {
        x := ObservedOutcome(s1, s.predicted[utxo.ref].0, utxo);
        ForgetPrediction(s, s1, BindObserved(s1, s.predicted[utxo.ref].0, utxo), x, utxo);
      }
    } else if utxo.ref in s.planByRef {
      if BindPredicted(s, utxo).Some? {
        var y := PredictedOutcome(s, utxo);
        x := Some(y);
      } else {
        x := None;
        UnboundOutcome(s, s, utxo);
      }
    } else if utxo.ref in s.persisted && s.persisted[utxo.ref].1.root == utxo.output.storeRoot {
      x := Some(s.persisted[utxo.ref].0);
      RestoredOutcome(s, utxo);
    } else {
      x := None;
      UnboundOutcome(s, s.(unbound := s.unbound[utxo.ref := utxo]), utxo);
    }
  }

  lemma PredictedOutcome(s: Index, utxo: Utxo) returns (x: AccountId)
    requires BindPredicted(s, utxo).Some?
    ensures Outcome(s, BindPredicted(s, utxo).value, Some(x), utxo) && Foresees(s, utxo.ref, x)
  {
    x := PredictedBinds(s, utxo);
  }

  lemma UnboundOutcome(s: Index, s': Index, utxo: Utxo)
    requires s' == s.(unbound := s'.unbound)
    ensures Outcome(s, s', None, utxo)
  {
  }

  lemma RestoredOutcome(s: Index, utxo: Utxo)
    requires utxo.ref in s.persisted
    ensures
      var (id, store) := s.persisted[utxo.ref];
      Outcome(s, BindIndexed(s.(persisted := s.persisted - {utxo.ref}), id, Indexed(utxo, store)), Some(id), utxo)
  {
  }

  // A produced output binds at most one account: a consumed one that is still pending, one with a plan on a
  // consumed output, or one foreseen at this output.
  lemma ProducedBinds(
    s: Index, consumed: set<OutputRef>, owners: set<AccountId>, utxo: Utxo) returns (x: Option<AccountId>)
    ensures Outcome(s, ObserveProduced(s, consumed, owners, utxo), x, utxo)
    ensures x.Some? ==>
      (x.value in owners && x.value in s.pending) || Planner(s, consumed, x.value) || Foresees(s, utxo.ref, x.value)
  {
    hide BindConfirmed, BindEmptySuccessor, ObserveCreated, BoundAt, Planner, Foresees, Narrower, OtherPlansStay;
    if BindConfirmed(s, consumed, utxo).Some? {
      var y := ConfirmedBinds(s, consumed, utxo);
      x := Some(y);
    } else if BindEmptySuccessor(s, owners, utxo).Some? {
      var y := SuccessorBinds(s, owners, utxo);
      x := Some(y);
    } else {
      x := CreatedBinds(s, utxo);
    }
  }

  lemma BoundStands(s: Index, s': Index, x: AccountId, utxo: Utxo)
    requires BoundAt(s, s', x, utxo)
    ensures x in s'.byAccount && s'.byAccount[x].utxo.ref == utxo.ref
    ensures forall a :: a != x ==> (a in s'.byAccount <==> a in s.byAccount)
    ensures forall a :: a != x && a in s.byAccount ==> s'.byAccount[a] == s.byAccount[a]
  {
    forall a | a != x
      ensures a in s'.byAccount <==> a in s.byAccount
      ensures a in s.byAccount ==> s'.byAccount[a] == s.byAccount[a]
    {
      assert a in s'.byAccount - {x} <==> a in s.byAccount - {x};
      if a in s.byAccount { assert (s'.byAccount - {x})[a] == (s.byAccount - {x})[a]; }
    }
  }

  lemma FewerPlanners(s: Index, s': Index, consumed: set<OutputRef>, a: AccountId)
    requires Narrower(s, s') && Planner(s', consumed, a)
    ensures Planner(s, consumed, a)
  {
    var n :| n in s'.plans && s'.plans[n].oldRef in consumed && s'.plans[n].account == a;
    assert n in s.plans;
  }

  lemma LessForeseen(s: Index, s': Index, ref: OutputRef, a: AccountId)
    requires Narrower(s, s') && Foresees(s', ref, a)
    ensures Foresees(s, ref, a)
  {
  }

  lemma NarrowerSelf(s: Index)
    ensures Narrower(s, s)
  {
  }

  lemma NarrowerTransitive(s: Index, s1: Index, s2: Index)
    requires Narrower(s, s1) && Narrower(s1, s2)
    ensures Narrower(s, s2)
  {
  }

  // ----- confirmation -----

  lemma MatchedProduced(s: Index, consumed: set<OutputRef>, owners: set<AccountId>, utxo: Utxo, n: SnapshotId)
    requires n in Matching(s, consumed, utxo.output.storeRoot)
    requires Unanimous(s, Matching(s, consumed, utxo.output.storeRoot))
    ensures n in s.plans && Fulfilled(s, ObserveProduced(s, consumed, owners, utxo), n, utxo)
    ensures forall k :: k in ObserveProduced(s, consumed, owners, utxo).plans ==>
      k in s.plans && k !in Matching(s, consumed, utxo.output.storeRoot)
  {
  }

  // All plans on consumed outputs are of one account and predict one store, `n` is one of them, output `i` is the
  // first with their root, and no later output is foreseen for the account.
  ghost predicate Awaited(s: Index, consumed: set<OutputRef>, produced: seq<Utxo>, n: SnapshotId, i: nat) {
    && n in s.plans && s.plans[n].oldRef in consumed
    && (forall k :: k in s.plans && s.plans[k].oldRef in consumed ==>
          s.plans[k].account == s.plans[n].account && s.plans[k].store == s.plans[n].store)
    && i < |produced| && produced[i].output.storeRoot == s.plans[n].store.root
    && (forall k :: 0 <= k < i ==> produced[k].output.storeRoot != s.plans[n].store.root)
    && (forall k :: i < k < |produced| ==> !Foresees(s, produced[k].ref, s.plans[n].account))
  }

  // The account of the plan is current at the output with the predicted store, and the plan is gone.
  ghost predicate Fulfilled(s: Index, s': Index, n: SnapshotId, utxo: Utxo)
    requires n in s.plans
  {
    var plan := s.plans[n];
    && plan.account in s'.byAccount && s'.byAccount[plan.account] == Indexed(utxo, plan.store)
    && plan.account !in s'.pending && n !in s'.plans
  }

  lemma StaysFulfilled(
    s: Index, s1: Index, consumed: set<OutputRef>, owners: set<AccountId>, produced: seq<Utxo>, n: SnapshotId, i: nat,
    j: nat)
    requires Awaited(s, consumed, produced, n, i) && i < j < |produced|
    requires Narrower(s, s1) && Fulfilled(s, s1, n, produced[i]) && NoPlanOn(s1, consumed)
    ensures Fulfilled(s, ObserveProduced(s1, consumed, owners, produced[j]), n, produced[i])
    ensures NoPlanOn(ObserveProduced(s1, consumed, owners, produced[j]), consumed)
    ensures Narrower(s, ObserveProduced(s1, consumed, owners, produced[j]))
  {
    hide ObserveProduced, BoundAt, Foresees;
    var x := ProducedBinds(s1, consumed, owners, produced[j]);
    var s2 := ObserveProduced(s1, consumed, owners, produced[j]);
    if x.Some? {
      BoundStands(s1, s2, x.value, produced[j]);
      if Foresees(s1, produced[j].ref, x.value) { LessForeseen(s, s1, produced[j].ref, x.value); }
    }
  }

  // Before output `i` the plan waits; after it the account is bound there with the predicted store.
  lemma {:induction false} PlanAwaits(
    s: Index, consumed: set<OutputRef>, owners: set<AccountId>, produced: seq<Utxo>, n: SnapshotId, i: nat, j: nat)
    requires Awaited(s, consumed, produced, n, i) && j <= |produced|
    ensures Narrower(s, ObserveAllProduced(s, consumed, owners, produced[..j]))
    ensures j <= i ==> n in ObserveAllProduced(s, consumed, owners, produced[..j]).plans
    ensures j > i ==>
      var s' := ObserveAllProduced(s, consumed, owners, produced[..j]);
      Fulfilled(s, s', n, produced[i]) && NoPlanOn(s', consumed)
    decreases j
  {
    hide ObserveProduced, Foresees, BoundAt;
    if j > 0 {
      PlanAwaits(s, consumed, owners, produced, n, i, j - 1);
      assert produced[..j][..j - 1] == produced[..j - 1];
      var s1 := ObserveAllProduced(s, consumed, owners, produced[..j - 1]);
      var utxo := produced[j - 1];
      if j - 1 > i {
        StaysFulfilled(s, s1, consumed, owners, produced, n, i, j - 1);
      } else {
        var x := ProducedBinds(s1, consumed, owners, utxo);
        NarrowerTransitive(s, s1, ObserveProduced(s1, consumed, owners, utxo));
        if j - 1 == i {
          assert n in Matching(s1, consumed, utxo.output.storeRoot);
          assert Unanimous(s1, Matching(s1, consumed, utxo.output.storeRoot));
          MatchedProduced(s1, consumed, owners, utxo, n);
          assert NoPlanOn(ObserveProduced(s1, consumed, owners, utxo), consumed);
        }
      }
    }
  }

  lemma ConsumedAwaits(s: Index, consumed: set<OutputRef>, produced: seq<Utxo>, n: SnapshotId, i: nat)
    requires Awaited(s, consumed, produced, n, i)
    ensures Awaited(ConsumeAll(s, consumed), consumed, produced, n, i)
  {
    hide Owners;
  }

  // A transaction that spends the planned output, and no output with another plan, binds the account to its first
  // output with the planned root, with exactly the predicted store, whatever the account's state is; no plan is left
  // on what was spent.
  lemma PlanIsConfirmed(s: Index, n: SnapshotId, consumed: set<OutputRef>, produced: seq<Utxo>, i: nat)
    requires Awaited(s, consumed, produced, n, i)
    ensures Fulfilled(s, ObserveTransaction(s, consumed, produced), n, produced[i])
    ensures NoPlanOn(ObserveTransaction(s, consumed, produced), consumed)
  {
    var s1 := ConsumeAll(s, consumed);
    ConsumedAwaits(s, consumed, produced, n, i);
    PlanAwaits(s1, consumed, Owners(s, consumed), produced, n, i, |produced|);
    assert produced[..|produced|] == produced;
  }
}
