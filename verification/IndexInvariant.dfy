/**
 What every production step of the index keeps.
 */
module IndexInvariant {
  import opened Ledger
  import opened Mpf
  import opened AccountStores
  import opened AccountIndexes

  type Accounts = map<AccountId, Indexed>
  type Refs = map<OutputRef, AccountId>

  // The two maps are inverse to each other.
  ghost predicate Inverse(accounts: Accounts, refs: Refs) {
    && (forall id :: id in accounts ==> accounts[id].utxo.ref in refs && refs[accounts[id].utxo.ref] == id)
    && (forall r :: r in refs ==> refs[r] in accounts && accounts[refs[r]].utxo.ref == r)
  }

  // Current and pending accounts are apart; bound, spent and unbound outputs are apart.
  ghost predicate Apart(s: Index) {
    && s.byAccount.Keys !! s.pending
    && s.rollback.Keys !! s.byRef.Keys
    && s.unbound.Keys !! s.byRef.Keys
    && s.unbound.Keys !! s.rollback.Keys
  }

  // A spent or unbound output is filed under its own reference.
  ghost predicate OwnKeys(s: Index) {
    && (forall r :: r in s.rollback ==> s.rollback[r].1.utxo.ref == r)
    && (forall r :: r in s.unbound ==> s.unbound[r].ref == r)
  }

  // Snapshot ids are below the next one, and an account has one plan per output.
  ghost predicate PlansKept(plans: map<SnapshotId, PendingStore>, next: SnapshotId) {
    && (forall n :: n in plans ==> n < next)
    && (forall n, k :: n in plans && k in plans && SamePlan(plans[n], plans[k]) ==> n == k)
  }

  predicate SamePlan(p: PendingStore, q: PendingStore) {
    p.account == q.account && p.oldRef == q.oldRef
  }

  ghost predicate DatumOf(ix: Indexed) {
    ix.store.root == ix.utxo.output.storeRoot
  }

  // Every current account, and every account kept for rollback, has the store root of its output's datum.
  ghost predicate DatumRoots(s: Index) {
    && (forall id :: id in s.byAccount ==> DatumOf(s.byAccount[id]))
    && (forall r :: r in s.rollback ==> DatumOf(s.rollback[r].1))
  }

  ghost predicate Valid(s: Index) {
    Inverse(s.byAccount, s.byRef) && Apart(s) && OwnKeys(s) && PlansKept(s.plans, s.nextId) && DatumRoots(s)
  }

  // An output the index has not bound or spent before.
  ghost predicate Fresh(s: Index, ref: OutputRef) {
    ref !in s.byRef && ref !in s.rollback
  }

  ghost predicate AllFresh(s: Index, produced: seq<Utxo>) {
    && (forall i :: 0 <= i < |produced| ==> Fresh(s, produced[i].ref))
    && (forall i, j :: 0 <= i < j < |produced| ==> produced[i].ref != produced[j].ref)
  }

  // ----- the inverse maps -----

  lemma InverseBind(accounts: Accounts, refs: Refs, id: AccountId, ix: Indexed)
    requires Inverse(accounts, refs) && ix.utxo.ref !in refs
    ensures
      var without := if id in accounts then refs - {accounts[id].utxo.ref} else refs;
      Inverse(accounts[id := ix], without[ix.utxo.ref := id])
  {
  }

  lemma InverseUnbind(accounts: Accounts, refs: Refs, r: OutputRef)
    requires Inverse(accounts, refs) && r in refs
    ensures Inverse(accounts - {refs[r]}, refs - {r})
  {
  }

  lemma InverseUnbindAll(s: Index, consumed: set<OutputRef>)
    requires Inverse(s.byAccount, s.byRef)
    ensures Inverse(s.byAccount - Owners(s, consumed), s.byRef - consumed)
  {
  }

  lemma PlansSubset(plans: map<SnapshotId, PendingStore>, plans': map<SnapshotId, PendingStore>, next: SnapshotId)
    requires PlansKept(plans, next) && forall n :: n in plans' ==> n in plans && plans'[n] == plans[n]
    ensures PlansKept(plans', next)
  {
  }

  // ----- one step at a time -----

  lemma BindKeeps(s: Index, id: AccountId, ix: Indexed)
    requires Valid(s) && Fresh(s, ix.utxo.ref) && DatumOf(ix)
    ensures Valid(BindIndexed(s, id, ix))
    ensures BindIndexed(s, id, ix).byRef.Keys <= s.byRef.Keys + {ix.utxo.ref}
    ensures BindIndexed(s, id, ix).rollback == s.rollback
  {
    InverseBind(s.byAccount, s.byRef, id, ix);
    hide Inverse, PlansKept;
  }

  // Every bound output belongs to the account that is current there.
  ghost predicate BoundThere(s: Index) {
    forall r :: r in s.byRef ==> s.byRef[r] in s.byAccount && s.byAccount[s.byRef[r]].utxo.ref == r
  }

  lemma ConsumedApart(s: Index, ref: OutputRef)
    requires Apart(s) && BoundThere(s)
    ensures Apart(ObserveConsumed(s, ref))
  {
  }

  lemma ConsumedFiled(s: Index, ref: OutputRef)
    requires OwnKeys(s) && DatumRoots(s) && BoundThere(s)
    ensures OwnKeys(ObserveConsumed(s, ref)) && DatumRoots(ObserveConsumed(s, ref))
  {
  }

  lemma ConsumedKeeps(s: Index, ref: OutputRef)
    requires Valid(s)
    ensures Valid(ObserveConsumed(s, ref))
  {
    assert BoundThere(s);
    if ref in s.byRef { InverseUnbind(s.byAccount, s.byRef, ref); }
    hide Inverse, PlansKept, Apart, OwnKeys, DatumRoots, BoundThere;
    ConsumedApart(s, ref);
    ConsumedFiled(s, ref);
  }

  lemma ConsumeApart(s: Index, refs: set<OutputRef>)
    requires Apart(s) && BoundThere(s)
    ensures Apart(ConsumeAll(s, refs))
    ensures forall r :: Fresh(s, r) ==> Fresh(ConsumeAll(s, refs), r)
  {
    hide Owners;
  }

  lemma ConsumeFiled(s: Index, refs: set<OutputRef>)
    requires OwnKeys(s) && DatumRoots(s) && BoundThere(s)
    ensures OwnKeys(ConsumeAll(s, refs)) && DatumRoots(ConsumeAll(s, refs))
  {
    hide Owners;
    var s' := ConsumeAll(s, refs);
    forall r | r in s'.rollback
      ensures s'.rollback[r].1.utxo.ref == r && DatumOf(s'.rollback[r].1)
    {
      if r in s.rollback && s'.rollback[r] == s.rollback[r] {
      } else {
        assert r in s.byRef && s'.rollback[r] == (s.byRef[r], s.byAccount[s.byRef[r]]);
      }
    }
    hide DatumOf;
  }

  lemma ConsumeKeeps(s: Index, refs: set<OutputRef>)
    requires Valid(s)
    ensures Valid(ConsumeAll(s, refs))
    ensures forall r :: Fresh(s, r) ==> Fresh(ConsumeAll(s, refs), r)
  {
    assert BoundThere(s);
    InverseUnbindAll(s, refs);
    hide Inverse, PlansKept, Owners, Apart, OwnKeys, DatumRoots, BoundThere, Fresh;
    ConsumeApart(s, refs);
    ConsumeFiled(s, refs);
  }

  lemma RemovedKeeps(s: Index, ref: OutputRef)
    requires Valid(s)
    ensures Valid(ObserveRemoved(s, ref))
  {
    if ref in s.byRef { InverseUnbind(s.byAccount, s.byRef, ref); }
    hide Inverse, PlansKept, Apart, OwnKeys, DatumRoots;
    RemovedApart(s, ref);
    RemovedFiled(s, ref);
  }

  lemma RemovedApart(s: Index, ref: OutputRef)
    requires Apart(s)
    ensures Apart(ObserveRemoved(s, ref))
  {
  }

  lemma RemovedFiled(s: Index, ref: OutputRef)
    requires OwnKeys(s) && DatumRoots(s)
    ensures OwnKeys(ObserveRemoved(s, ref)) && DatumRoots(ObserveRemoved(s, ref))
  {
  }

  lemma ForgetKeeps(s: Index, ref: OutputRef)
    requires Valid(s)
    ensures Valid(s.(rollback := s.rollback - {ref}))
    ensures ref in s.rollback ==> s.rollback[ref].1.utxo.ref == ref && DatumOf(s.rollback[ref].1) && ref !in s.byRef
  {
    hide Inverse, PlansKept;
  }

  // Apart, filing and datum roots do not look at plans.
  lemma SamePlaces(s: Index, s': Index)
    requires Apart(s) && OwnKeys(s) && DatumRoots(s)
    requires s'.byAccount == s.byAccount && s'.byRef == s.byRef && s'.pending == s.pending
    requires s'.rollback == s.rollback && s'.unbound == s.unbound
    ensures Apart(s') && OwnKeys(s') && DatumRoots(s')
  {
  }

  lemma RollbackKeeps(s: Index, ref: OutputRef)
    requires Valid(s)
    ensures Valid(ObserveRollbackConsumed(s, ref))
  {
    var s0 := s.(rollback := s.rollback - {ref});
    var s1 := if ref in s.rollback then BindIndexed(s0, s.rollback[ref].0, s.rollback[ref].1) else s;
    ForgetKeeps(s, ref);
    if ref in s.rollback { BindKeeps(s0, s.rollback[ref].0, s.rollback[ref].1); }
    hide Inverse, PlansKept, Apart, OwnKeys, DatumRoots, BindIndexed;
    PlansSubset(s1.plans, ObserveRollbackConsumed(s, ref).plans, s1.nextId);
    SamePlaces(s1, ObserveRollbackConsumed(s, ref));
  }

  lemma FewerPlansKeep(s: Index, s': Index)
    requires Valid(s) && s' == s.(plans := s'.plans, planByRef := s'.planByRef)
    requires forall n :: n in s'.plans ==> n in s.plans && s'.plans[n] == s.plans[n]
    ensures Valid(s')
  {
    hide Inverse, PlansKept, Apart, OwnKeys, DatumRoots;
    PlansSubset(s.plans, s'.plans, s.nextId);
    SamePlaces(s, s');
  }

  // What an output observed by a transaction does to bound and spent outputs.
  ghost predicate Binds(s: Index, s': Index, ref: OutputRef) {
    Valid(s') && s'.byRef.Keys <= s.byRef.Keys + {ref} && s'.rollback == s.rollback
  }

  lemma ConfirmedKeeps(s: Index, consumed: set<OutputRef>, utxo: Utxo)
    requires Valid(s) && Fresh(s, utxo.ref) && BindConfirmed(s, consumed, utxo).Some?
    ensures Binds(s, BindConfirmed(s, consumed, utxo).value, utxo.ref)
  {
    hide Valid, BindIndexed;
    var ids := Matching(s, consumed, utxo.output.storeRoot);
    var s1 := WithoutPlans(s, ids);
    FewerPlansKeep(s, s1);
    forall n | n in ids
      ensures Binds(s, BindIndexed(s1, s.plans[n].account, Indexed(utxo, s.plans[n].store)), utxo.ref)
    {
      BindKeeps(s1, s.plans[n].account, Indexed(utxo, s.plans[n].store));
    }
  }

  lemma EmptySuccessorKeeps(s: Index, owners: set<AccountId>, utxo: Utxo)
    requires Valid(s) && Fresh(s, utxo.ref) && BindEmptySuccessor(s, owners, utxo).Some?
    ensures Binds(s, BindEmptySuccessor(s, owners, utxo).value, utxo.ref)
  {
    hide Valid, BindIndexed;
    forall id
      ensures Binds(s, BindIndexed(s, id, Indexed(utxo, EMPTY_STORE)), utxo.ref) || utxo.output.storeRoot != EMPTY_ROOT
    {
      if utxo.output.storeRoot == EMPTY_ROOT { BindKeeps(s, id, Indexed(utxo, EMPTY_STORE)); }
    }
  }

  lemma UnboundKeeps(s: Index, utxo: Utxo)
    requires Valid(s) && Fresh(s, utxo.ref)
    ensures Binds(s, s.(unbound := s.unbound[utxo.ref := utxo]), utxo.ref)
  {
    hide Inverse, PlansKept;
  }

  lemma PredictedKeeps(s: Index, utxo: Utxo)
    requires Valid(s) && Fresh(s, utxo.ref) && BindPredicted(s, utxo).Some?
    ensures Binds(s, BindPredicted(s, utxo).value, utxo.ref)
  {
    hide Valid, BindIndexed;
    var n := s.planByRef[utxo.ref];
    var s1 := s.(plans := s.plans - {n}, planByRef := s.planByRef - {utxo.ref});
    FewerPlansKeep(s, s1);
    BindKeeps(s1, s.plans[n].account, Indexed(utxo, s.plans[n].store));
  }

  lemma BindObservedKeeps(s: Index, id: AccountId, utxo: Utxo)
    requires Valid(s) && Fresh(s, utxo.ref)
    ensures Binds(s, BindObserved(s, id, utxo), utxo.ref)
  {
    hide Valid, BindIndexed;
    if utxo.output.storeRoot == EMPTY_ROOT {
      BindKeeps(s, id, Indexed(utxo, EMPTY_STORE));
    } else {
      UnboundKeeps(s, utxo);
    }
  }

  // Neither predictions nor persisted stores are part of the invariant.
  lemma OtherMapsFree(s: Index, s': Index)
    requires Valid(s) && s' == s.(predicted := s'.predicted, persisted := s'.persisted)
    ensures Valid(s')
  {
    hide Inverse, PlansKept;
  }

  lemma CreatedKeeps(s: Index, utxo: Utxo)
    requires Valid(s) && Fresh(s, utxo.ref)
    ensures Binds(s, ObserveCreated(s, utxo), utxo.ref)
  {
    hide Valid, BindIndexed, BindObserved, BindPredicted;
    if utxo.ref in s.predicted {
      var s1 := s.(predicted := s.predicted - {utxo.ref});
      OtherMapsFree(s, s1);
      if BindPredicted(s1, utxo).Some? { PredictedKeeps(s1, utxo); }
      BindObservedKeeps(s1, s.predicted[utxo.ref].0, utxo);
    } else if utxo.ref in s.planByRef {
      if BindPredicted(s, utxo).Some? { PredictedKeeps(s, utxo); }
    } else if utxo.ref in s.persisted && s.persisted[utxo.ref].1.root == utxo.output.storeRoot {
      var s1 := s.(persisted := s.persisted - {utxo.ref});
      OtherMapsFree(s, s1);
      BindKeeps(s1, s.persisted[utxo.ref].0, Indexed(utxo, s.persisted[utxo.ref].1));
    } else {
      UnboundKeeps(s, utxo);
    }
  }

  lemma ProducedKeeps(s: Index, consumed: set<OutputRef>, owners: set<AccountId>, utxo: Utxo)
    requires Valid(s) && Fresh(s, utxo.ref)
    ensures Binds(s, ObserveProduced(s, consumed, owners, utxo), utxo.ref)
  {
    hide Valid, BindConfirmed, BindEmptySuccessor, ObserveCreated, Binds, Fresh;
    if BindConfirmed(s, consumed, utxo).Some? { ConfirmedKeeps(s, consumed, utxo); }
    if BindEmptySuccessor(s, owners, utxo).Some? { EmptySuccessorKeeps(s, owners, utxo); }
    CreatedKeeps(s, utxo);
  }

  lemma {:induction false} AllProducedKeep(
    s: Index, consumed: set<OutputRef>, owners: set<AccountId>, produced: seq<Utxo>)
    requires Valid(s) && AllFresh(s, produced)
    ensures Valid(ObserveAllProduced(s, consumed, owners, produced))
    ensures ObserveAllProduced(s, consumed, owners, produced).rollback == s.rollback
    ensures forall r :: r in ObserveAllProduced(s, consumed, owners, produced).byRef ==>
      r in s.byRef || exists i :: 0 <= i < |produced| && produced[i].ref == r
    decreases |produced|
  {
    hide Valid, ObserveProduced;
    if produced != [] {
      var last := |produced| - 1;
      AllProducedKeep(s, consumed, owners, produced[..last]);
      var s1 := ObserveAllProduced(s, consumed, owners, produced[..last]);
      ProducedKeeps(s1, consumed, owners, produced[last]);
    }
  }

  // Applying a transaction with fresh outputs keeps the invariant.
  lemma TransactionKeeps(s: Index, consumed: set<OutputRef>, produced: seq<Utxo>)
    requires Valid(s) && AllFresh(s, produced)
    ensures Valid(ObserveTransaction(s, consumed, produced))
  {
    hide Valid, ConsumeAll, ObserveAllProduced, Owners, Fresh;
    ConsumeKeeps(s, consumed);
    AllProducedKeep(ConsumeAll(s, consumed), consumed, Owners(s, consumed), produced);
  }

  // ----- consuming one by one -----

  lemma MinusStep<K, V>(m: map<K, V>, done: set<K>, k: K)
    ensures m - done - {k} == m - (done + {k})
  {
  }

  lemma MinusNothing<K, V>(m: map<K, V>)
    ensures m - {} == m
  {
  }

  lemma ConsumeFields(s: Index, refs: set<OutputRef>)
    ensures ConsumeAll(s, refs) == s.(byRef := s.byRef - refs, rollback := s.rollback + Spent(s, refs),
      byAccount := s.byAccount - Owners(s, refs), pending := s.pending + Owners(s, refs),
      predicted := s.predicted - refs, unbound := s.unbound - refs)
  {
    hide Owners;
  }

  lemma SpentStep(s: Index, done: set<OutputRef>, ref: OutputRef)
    requires Inverse(s.byAccount, s.byRef) && ref !in done && ref in s.byRef
    ensures s.byRef[ref] in s.byAccount && s.byRef[ref] !in Owners(s, done)
    ensures Owners(s, done + {ref}) == Owners(s, done) + {s.byRef[ref]}
    ensures (s.rollback + Spent(s, done))[ref := (s.byRef[ref], s.byAccount[s.byRef[ref]])] ==
      s.rollback + Spent(s, done + {ref})
  {
  }

  lemma SpentSkip(s: Index, done: set<OutputRef>, ref: OutputRef)
    requires ref !in s.byRef
    ensures Owners(s, done + {ref}) == Owners(s, done)
    ensures Spent(s, done + {ref}) == Spent(s, done)
  {
  }

  // Consuming one more output of a set: the order of consumption does not matter.
  lemma ConsumeStep(s: Index, done: set<OutputRef>, ref: OutputRef)
    requires Inverse(s.byAccount, s.byRef) && ref !in done
    ensures ObserveConsumed(ConsumeAll(s, done), ref) == ConsumeAll(s, done + {ref})
  {
    ConsumeFields(s, done);
    ConsumeFields(s, done + {ref});
    MinusStep(s.byRef, done, ref);
    MinusStep(s.predicted, done, ref);
    MinusStep(s.unbound, done, ref);
    if ref in s.byRef {
      SpentStep(s, done, ref);
      MinusStep(s.byAccount, Owners(s, done), s.byRef[ref]);
    } else {
      SpentSkip(s, done, ref);
    }
    hide ConsumeAll, Owners, Spent, Inverse;
  }

  lemma ConsumeNothing(s: Index)
    ensures ConsumeAll(s, {}) == s
  {
    ConsumeFields(s, {});
    assert Owners(s, {}) == {} && Spent(s, {}) == map[];
    hide ConsumeAll, Owners, Spent;
    MinusNothing(s.byRef);
    MinusNothing(s.predicted);
    MinusNothing(s.unbound);
    MinusNothing(s.byAccount);
  }
}
