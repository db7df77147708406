/**
 What every production step keeps of stores and of known accounts: all stores stay consistent with
 their cached roots, and an account once known stays known.
 */
module IndexStores {
  import opened Bytes
  import opened Ledger
  import opened Mpf
  import opened AccountStores
  import opened AccountIndexes
  import opened IndexInvariant

  // Every store the index holds has the root of the trie rebuilt from its leaves.
  ghost predicate Stores(cx: Cx, s: Index) {
    && (forall id :: id in s.byAccount ==> Consistent(cx, s.byAccount[id].store))
    && (forall r :: r in s.rollback ==> Consistent(cx, s.rollback[r].1.store))
    && (forall n :: n in s.plans ==> Consistent(cx, s.plans[n].store))
    && (forall r :: r in s.persisted ==> Consistent(cx, s.persisted[r].1))
  }

  // Accounts that are current, pending, or persisted and not yet seen again.
  ghost function Known(s: Index): set<AccountId> {
    s.byAccount.Keys + s.pending + PersistedIds(s)
  }

  ghost function PersistedIds(s: Index): set<AccountId> {
    set r | r in s.persisted :: s.persisted[r].0
  }

  ghost predicate Advances(cx: Cx, s: Index, s': Index) {
    Stores(cx, s') && Known(s) <= Known(s')
  }

  lemma BindAdvances(cx: Cx, s: Index, id: AccountId, ix: Indexed)
    requires Stores(cx, s) && Consistent(cx, ix.store)
    ensures Advances(cx, s, BindIndexed(s, id, ix))
    ensures id in BindIndexed(s, id, ix).byAccount && BindIndexed(s, id, ix).persisted == s.persisted
  {
    hide Consistent;
    assert PersistedIds(BindIndexed(s, id, ix)) == PersistedIds(s);
  }

  lemma ConsumeAdvances(cx: Cx, s: Index, refs: set<OutputRef>)
    requires Stores(cx, s)
    ensures Advances(cx, s, ConsumeAll(s, refs))
  {
    hide Consistent, Owners;
    var s' := ConsumeAll(s, refs);
    assert PersistedIds(s') == PersistedIds(s);
    hide PersistedIds;
    forall r | r in s'.rollback
      ensures Consistent(cx, s'.rollback[r].1.store)
    {
      if r in s.rollback && s'.rollback[r] == s.rollback[r] {
      } else {
        assert r in s.byRef && s'.rollback[r] == (s.byRef[r], s.byAccount[s.byRef[r]]);
      }
    }
  }

  lemma RemovedAdvances(cx: Cx, s: Index, ref: OutputRef)
    requires Stores(cx, s)
    ensures Advances(cx, s, ObserveRemoved(s, ref))
  {
    hide Consistent;
    assert PersistedIds(ObserveRemoved(s, ref)) == PersistedIds(s);
  }

  // Fewer plans or predictions change neither.
  lemma FewerAdvances(cx: Cx, s: Index, s': Index)
    requires Stores(cx, s)
    requires s' == s.(plans := s'.plans, planByRef := s'.planByRef, rollback := s'.rollback, predicted := s'.predicted)
    requires forall n :: n in s'.plans ==> n in s.plans && s'.plans[n] == s.plans[n]
    requires forall r :: r in s'.rollback ==> r in s.rollback && s'.rollback[r] == s.rollback[r]
    ensures Advances(cx, s, s')
  {
    hide Consistent;
  }

  lemma RollbackAdvances(cx: Cx, s: Index, ref: OutputRef)
    requires Stores(cx, s)
    ensures Advances(cx, s, ObserveRollbackConsumed(s, ref))
  {
    hide Consistent, Known, BindIndexed;
    var s0 := s.(rollback := s.rollback - {ref});
    FewerAdvances(cx, s, s0);
    var s1 := if ref in s.rollback then BindIndexed(s0, s.rollback[ref].0, s.rollback[ref].1) else s;
    if ref in s.rollback { BindAdvances(cx, s0, s.rollback[ref].0, s.rollback[ref].1); }
    FewerAdvances(cx, s1, ObserveRollbackConsumed(s, ref));
  }

  lemma ConfirmedAdvances(cx: Cx, s: Index, consumed: set<OutputRef>, utxo: Utxo)
    requires Stores(cx, s) && BindConfirmed(s, consumed, utxo).Some?
    ensures Advances(cx, s, BindConfirmed(s, consumed, utxo).value)
  {
    hide Consistent, Known, BindIndexed;
    var ids := Matching(s, consumed, utxo.output.storeRoot);
    var s1 := WithoutPlans(s, ids);
    FewerAdvances(cx, s, s1);
    forall n | n in ids
      ensures Advances(cx, s, BindIndexed(s1, s.plans[n].account, Indexed(utxo, s.plans[n].store)))
    {
      BindAdvances(cx, s1, s.plans[n].account, Indexed(utxo, s.plans[n].store));
    }
  }

  lemma EmptySuccessorAdvances(cx: Cx, s: Index, owners: set<AccountId>, utxo: Utxo)
    requires Stores(cx, s) && BindEmptySuccessor(s, owners, utxo).Some?
    ensures Advances(cx, s, BindEmptySuccessor(s, owners, utxo).value)
  {
    hide Consistent, Known, BindIndexed, Stores;
    EmptyIsConsistent(cx);
    forall id
      ensures Advances(cx, s, BindIndexed(s, id, Indexed(utxo, EMPTY_STORE)))
    {
      BindAdvances(cx, s, id, Indexed(utxo, EMPTY_STORE));
    }
  }

  lemma PredictedAdvances(cx: Cx, s: Index, utxo: Utxo)
    requires Stores(cx, s) && BindPredicted(s, utxo).Some?
    ensures Advances(cx, s, BindPredicted(s, utxo).value)
  {
    hide Consistent, Known, BindIndexed;
    var n := s.planByRef[utxo.ref];
    var s1 := s.(plans := s.plans - {n}, planByRef := s.planByRef - {utxo.ref});
    FewerAdvances(cx, s, s1);
    BindAdvances(cx, s1, s.plans[n].account, Indexed(utxo, s.plans[n].store));
  }

  lemma BindObservedAdvances(cx: Cx, s: Index, id: AccountId, utxo: Utxo)
    requires Stores(cx, s)
    ensures Advances(cx, s, BindObserved(s, id, utxo))
  {
    hide Consistent, BindIndexed;
    if utxo.output.storeRoot == EMPTY_ROOT {
      EmptyIsConsistent(cx);
      BindAdvances(cx, s, id, Indexed(utxo, EMPTY_STORE));
    }
  }

  lemma RestoreAdvances(cx: Cx, s: Index, utxo: Utxo)
    requires Stores(cx, s) && utxo.ref in s.persisted
    ensures Advances(cx, s,
      var (id, store) := s.persisted[utxo.ref];
      BindIndexed(s.(persisted := s.persisted - {utxo.ref}), id, Indexed(utxo, store)))
  {
    hide Consistent;
    var s1 := s.(persisted := s.persisted - {utxo.ref});
    var id := s.persisted[utxo.ref].0;
    assert Stores(cx, s1);
    forall a | a in PersistedIds(s)
      ensures a == id || a in PersistedIds(s1)
    {
      var r :| r in s.persisted && s.persisted[r].0 == a;
      if r != utxo.ref { assert r in s1.persisted && s1.persisted[r].0 == a; }
    }
    BindAdvances(cx, s1, id, Indexed(utxo, s.persisted[utxo.ref].1));
  }

  lemma CreatedAdvances(cx: Cx, s: Index, utxo: Utxo)
    requires Stores(cx, s)
    ensures Advances(cx, s, ObserveCreated(s, utxo))
  {
    hide Consistent, BindIndexed, BindObserved, BindPredicted, Known;
    if utxo.ref in s.predicted {
      var s1 := s.(predicted := s.predicted - {utxo.ref});
      FewerAdvances(cx, s, s1);
      if BindPredicted(s1, utxo).Some? { PredictedAdvances(cx, s1, utxo); }
      BindObservedAdvances(cx, s1, s.predicted[utxo.ref].0, utxo);
    } else if utxo.ref in s.planByRef {
      if BindPredicted(s, utxo).Some? { PredictedAdvances(cx, s, utxo); }
    } else if utxo.ref in s.persisted && s.persisted[utxo.ref].1.root == utxo.output.storeRoot {
      RestoreAdvances(cx, s, utxo);
    } else {
      UnboundAdvances(cx, s, utxo);
    }
  }

  lemma UnboundAdvances(cx: Cx, s: Index, utxo: Utxo)
    requires Stores(cx, s)
    ensures Advances(cx, s, s.(unbound := s.unbound[utxo.ref := utxo]))
  {
    hide Consistent;
  }

  lemma ProducedAdvances(cx: Cx, s: Index, consumed: set<OutputRef>, owners: set<AccountId>, utxo: Utxo)
    requires Stores(cx, s)
    ensures Advances(cx, s, ObserveProduced(s, consumed, owners, utxo))
  {
    hide Stores, Known, BindConfirmed, BindEmptySuccessor, ObserveCreated;
    if BindConfirmed(s, consumed, utxo).Some? { ConfirmedAdvances(cx, s, consumed, utxo); }
    if BindEmptySuccessor(s, owners, utxo).Some? { EmptySuccessorAdvances(cx, s, owners, utxo); }
    CreatedAdvances(cx, s, utxo);
  }

  lemma {:induction false} AllProducedAdvance(
    cx: Cx, s: Index, consumed: set<OutputRef>, owners: set<AccountId>, produced: seq<Utxo>)
    requires Stores(cx, s)
    ensures Advances(cx, s, ObserveAllProduced(s, consumed, owners, produced))
    decreases |produced|
  {
    hide Stores, Known, ObserveProduced;
    if produced != [] {
      var last := |produced| - 1;
      AllProducedAdvance(cx, s, consumed, owners, produced[..last]);
      ProducedAdvances(cx, ObserveAllProduced(s, consumed, owners, produced[..last]), consumed, owners, produced[last]);
    }
  }

  lemma TransactionAdvances(cx: Cx, s: Index, consumed: set<OutputRef>, produced: seq<Utxo>)
    requires Stores(cx, s)
    ensures Advances(cx, s, ObserveTransaction(s, consumed, produced))
  {
    hide Stores, Known, ConsumeAll, ObserveAllProduced, Owners;
    ConsumeAdvances(cx, s, consumed);
    AllProducedAdvance(cx, ConsumeAll(s, consumed), consumed, Owners(s, consumed), produced);
  }

  // A binding succeeds only for an unknown account, and makes it known.
  lemma BindOnceAdvances(cx: Cx, s: Index, id: AccountId, ref: OutputRef)
    requires Stores(cx, s)
    ensures id in Known(s) ==> BindOnce(s, id, ref) == Failure(AlreadyBound)
    ensures BindOnce(s, id, ref).Success? ==>
      Advances(cx, s, BindOnce(s, id, ref).value) && id in BindOnce(s, id, ref).value.byAccount
  {
    hide Consistent, BindIndexed;
    if BindOnce(s, id, ref).Success? {
      EmptyIsConsistent(cx);
      var s1 := s.(unbound := s.unbound - {ref});
      assert Stores(cx, s1) && Known(s1) == Known(s);
      BindAdvances(cx, s1, id, Indexed(s.unbound[ref], EMPTY_STORE));
    }
  }

  lemma BindOnceKeeps(s: Index, id: AccountId, ref: OutputRef)
    requires Valid(s) && BindOnce(s, id, ref).Success?
    ensures Valid(BindOnce(s, id, ref).value)
  {
    var s1 := s.(unbound := s.unbound - {ref});
    assert Valid(s1) by { hide Inverse, PlansKept; }
    BindKeeps(s1, id, Indexed(s.unbound[ref], EMPTY_STORE));
  }
}
