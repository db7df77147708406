/**
 Applying transactions and reverting them in reverse order puts accounts back where they were.
 */
module IndexRollback {
  import opened Ledger
  import opened AccountIndexes
  import opened IndexInvariant
  import opened IndexPlanning

  ghost function ApplyTx(s: Index, tx: Tx): Index {
    ApplyEvents(s, ScanEvents(tx))
  }

  function RevertTx(s: Index, tx: Tx): Index {
    RevertEvents(s, ScanEvents(tx))
  }

  ghost function ApplyAll(s: Index, txs: seq<Tx>): Index
    decreases |txs|
  {
    if txs == [] then s else ApplyAll(ApplyTx(s, txs[0]), txs[1..])
  }

  // Reverts the last transaction first.
  function RevertAll(s: Index, txs: seq<Tx>): Index
    decreases |txs|
  {
    if txs == [] then s else RevertTx(RevertAll(s, txs[1..]), txs[0])
  }

  // ----- events of a transaction -----

  function InputEvents(inputs: seq<OutputRef>): seq<AccountEvent> {
    seq(|inputs|, i requires 0 <= i < |inputs| => Consumed(inputs[i]))
  }

  function OutputEvents(produced: seq<Utxo>): seq<AccountEvent> {
    seq(|produced|, i requires 0 <= i < |produced| => Produced(produced[i]))
  }

  function RestoreAll(s: Index, inputs: seq<OutputRef>): Index {
    if inputs == [] then s else ObserveRollbackConsumed(RestoreAll(s, inputs[..|inputs| - 1]), inputs[|inputs| - 1])
  }

  function RemoveAll(s: Index, produced: seq<Utxo>): Index {
    if produced == [] then s else ObserveRemoved(RemoveAll(s, produced[..|produced| - 1]), produced[|produced| - 1].ref)
  }

  lemma {:induction false} EventsOfInputs(s: Index, inputs: seq<OutputRef>)
    ensures ConsumedRefs(InputEvents(inputs)) == inputs && ProducedUtxos(InputEvents(inputs)) == []
    ensures RevertEvents(s, InputEvents(inputs)) == RestoreAll(s, inputs)
  {
    hide ObserveRemoved, ObserveRollbackConsumed;
    if inputs != [] {
      var last := |inputs| - 1;
      EventsOfInputs(s, inputs[..last]);
      assert InputEvents(inputs)[..last] == InputEvents(inputs[..last]);
    }
  }

  lemma {:induction false} EventsOfTx(s: Index, inputs: seq<OutputRef>, produced: seq<Utxo>)
    ensures
      var events := InputEvents(inputs) + OutputEvents(produced);
      && ConsumedRefs(events) == inputs && ProducedUtxos(events) == produced
      && RevertEvents(s, events) == RemoveAll(RestoreAll(s, inputs), produced)
    decreases |produced|
  {
    hide ObserveRemoved, ObserveRollbackConsumed;
    var events := InputEvents(inputs) + OutputEvents(produced);
    if produced == [] {
      EventsOfInputs(s, inputs);
      assert events == InputEvents(inputs);
    } else {
      var last := |produced| - 1;
      EventsOfTx(s, inputs, produced[..last]);
      assert events[..|events| - 1] == InputEvents(inputs) + OutputEvents(produced[..last]);
    }
  }

  lemma TxUnfolds(s: Index, tx: Tx)
    ensures ApplyTx(s, tx) == ObserveTransaction(s, RefSet(tx.inputs), tx.produced)
    ensures RevertTx(s, tx) == RemoveAll(RestoreAll(s, tx.inputs), tx.produced)
  {
    hide ObserveTransaction, RestoreAll, RemoveAll, RevertEvents, ConsumedRefs, ProducedUtxos, RefSet;
    EventsOfTx(s, tx.inputs, tx.produced);
    assert ScanEvents(tx) == InputEvents(tx.inputs) + OutputEvents(tx.produced);
  }

  // ----- restoring and removing -----

  ghost predicate OwnersApart(s: Index, refs: set<OutputRef>) {
    var kept := refs * s.rollback.Keys;
    forall r, q :: r in kept && q in kept && s.rollback[r].0 == s.rollback[q].0 ==> r == q
  }

  // `a` owns an output among `refs` that is kept for rollback.
  ghost predicate Reserved(s: Index, refs: set<OutputRef>, a: AccountId) {
    exists r :: r in refs && r in s.rollback && s.rollback[r].0 == a
  }

  // Account `a` stands in `s'` exactly as in `s`.
  ghost predicate Stands(s: Index, s': Index, a: AccountId) {
    (a in s'.byAccount <==> a in s.byAccount) && (a in s.byAccount ==> s'.byAccount[a] == s.byAccount[a])
  }

  lemma RestoreOne(s: Index, ref: OutputRef)
    requires Valid(s)
    ensures
      var s' := ObserveRollbackConsumed(s, ref);
      && Valid(s') && s'.rollback == s.rollback - {ref}
      && s'.byAccount == if ref in s.rollback then s.byAccount[s.rollback[ref].0 := s.rollback[ref].1] else s.byAccount
  {
    RollbackKeeps(s, ref);
    hide Valid;
    if ref !in s.rollback { assert s.rollback - {ref} == s.rollback; }
  }

  lemma {:induction false} RestoreMany(s: Index, inputs: seq<OutputRef>)
    requires Valid(s) && OwnersApart(s, RefSet(inputs))
    ensures
      var s' := RestoreAll(s, inputs);
      && Valid(s') && s'.rollback == s.rollback - RefSet(inputs)
      && (forall r :: r in inputs && r in s.rollback ==>
        s.rollback[r].0 in s'.byAccount && s'.byAccount[s.rollback[r].0] == s.rollback[r].1)
      && (forall a :: !Reserved(s, RefSet(inputs), a) ==> Stands(s, s', a))
    decreases |inputs|
  {
    hide Valid, ObserveRollbackConsumed;
    if inputs != [] {
      var last := |inputs| - 1;
      var init, ref := inputs[..last], inputs[last];
      assert RefSet(inputs) == RefSet(init) + {ref};
      RestoreMany(s, init);
      var s1 := RestoreAll(s, init);
      RestoreOne(s1, ref);
      var s' := RestoreAll(s, inputs);
      RestoreStep(s, s1, s', init, ref, inputs);
    }
  }

  lemma FewerReserved(s: Index, refs: set<OutputRef>, refs': set<OutputRef>, a: AccountId)
    requires refs <= refs'
    ensures Reserved(s, refs, a) ==> Reserved(s, refs', a)
  {
  }

  lemma RestoreStep(s: Index, s1: Index, s': Index, init: seq<OutputRef>, ref: OutputRef, inputs: seq<OutputRef>)
    requires OwnersApart(s, RefSet(inputs)) && inputs == init + [ref]
    requires s1.rollback == s.rollback - RefSet(init) && s'.rollback == s1.rollback - {ref}
    requires s'.byAccount ==
      if ref in s1.rollback then s1.byAccount[s1.rollback[ref].0 := s1.rollback[ref].1] else s1.byAccount
    requires forall r :: r in init && r in s.rollback ==>
      s.rollback[r].0 in s1.byAccount && s1.byAccount[s.rollback[r].0] == s.rollback[r].1
    requires forall a :: !Reserved(s, RefSet(init), a) ==> Stands(s, s1, a)
    ensures forall r :: r in inputs && r in s.rollback ==>
      s.rollback[r].0 in s'.byAccount && s'.byAccount[s.rollback[r].0] == s.rollback[r].1
    ensures forall a :: !Reserved(s, RefSet(inputs), a) ==> Stands(s, s', a)
  {
    assert ref in RefSet(inputs);
    forall r | r in inputs && r in s.rollback
      ensures s.rollback[r].0 in s'.byAccount && s'.byAccount[s.rollback[r].0] == s.rollback[r].1
    {
      assert r in RefSet(inputs);
    }
    forall a | !Reserved(s, RefSet(inputs), a)
      ensures Stands(s, s', a)
    {
      FewerReserved(s, RefSet(init), RefSet(inputs), a);
    }
  }

  ghost predicate ProducedAt(produced: seq<Utxo>, ref: OutputRef) {
    exists i :: 0 <= i < |produced| && produced[i].ref == ref
  }

  lemma RemoveAccounts(s: Index, ref: OutputRef)
    requires Inverse(s.byAccount, s.byRef)
    ensures
      var s' := ObserveRemoved(s, ref);
      && s'.rollback == s.rollback
      && (forall a :: a in s'.byAccount <==> a in s.byAccount && s.byAccount[a].utxo.ref != ref)
      && (forall a :: a in s'.byAccount ==> s'.byAccount[a] == s.byAccount[a])
  {
  }

  lemma RemoveOne(s: Index, ref: OutputRef)
    requires Valid(s)
    ensures
      var s' := ObserveRemoved(s, ref);
      && Valid(s') && s'.rollback == s.rollback
      && (forall a :: a in s'.byAccount <==> a in s.byAccount && s.byAccount[a].utxo.ref != ref)
      && (forall a :: a in s'.byAccount ==> s'.byAccount[a] == s.byAccount[a])
  {
    hide Inverse, Apart, OwnKeys, PlansKept, DatumRoots, ObserveRemoved;
    RemovedKeeps(s, ref);
    RemoveAccounts(s, ref);
  }

  lemma {:induction false} RemoveMany(s: Index, produced: seq<Utxo>)
    requires Valid(s)
    ensures
      var s' := RemoveAll(s, produced);
      && Valid(s') && s'.rollback == s.rollback
      && (forall a :: a in s'.byAccount <==> a in s.byAccount && !ProducedAt(produced, s.byAccount[a].utxo.ref))
      && (forall a :: a in s'.byAccount ==> s'.byAccount[a] == s.byAccount[a])
    decreases |produced|
  {
    hide Valid, ObserveRemoved;
    if produced != [] {
      var last := |produced| - 1;
      RemoveMany(s, produced[..last]);
      RemoveOne(RemoveAll(s, produced[..last]), produced[last].ref);
      forall r
        ensures ProducedAt(produced, r) <==> ProducedAt(produced[..last], r) || r == produced[last].ref
      {
        if ProducedAt(produced[..last], r) {
          var i :| 0 <= i < last && produced[..last][i].ref == r;
          assert produced[i].ref == r;
        }
        if ProducedAt(produced, r) {
          var i :| 0 <= i < |produced| && produced[i].ref == r;
          if i < last { assert produced[..last][i].ref == r; }
        }
      }
    }
  }

  // What reverting a transaction leaves: owners of its inputs are back, and other accounts stand unless they
  // are at one of its outputs.
  ghost predicate Reverted(f1: Index, f: Index, consumed: set<OutputRef>, produced: seq<Utxo>) {
    && f.rollback == f1.rollback - consumed
    && (forall r :: r in consumed && r in f1.rollback && !ProducedAt(produced, r) ==>
          f1.rollback[r].0 in f.byAccount && f.byAccount[f1.rollback[r].0] == f1.rollback[r].1)
    && (forall a :: !Reserved(f1, consumed, a) ==>
          (a in f.byAccount <==> a in f1.byAccount && !ProducedAt(produced, f1.byAccount[a].utxo.ref)) &&
          (a in f.byAccount ==> f.byAccount[a] == f1.byAccount[a]))
  }

  lemma ValidFacts(s: Index)
    requires Valid(s)
    ensures BoundThere(s) && forall r :: r in s.rollback ==> s.rollback[r].1.utxo.ref == r
  {
  }

  lemma RevertedFrom(s: Index, m: Index, s': Index, inputs: seq<OutputRef>, produced: seq<Utxo>)
    requires forall r :: r in s.rollback ==> s.rollback[r].1.utxo.ref == r
    requires m.rollback == s.rollback - RefSet(inputs) && s'.rollback == m.rollback
    requires forall r :: r in inputs && r in s.rollback ==>
      s.rollback[r].0 in m.byAccount && m.byAccount[s.rollback[r].0] == s.rollback[r].1
    requires forall a :: !Reserved(s, RefSet(inputs), a) ==> Stands(s, m, a)
    requires forall a :: a in s'.byAccount <==> a in m.byAccount && !ProducedAt(produced, m.byAccount[a].utxo.ref)
    requires forall a :: a in s'.byAccount ==> s'.byAccount[a] == m.byAccount[a]
    ensures Reverted(s, s', RefSet(inputs), produced)
  {
    hide ProducedAt, Reserved;
    forall a | !Reserved(s, RefSet(inputs), a)
      ensures Stands(s, m, a)
    {
    }
  }

  lemma RevertOne(s: Index, tx: Tx)
    requires Valid(s) && OwnersApart(s, RefSet(tx.inputs))
    ensures Valid(RevertTx(s, tx)) && Reverted(s, RevertTx(s, tx), RefSet(tx.inputs), tx.produced)
  {
    hide Valid, RestoreAll, RemoveAll, RevertTx, OwnersApart, Reserved, ProducedAt, Reverted, RefSet, Stands,
         BoundThere, ApplyTx;
    ValidFacts(s);
    TxUnfolds(s, tx);
    RestoreMany(s, tx.inputs);
    RemoveMany(RestoreAll(s, tx.inputs), tx.produced);
    RevertedFrom(s, RestoreAll(s, tx.inputs), RevertTx(s, tx), tx.inputs, tx.produced);
  }

  // ----- what applying a transaction does to accounts -----

  // No current account is foreseen at a produced output.
  ghost predicate NoneForeseen(s: Index, produced: seq<Utxo>) {
    forall i, a :: 0 <= i < |produced| && a in s.byAccount ==> !Foresees(s, produced[i].ref, a)
  }

  // After some outputs: accounts that were current stand, and any other current account is at a produced output.
  ghost predicate OnlyProducedBound(s: Index, s': Index, produced: seq<Utxo>) {
    && (forall a :: a in s.byAccount ==> a in s'.byAccount && s'.byAccount[a] == s.byAccount[a])
    && (forall a :: a in s'.byAccount && a !in s.byAccount ==> ProducedAt(produced, s'.byAccount[a].utxo.ref))
  }

  lemma {:induction false} AllProducedBind(
    s: Index, consumed: set<OutputRef>, owners: set<AccountId>, produced: seq<Utxo>)
    requires NoneForeseen(s, produced)
    requires forall a :: a in s.byAccount ==> a !in owners && !Planner(s, consumed, a)
    ensures Narrower(s, ObserveAllProduced(s, consumed, owners, produced))
    ensures OnlyProducedBound(s, ObserveAllProduced(s, consumed, owners, produced), produced)
    decreases |produced|
  {
    hide ObserveProduced, Planner, Foresees, ProducedAt, BoundAt, Narrower;
    if produced == [] {
      NarrowerSelf(s);
    } else {
      var last := |produced| - 1;
      var init := produced[..last];
      AllProducedBind(s, consumed, owners, init);
      var s1 := ObserveAllProduced(s, consumed, owners, init);
      var x := ProducedBinds(s1, consumed, owners, produced[last]);
      var s' := ObserveAllProduced(s, consumed, owners, produced);
      NarrowerTransitive(s, s1, s');
      if x.Some? && Planner(s1, consumed, x.value) { FewerPlanners(s, s1, consumed, x.value); }
      if x.Some? && Foresees(s1, produced[last].ref, x.value) { LessForeseen(s, s1, produced[last].ref, x.value); }
      forall r
        ensures ProducedAt(init, r) || r == produced[last].ref ==> ProducedAt(produced, r)
      {
        MoreProduced(produced, r);
      }
      if x.Some? { BoundStands(s1, s', x.value, produced[last]); }
    }
  }

  lemma MoreProduced(produced: seq<Utxo>, r: OutputRef)
    requires produced != []
    ensures ProducedAt(produced[..|produced| - 1], r) || r == produced[|produced| - 1].ref ==> ProducedAt(produced, r)
  {
    var last := |produced| - 1;
    if ProducedAt(produced[..last], r) {
      var i :| 0 <= i < last && produced[..last][i].ref == r;
      assert produced[i].ref == r;
    }
  }

  // ----- transactions in order, and back -----

  function AllInputs(txs: seq<Tx>): set<OutputRef> {
    set i, r | 0 <= i < |txs| && r in txs[i].inputs :: r
  }

  // New outputs, none of them also spent; no current account is foreseen at an output or has a plan on an input.
  ghost predicate TxOk(s: Index, tx: Tx) {
    && AllFresh(s, tx.produced) && NoneForeseen(s, tx.produced)
    && (forall i :: 0 <= i < |tx.produced| ==> tx.produced[i].ref !in tx.inputs)
    && (forall a :: a in s.byAccount ==> !Planner(s, RefSet(tx.inputs), a))
  }

  // Inputs kept for rollback belong to accounts that are not current, one output each.
  ghost predicate WaitingOwners(s: Index, refs: set<OutputRef>) {
    OwnersApart(s, refs) && forall a :: a in s.byAccount ==> !Reserved(s, refs, a)
  }

  // Each transaction fits the state it meets, and no output is spent twice.
  ghost predicate ChainOk(s: Index, txs: seq<Tx>)
    decreases |txs|
  {
    txs == [] ||
    (&& TxOk(s, txs[0]) && WaitingOwners(s, AllInputs(txs))
     && RefSet(txs[0].inputs) !! AllInputs(txs[1..])
     && ChainOk(ApplyTx(s, txs[0]), txs[1..]))
  }

  // The plain case: inputs that are bound or unknown, without plans on them, and new outputs nobody foresees.
  lemma PlainTransactionFits(s: Index, tx: Tx)
    requires AllFresh(s, tx.produced) && RefSet(tx.inputs) !! s.rollback.Keys
    requires forall i :: 0 <= i < |tx.produced| ==> tx.produced[i].ref !in tx.inputs
    requires forall i, a :: 0 <= i < |tx.produced| ==> !Foresees(s, tx.produced[i].ref, a)
    requires forall n :: n in s.plans ==> s.plans[n].oldRef !in tx.inputs
    ensures ChainOk(s, [tx])
  {
    hide Foresees, AllFresh, ApplyTx;
    var txs := [tx];
    forall r
      ensures r in AllInputs(txs) <==> r in tx.inputs
    {
      if r in tx.inputs { assert r in txs[0].inputs; }
    }
    assert txs[1..] == [];
    assert forall r :: r !in AllInputs(txs[1..]);
  }

  lemma ConsumedRollback(s: Index, consumed: set<OutputRef>)
    requires Valid(s)
    ensures
      var s' := ConsumeAll(s, consumed);
      && s'.rollback.Keys == s.rollback.Keys + consumed * s.byRef.Keys
      && (forall r :: r in s.rollback ==> s'.rollback[r] == s.rollback[r])
      && (forall r :: r in consumed && r in s.byRef ==> s'.rollback[r] == (s.byRef[r], s.byAccount[s.byRef[r]]))
  {
    hide Owners, OwnKeys, PlansKept, DatumRoots;
  }

  lemma ConsumedRest(s: Index, consumed: set<OutputRef>)
    ensures ConsumeAll(s, consumed).byAccount == s.byAccount - Owners(s, consumed)
    ensures forall r, a :: Foresees(ConsumeAll(s, consumed), r, a) ==> Foresees(s, r, a)
    ensures forall a :: Planner(ConsumeAll(s, consumed), consumed, a) <==> Planner(s, consumed, a)
  {
    hide Owners;
  }

  // What applying a transaction leaves: spent bound outputs join the rollback entries, accounts that were not
  // spent stand, and any other current account is at a produced output.
  ghost predicate Applied(s: Index, s1: Index, consumed: set<OutputRef>, produced: seq<Utxo>) {
    && s1.rollback.Keys == s.rollback.Keys + consumed * s.byRef.Keys
    && (forall r :: r in s.rollback ==> s1.rollback[r] == s.rollback[r])
    && (forall r :: r in consumed && r in s.byRef ==>
      s.byRef[r] in s.byAccount && s1.rollback[r] == (s.byRef[r], s.byAccount[s.byRef[r]]))
    && (forall a :: a in s.byAccount && a !in Owners(s, consumed) ==>
      a in s1.byAccount && s1.byAccount[a] == s.byAccount[a])
    && (forall a :: a in s1.byAccount && (a !in s.byAccount || a in Owners(s, consumed)) ==>
      ProducedAt(produced, s1.byAccount[a].utxo.ref))
  }

  lemma AppliedFrom(s: Index, c: Index, s': Index, consumed: set<OutputRef>, produced: seq<Utxo>)
    requires BoundThere(s) && c.byAccount == s.byAccount - Owners(s, consumed) && OnlyProducedBound(c, s', produced)
    requires s'.rollback.Keys == s.rollback.Keys + consumed * s.byRef.Keys
    requires forall r :: r in s.rollback ==> s'.rollback[r] == s.rollback[r]
    requires forall r :: r in consumed && r in s.byRef ==> s'.rollback[r] == (s.byRef[r], s.byAccount[s.byRef[r]])
    ensures Applied(s, s', consumed, produced)
  {
    hide Owners, ProducedAt;
  }

  lemma ApplyOne(s: Index, tx: Tx)
    requires Valid(s) && TxOk(s, tx)
    ensures Valid(ApplyTx(s, tx)) && Applied(s, ApplyTx(s, tx), RefSet(tx.inputs), tx.produced)
  {
    hide Valid, RefSet, Owners, ProducedAt, ObserveAllProduced, Foresees, ConsumeAll, Fresh, ApplyTx, Planner,
         BoundThere, OnlyProducedBound, Applied, RevertTx, Narrower;
    ValidFacts(s);
    var consumed := RefSet(tx.inputs);
    var c := ConsumeAll(s, consumed);
    TxUnfolds(s, tx);
    ConsumeKeeps(s, consumed);
    ConsumedRollback(s, consumed);
    ConsumedRest(s, consumed);
    AllProducedKeep(c, consumed, Owners(s, consumed), tx.produced);
    AllProducedBind(c, consumed, Owners(s, consumed), tx.produced);
    AppliedFrom(s, c, ApplyTx(s, tx), consumed, tx.produced);
  }

  // The accounts of `f` are exactly those current in `s`, unmoved, and the owners of the outputs in `refs`
  // that `s` keeps for rollback, at those outputs.
  ghost predicate PutBack(s: Index, f: Index, refs: set<OutputRef>) {
    && f.rollback == s.rollback - refs
    && (forall a :: a in s.byAccount ==> a in f.byAccount && f.byAccount[a] == s.byAccount[a])
    && (forall r :: r in refs && r in s.rollback ==>
      s.rollback[r].0 in f.byAccount && f.byAccount[s.rollback[r].0] == s.rollback[r].1)
    && (forall a :: a in f.byAccount ==> a in s.byAccount || Reserved(s, refs, a))
  }

  // Where a consumed output leads back: to the account bound there, or to the waiting owner.
  lemma Home(
    s: Index, s1: Index, f1: Index, consumed: set<OutputRef>, later: set<OutputRef>, produced: seq<Utxo>, q: OutputRef)
    requires Applied(s, s1, consumed, produced) && f1.rollback == s1.rollback - later && q in consumed
    requires q in f1.rollback
    ensures q in s.byRef || q in s.rollback
    ensures q in s.byRef ==> f1.rollback[q].0 == s.byRef[q] && s.byRef[q] in Owners(s, consumed)
    ensures q !in s.byRef ==> f1.rollback[q] == s.rollback[q] && Reserved(s, consumed + later, f1.rollback[q].0)
  {
  }

  lemma NotRestored(
    s: Index, s1: Index, f1: Index, consumed: set<OutputRef>, later: set<OutputRef>, produced: seq<Utxo>, a: AccountId)
    requires Applied(s, s1, consumed, produced) && f1.rollback == s1.rollback - later
    requires a !in Owners(s, consumed) && forall q :: q in consumed && q in s.rollback ==> s.rollback[q].0 != a
    ensures !Reserved(f1, consumed, a)
  {
    forall q | q in consumed && q in f1.rollback
      ensures f1.rollback[q].0 != a
    {
      Home(s, s1, f1, consumed, later, produced, q);
    }
  }

  lemma HomesApart(s: Index, s1: Index, f1: Index, consumed: set<OutputRef>, later: set<OutputRef>, produced: seq<Utxo>)
    requires Inverse(s.byAccount, s.byRef) && Applied(s, s1, consumed, produced) && WaitingOwners(s, consumed + later)
    requires f1.rollback == s1.rollback - later
    ensures OwnersApart(f1, consumed)
  {
    var kept := consumed * f1.rollback.Keys;
    forall r, q | r in kept && q in kept && f1.rollback[r].0 == f1.rollback[q].0
      ensures r == q
    {
      Home(s, s1, f1, consumed, later, produced, r);
      Home(s, s1, f1, consumed, later, produced, q);
    }
  }

  // No produced output is spent by the same transaction, bound, or kept for rollback.
  ghost predicate NewOutputs(s: Index, consumed: set<OutputRef>, produced: seq<Utxo>) {
    forall r :: ProducedAt(produced, r) ==> r !in consumed && r !in s.byRef && r !in s.rollback
  }

  lemma CurrentPutBack(
    s: Index, s1: Index, f1: Index, f: Index, consumed: set<OutputRef>, later: set<OutputRef>, produced: seq<Utxo>,
    a: AccountId)
    requires Inverse(s.byAccount, s.byRef) && Applied(s, s1, consumed, produced) && PutBack(s1, f1, later)
    requires Reverted(f1, f, consumed, produced)
    requires WaitingOwners(s, consumed + later) && consumed !! later && NewOutputs(s, consumed, produced)
    requires a in s.byAccount
    ensures a in f.byAccount && f.byAccount[a] == s.byAccount[a]
  {
    var r := s.byAccount[a].utxo.ref;
    if a in Owners(s, consumed) {
      var q :| q in consumed && q in s.byRef && s.byRef[q] == a;
      assert f1.rollback[q] == (a, s.byAccount[a]);
    } else {
      assert !Reserved(s, consumed + later, a);
      NotRestored(s, s1, f1, consumed, later, produced, a);
      assert f1.byAccount[a] == s.byAccount[a];
    }
  }

  lemma ReservedPutBack(
    s: Index, s1: Index, f1: Index, f: Index, consumed: set<OutputRef>, later: set<OutputRef>, produced: seq<Utxo>,
    r: OutputRef)
    requires Applied(s, s1, consumed, produced) && PutBack(s1, f1, later) && Reverted(f1, f, consumed, produced)
    requires WaitingOwners(s, consumed + later) && consumed !! later && NewOutputs(s, consumed, produced)
    requires r in consumed + later && r in s.rollback && s.rollback[r].1.utxo.ref == r
    ensures s.rollback[r].0 in f.byAccount && f.byAccount[s.rollback[r].0] == s.rollback[r].1
  {
    var a := s.rollback[r].0;
    if r in consumed {
      assert f1.rollback[r] == s.rollback[r];
    } else {
      assert f1.byAccount[a] == s.rollback[r].1;
      assert Reserved(s, consumed + later, a);
      assert a !in s.byAccount;
      forall q | q in consumed && q in s.rollback
        ensures s.rollback[q].0 != a
      {
        assert q in consumed + later;
      }
      assert a !in Owners(s, consumed);
      NotRestored(s, s1, f1, consumed, later, produced, a);
    }
  }

  lemma NothingElse(
    s: Index, s1: Index, f1: Index, f: Index, consumed: set<OutputRef>, later: set<OutputRef>, produced: seq<Utxo>,
    a: AccountId)
    requires Applied(s, s1, consumed, produced) && PutBack(s1, f1, later) && Reverted(f1, f, consumed, produced)
    requires consumed !! later && a in f.byAccount
    ensures a in s.byAccount || Reserved(s, consumed + later, a)
  {
    hide Owners;
    if Reserved(f1, consumed, a) {
      var q :| q in consumed && q in f1.rollback && f1.rollback[q].0 == a;
      if q in s.byRef { assert s.byRef[q] == a; } else { assert q in consumed + later && q in s.rollback; }
    } else if a in s1.byAccount {
    } else {
      var q :| q in later && q in s1.rollback && s1.rollback[q].0 == a;
      assert q in consumed + later && q in s.rollback;
    }
  }

  lemma InputsSplit(txs: seq<Tx>)
    requires txs != []
    ensures AllInputs(txs) == RefSet(txs[0].inputs) + AllInputs(txs[1..])
  {
    forall r | r in AllInputs(txs)
      ensures r in RefSet(txs[0].inputs) + AllInputs(txs[1..])
    {
      var i :| 0 <= i < |txs| && r in txs[i].inputs;
      if i > 0 { assert txs[1..][i - 1] == txs[i]; }
    }
    forall r | r in RefSet(txs[0].inputs) + AllInputs(txs[1..])
      ensures r in AllInputs(txs)
    {
      if r in AllInputs(txs[1..]) {
        var i :| 0 <= i < |txs[1..]| && r in txs[1..][i].inputs;
        assert txs[i + 1] == txs[1..][i];
      }
    }
  }

  lemma NewOutputsOf(s: Index, tx: Tx)
    requires TxOk(s, tx)
    ensures NewOutputs(s, RefSet(tx.inputs), tx.produced)
  {
  }

  // Applying any list of transactions and reverting them, last one first, leaves exactly the accounts that
  // were current, at the same outputs with the same stores, and brings back every account that was waiting
  // on an output the list spent, at that output with its store.
  lemma {:induction false} RevertUndoesApply(s: Index, txs: seq<Tx>)
    requires Valid(s) && ChainOk(s, txs)
    ensures Valid(RevertAll(ApplyAll(s, txs), txs))
    ensures PutBack(s, RevertAll(ApplyAll(s, txs), txs), AllInputs(txs))
    decreases |txs|
  {
    hide Valid, TxOk, WaitingOwners, ApplyTx, RevertTx, PutBack;
    if txs == [] {
      NothingToPutBack(s);
      assert AllInputs(txs) == {};
    } else {
      var tx, rest := txs[0], txs[1..];
      var s1 := ApplyTx(s, tx);
      ApplyOne(s, tx);
      RevertUndoesApply(s1, rest);
      InputsSplit(txs);
      PutBackStep(s, s1, RevertAll(ApplyAll(s1, rest), rest), tx, AllInputs(rest));
    }
  }

  lemma NothingToPutBack(s: Index)
    ensures PutBack(s, s, {})
  {
    assert s.rollback - {} == s.rollback;
  }

  lemma RollbackPutBack(
    s: Index, s1: Index, f1: Index, f: Index, consumed: set<OutputRef>, later: set<OutputRef>, produced: seq<Utxo>)
    requires Applied(s, s1, consumed, produced) && f1.rollback == s1.rollback - later
    requires f.rollback == f1.rollback - consumed
    ensures f.rollback == s.rollback - (consumed + later)
  {
    hide Owners, ProducedAt;
  }

  lemma AssemblePutBack(s: Index, f: Index, refs: set<OutputRef>)
    requires f.rollback == s.rollback - refs
    requires forall a :: a in s.byAccount ==> a in f.byAccount && f.byAccount[a] == s.byAccount[a]
    requires forall r :: r in refs && r in s.rollback ==>
      s.rollback[r].0 in f.byAccount && f.byAccount[s.rollback[r].0] == s.rollback[r].1
    requires forall a :: a in f.byAccount ==> a in s.byAccount || Reserved(s, refs, a)
    ensures PutBack(s, f, refs)
  {
  }

  lemma PutBackFrom(
    s: Index, s1: Index, f1: Index, f: Index, consumed: set<OutputRef>, later: set<OutputRef>, produced: seq<Utxo>)
    requires Inverse(s.byAccount, s.byRef) && OwnKeys(s)
    requires Applied(s, s1, consumed, produced) && PutBack(s1, f1, later) && Reverted(f1, f, consumed, produced)
    requires f1.rollback == s1.rollback - later && f.rollback == f1.rollback - consumed
    requires WaitingOwners(s, consumed + later) && consumed !! later && NewOutputs(s, consumed, produced)
    ensures PutBack(s, f, consumed + later)
  {
    hide Applied, WaitingOwners, Inverse, ProducedAt, Reserved, Reverted, NewOutputs, PutBack;
    RollbackPutBack(s, s1, f1, f, consumed, later, produced);
    forall a | a in s.byAccount
      ensures a in f.byAccount && f.byAccount[a] == s.byAccount[a]
    {
      CurrentPutBack(s, s1, f1, f, consumed, later, produced, a);
    }
    forall r | r in consumed + later && r in s.rollback
      ensures s.rollback[r].0 in f.byAccount && f.byAccount[s.rollback[r].0] == s.rollback[r].1
    {
      ReservedPutBack(s, s1, f1, f, consumed, later, produced, r);
    }
    forall a | a in f.byAccount
      ensures a in s.byAccount || Reserved(s, consumed + later, a)
    {
      NothingElse(s, s1, f1, f, consumed, later, produced, a);
    }
    AssemblePutBack(s, f, consumed + later);
  }

  lemma RevertRollback(s: Index, s': Index, consumed: set<OutputRef>, produced: seq<Utxo>)
    requires Reverted(s, s', consumed, produced)
    ensures s'.rollback == s.rollback - consumed
  {
  }

  lemma PutBackStep(s: Index, s1: Index, f1: Index, tx: Tx, later: set<OutputRef>)
    requires Valid(s) && TxOk(s, tx) && Applied(s, s1, RefSet(tx.inputs), tx.produced)
    requires WaitingOwners(s, RefSet(tx.inputs) + later) && RefSet(tx.inputs) !! later
    requires Valid(f1) && PutBack(s1, f1, later)
    ensures Valid(RevertTx(f1, tx)) && PutBack(s, RevertTx(f1, tx), RefSet(tx.inputs) + later)
  {
    assert f1.rollback == s1.rollback - later;
    hide Apart, PlansKept, DatumRoots, OwnKeys, RevertTx, Applied, WaitingOwners, TxOk, Inverse, RefSet, PutBack,
         Reverted, NewOutputs, OwnersApart, ProducedAt, Reserved;
    NewOutputsOf(s, tx);
    HomesApart(s, s1, f1, RefSet(tx.inputs), later, tx.produced);
    RevertOne(f1, tx);
    RevertRollback(f1, RevertTx(f1, tx), RefSet(tx.inputs), tx.produced);
    PutBackFrom(s, s1, f1, RevertTx(f1, tx), RefSet(tx.inputs), later, tx.produced);
  }
}
