/**
 What observing a transaction does bind: the successor of a spent account, and an account whose store has waited since
 a restart.
 */
module IndexObserved {
  import opened Ledger
  import opened AccountStores
  import opened AccountIndexes
  import opened IndexInvariant
  import opened IndexStores
  import opened IndexPlanning
  import opened IndexSaved
  import opened IndexRuns

  // ----- one produced output -----

  // No single spent account can continue at this output.
  ghost predicate NoSuccessor(owners: set<AccountId>, utxo: Utxo) {
    |owners| != 1 || utxo.output.storeRoot != EMPTY_STORE.root
  }

  lemma ProducedIsCreated(s: Index, consumed: set<OutputRef>, owners: set<AccountId>, utxo: Utxo)
    requires NoPlanOn(s, consumed) && NoSuccessor(owners, utxo)
    ensures ObserveProduced(s, consumed, owners, utxo) == ObserveCreated(s, utxo)
  {
    hide ObserveCreated, BindIndexed;
    assert Matching(s, consumed, utxo.output.storeRoot) == {};
  }

  lemma ProducedIsSuccessor(s: Index, consumed: set<OutputRef>, a: AccountId, utxo: Utxo)
    requires NoPlanOn(s, consumed) && a in s.pending && utxo.output.storeRoot == EMPTY_STORE.root
    ensures ObserveProduced(s, consumed, {a}, utxo) == BindIndexed(s, a, Indexed(utxo, EMPTY_STORE))
  {
    hide ObserveCreated, BindIndexed;
    assert Matching(s, consumed, utxo.output.storeRoot) == {};
  }

  // `s'` holds at `r` what `s` does.
  ghost predicate SameAt(s: Index, s': Index, r: OutputRef) {
    && (r in s'.persisted <==> r in s.persisted) && (r in s.persisted ==> s'.persisted[r] == s.persisted[r])
    && (r in s'.predicted <==> r in s.predicted) && (r in s.predicted ==> s'.predicted[r] == s.predicted[r])
    && (r in s'.unbound <==> r in s.unbound) && (r in s.unbound ==> s'.unbound[r] == s.unbound[r])
  }

  // Nothing is changed at another output, and a pending account stays so unless it is bound at this one.
  ghost predicate Local(s: Index, s': Index, utxo: Utxo) {
    && (forall r :: r != utxo.ref ==> SameAt(s, s', r))
    && (forall a :: a in s.pending ==> a in s'.pending || (a in s'.byAccount && s'.byAccount[a].utxo == utxo))
  }

  // Only plans, and a prediction or a waiting store at `ref`, are gone.
  ghost predicate Cleared(s: Index, s1: Index, ref: OutputRef) {
    && s1.pending == s.pending && s1.unbound == s.unbound
    && (s1.persisted == s.persisted || s1.persisted == s.persisted - {ref})
    && (s1.predicted == s.predicted || s1.predicted == s.predicted - {ref})
  }

  lemma BoundLocal(s: Index, s1: Index, a: AccountId, ix: Indexed)
    requires Cleared(s, s1, ix.utxo.ref)
    ensures Local(s, BindIndexed(s1, a, ix), ix.utxo)
  {
  }

  lemma UnboundLocal(s: Index, s1: Index, utxo: Utxo)
    requires Cleared(s, s1, utxo.ref)
    ensures Local(s, s1.(unbound := s1.unbound[utxo.ref := utxo]), utxo) && Local(s, s1, utxo)
  {
  }

  lemma PredictedLocal(s: Index, s1: Index, utxo: Utxo)
    requires Cleared(s, s1, utxo.ref) && BindPredicted(s1, utxo).Some?
    ensures Local(s, BindPredicted(s1, utxo).value, utxo)
  {
    hide BindIndexed, Local;
    var n := s1.planByRef[utxo.ref];
    var s2 := s1.(plans := s1.plans - {n}, planByRef := s1.planByRef - {utxo.ref});
    BoundLocal(s, s2, s1.plans[n].account, Indexed(utxo, s1.plans[n].store));
  }

  lemma ObservedLocal(s: Index, s1: Index, a: AccountId, utxo: Utxo)
    requires Cleared(s, s1, utxo.ref)
    ensures Local(s, BindObserved(s1, a, utxo), utxo)
  {
    hide BindIndexed, Local;
    UnboundLocal(s, s1, utxo);
    BoundLocal(s, s1, a, Indexed(utxo, EMPTY_STORE));
  }

  lemma CreatedLocal(s: Index, utxo: Utxo)
    ensures Local(s, ObserveCreated(s, utxo), utxo)
  {
    hide BindIndexed, BindPredicted, BindObserved, Local;
    if utxo.ref in s.predicted {
      var s1 := s.(predicted := s.predicted - {utxo.ref});
      if BindPredicted(s1, utxo).Some? {
        PredictedLocal(s, s1, utxo);
      } else {
        ObservedLocal(s, s1, s.predicted[utxo.ref].0, utxo);
      }
    } else if utxo.ref in s.planByRef {
      if BindPredicted(s, utxo).Some? { PredictedLocal(s, s, utxo); } else { UnboundLocal(s, s, utxo); }
    } else if utxo.ref in s.persisted && s.persisted[utxo.ref].1.root == utxo.output.storeRoot {
      var (id, store) := s.persisted[utxo.ref];
      BoundLocal(s, s.(persisted := s.persisted - {utxo.ref}), id, Indexed(utxo, store));
    } else {
      UnboundLocal(s, s, utxo);
    }
  }

  lemma ConfirmedLocal(s: Index, consumed: set<OutputRef>, utxo: Utxo)
    requires BindConfirmed(s, consumed, utxo).Some?
    ensures Local(s, BindConfirmed(s, consumed, utxo).value, utxo)
  {
    hide BindIndexed, Local, Unanimous;
    var ids := Matching(s, consumed, utxo.output.storeRoot);
    forall n | n in ids
      ensures Local(s, BindIndexed(WithoutPlans(s, ids), s.plans[n].account, Indexed(utxo, s.plans[n].store)), utxo)
    {
      BoundLocal(s, WithoutPlans(s, ids), s.plans[n].account, Indexed(utxo, s.plans[n].store));
    }
  }

  lemma SuccessorLocal(s: Index, owners: set<AccountId>, utxo: Utxo)
    requires BindEmptySuccessor(s, owners, utxo).Some?
    ensures Local(s, BindEmptySuccessor(s, owners, utxo).value, utxo)
  {
    hide BindIndexed, Local;
    forall a | a in owners
      ensures Local(s, BindIndexed(s, a, Indexed(utxo, EMPTY_STORE)), utxo)
    {
      BoundLocal(s, s, a, Indexed(utxo, EMPTY_STORE));
    }
  }

  lemma ProducedLocal(s: Index, consumed: set<OutputRef>, owners: set<AccountId>, utxo: Utxo)
    ensures Local(s, ObserveProduced(s, consumed, owners, utxo), utxo)
  {
    hide Local, BindConfirmed, BindEmptySuccessor, ObserveCreated;
    if BindConfirmed(s, consumed, utxo).Some? {
      ConfirmedLocal(s, consumed, utxo);
    } else if BindEmptySuccessor(s, owners, utxo).Some? {
      SuccessorLocal(s, owners, utxo);
    } else {
      CreatedLocal(s, utxo);
    }
  }

  // ----- all outputs of a transaction -----

  ghost predicate RefsApart(produced: seq<Utxo>) {
    forall i, k :: 0 <= i < k < |produced| ==> produced[i].ref != produced[k].ref
  }

  // The index once the first `j` outputs are observed.
  ghost function Upto(s: Index, consumed: set<OutputRef>, owners: set<AccountId>, produced: seq<Utxo>, j: nat): Index
    requires j <= |produced|
  {
    ObserveAllProduced(s, consumed, owners, produced[..j])
  }

  lemma UptoNext(s: Index, consumed: set<OutputRef>, owners: set<AccountId>, produced: seq<Utxo>, j: nat)
    requires j < |produced|
    ensures Upto(s, consumed, owners, produced, j + 1) ==
      ObserveProduced(Upto(s, consumed, owners, produced, j), consumed, owners, produced[j])
  {
    hide ObserveProduced;
    assert produced[..j + 1][..j] == produced[..j];
  }

  lemma UptoAll(s: Index, consumed: set<OutputRef>, produced: seq<Utxo>)
    ensures Upto(ConsumeAll(s, consumed), consumed, Owners(s, consumed), produced, |produced|) ==
      ObserveTransaction(s, consumed, produced)
  {
    assert produced[..|produced|] == produced;
  }

  lemma {:induction false} UptoNarrower(
    s: Index, consumed: set<OutputRef>, owners: set<AccountId>, produced: seq<Utxo>, i: nat, j: nat)
    requires i <= j <= |produced|
    ensures Narrower(Upto(s, consumed, owners, produced, i), Upto(s, consumed, owners, produced, j))
    decreases j
  {
    hide Upto, ObserveProduced, Narrower, BoundAt, OtherPlansStay, Planner, Foresees;
    var si := Upto(s, consumed, owners, produced, i);
    if i == j {
      NarrowerSelf(si);
    } else {
      UptoNarrower(s, consumed, owners, produced, i, j - 1);
      UptoNext(s, consumed, owners, produced, j - 1);
      var sj := Upto(s, consumed, owners, produced, j - 1);
      var _ := ProducedBinds(sj, consumed, owners, produced[j - 1]);
      NarrowerTransitive(si, sj, Upto(s, consumed, owners, produced, j));
    }
  }

  // Outputs `i` to `j` leave alone what is filed at another one.
  lemma {:induction false} UptoElsewhere(
    s: Index, consumed: set<OutputRef>, owners: set<AccountId>, produced: seq<Utxo>, i: nat, j: nat, r: OutputRef)
    requires i <= j <= |produced| && forall k :: i <= k < j ==> produced[k].ref != r
    ensures SameAt(Upto(s, consumed, owners, produced, i), Upto(s, consumed, owners, produced, j), r)
    decreases j
  {
    hide Upto, ObserveProduced;
    if i < j {
      assert produced[j - 1].ref != r;
      UptoElsewhere(s, consumed, owners, produced, i, j - 1, r);
      UptoNext(s, consumed, owners, produced, j - 1);
      var sj := Upto(s, consumed, owners, produced, j - 1);
      ProducedLocal(sj, consumed, owners, produced[j - 1]);
      assert SameAt(sj, Upto(s, consumed, owners, produced, j), r);
    }
  }

  // The account is current as `ix` and waits for nothing.
  ghost predicate Settled(s: Index, a: AccountId, ix: Indexed) {
    a in s.byAccount && s.byAccount[a] == ix && a !in s.pending
  }

  lemma StaysSettled(s: Index, consumed: set<OutputRef>, owners: set<AccountId>, utxo: Utxo, a: AccountId, ix: Indexed)
    requires Settled(s, a, ix) && !Planner(s, consumed, a) && !Foresees(s, utxo.ref, a)
    ensures Settled(ObserveProduced(s, consumed, owners, utxo), a, ix)
  {
    hide ObserveProduced, Planner, Foresees, Narrower, OtherPlansStay, BoundAt;
    var x := ProducedBinds(s, consumed, owners, utxo);
    if x.Some? { BoundStands(s, ObserveProduced(s, consumed, owners, utxo), x.value, utxo); }
  }

  // Once bound at output `i`, an account that no later output is foreseen for stays there.
  lemma {:induction false} UptoSettled(
    s: Index, consumed: set<OutputRef>, owners: set<AccountId>, produced: seq<Utxo>, i: nat, j: nat, a: AccountId,
    ix: Indexed)
    requires i <= j <= |produced| && Settled(Upto(s, consumed, owners, produced, i), a, ix) && NoPlanOn(s, consumed)
    requires forall k :: i <= k < |produced| ==> !Foresees(s, produced[k].ref, a)
    ensures Settled(Upto(s, consumed, owners, produced, j), a, ix)
    decreases j
  {
    hide Upto, ObserveProduced, Foresees, Narrower;
    if i < j {
      UptoSettled(s, consumed, owners, produced, i, j - 1, a, ix);
      UptoNext(s, consumed, owners, produced, j - 1);
      var sj := Upto(s, consumed, owners, produced, j - 1);
      FromStart(s, consumed, owners, produced, j - 1);
      NoPlanner(s, sj, consumed, a);
      if Foresees(sj, produced[j - 1].ref, a) { LessForeseen(s, sj, produced[j - 1].ref, a); }
      StaysSettled(sj, consumed, owners, produced[j - 1], a, ix);
    }
  }

  lemma FromStart(s: Index, consumed: set<OutputRef>, owners: set<AccountId>, produced: seq<Utxo>, j: nat)
    requires j <= |produced|
    ensures Narrower(s, Upto(s, consumed, owners, produced, j))
  {
    UptoNarrower(s, consumed, owners, produced, 0, j);
    assert produced[..0] == [];
  }

  lemma NoPlanner(s: Index, s': Index, consumed: set<OutputRef>, a: AccountId)
    requires Narrower(s, s') && NoPlanOn(s, consumed)
    ensures NoPlanOn(s', consumed) && !Planner(s', consumed, a)
  {
  }

  lemma ConsumedNarrower(s: Index, consumed: set<OutputRef>)
    ensures Narrower(s, ConsumeAll(s, consumed))
    ensures NoPlanOn(s, consumed) ==> NoPlanOn(ConsumeAll(s, consumed), consumed)
  {
    hide Owners;
  }

  // ----- the successor of a spent account -----

  // One account owns what is spent, no plan waits on it, output `i` is the first with the empty root, and no other
  // output is foreseen for the account.
  ghost predicate Succeeds(s: Index, consumed: set<OutputRef>, produced: seq<Utxo>, a: AccountId, i: nat) {
    && Owners(s, consumed) == {a} && NoPlanOn(s, consumed)
    && i < |produced| && produced[i].output.storeRoot == EMPTY_STORE.root
    && (forall k :: 0 <= k < i ==> produced[k].output.storeRoot != EMPTY_STORE.root)
    && (forall k :: 0 <= k < |produced| && k != i ==> !Foresees(s, produced[k].ref, a))
  }

  ghost predicate Awaits(s: Index, a: AccountId) {
    a in s.pending && a !in s.byAccount
  }

  lemma AwaitsStill(s: Index, utxo: Utxo, a: AccountId)
    requires Awaits(s, a) && !Foresees(s, utxo.ref, a)
    ensures Awaits(ObserveCreated(s, utxo), a)
  {
    CreatedLocal(s, utxo);
    hide ObserveCreated, SameAt, Foresees, Narrower, OtherPlansStay, BoundAt;
    var x := CreatedBinds(s, utxo);
    if x.Some? { BoundStands(s, ObserveCreated(s, utxo), x.value, utxo); }
  }

  // Before the first output with the empty root the account waits.
  lemma {:induction false} UptoAwaits(
    s: Index, consumed: set<OutputRef>, produced: seq<Utxo>, a: AccountId, i: nat, j: nat)
    requires j <= i <= |produced| && Awaits(s, a) && NoPlanOn(s, consumed)
    requires forall k :: 0 <= k < i ==>
      produced[k].output.storeRoot != EMPTY_STORE.root && !Foresees(s, produced[k].ref, a)
    ensures Awaits(Upto(s, consumed, {a}, produced, j), a)
    decreases j
  {
    if j == 0 {
      assert produced[..0] == [];
    } else {
      UptoAwaits(s, consumed, produced, a, i, j - 1);
      hide Upto, ObserveProduced, ObserveCreated, Foresees, Narrower;
      var sj := Upto(s, consumed, {a}, produced, j - 1);
      UptoNext(s, consumed, {a}, produced, j - 1);
      FromStart(s, consumed, {a}, produced, j - 1);
      NoPlanner(s, sj, consumed, a);
      ProducedIsCreated(sj, consumed, {a}, produced[j - 1]);
      if Foresees(sj, produced[j - 1].ref, a) { LessForeseen(s, sj, produced[j - 1].ref, a); }
      AwaitsStill(sj, produced[j - 1], a);
    }
  }

  lemma BoundSettles(s: Index, a: AccountId, ix: Indexed)
    ensures Settled(BindIndexed(s, a, ix), a, ix)
  {
  }

  // A spent account continues, with an empty store, at the first output with the empty root.
  lemma SuccessorContinues(s: Index, consumed: set<OutputRef>, produced: seq<Utxo>, a: AccountId, i: nat)
    requires Succeeds(s, consumed, produced, a, i)
    ensures Settled(ObserveTransaction(s, consumed, produced), a, Indexed(produced[i], EMPTY_STORE))
  {
    var s1 := ConsumeAll(s, consumed);
    assert Awaits(s1, a);
    ConsumedNarrower(s, consumed);
    hide Upto, ObserveProduced, ObserveTransaction, Foresees, Narrower, ConsumeAll, BindIndexed;
    forall k | 0 <= k < |produced| && k != i
      ensures !Foresees(s1, produced[k].ref, a)
    {
      if Foresees(s1, produced[k].ref, a) { LessForeseen(s, s1, produced[k].ref, a); }
    }
    UptoAwaits(s1, consumed, produced, a, i, i);
    var si, ix := Upto(s1, consumed, {a}, produced, i), Indexed(produced[i], EMPTY_STORE);
    FromStart(s1, consumed, {a}, produced, i);
    NoPlanner(s1, si, consumed, a);
    ProducedIsSuccessor(si, consumed, a, produced[i]);
    UptoNext(s1, consumed, {a}, produced, i);
    BoundSettles(si, a, ix);
    UptoSettled(s1, consumed, {a}, produced, i + 1, |produced|, a, ix);
    UptoAll(s, consumed, produced);
  }

  // ----- a store that waits -----

  // Output `i` is the only one at its reference, no plan waits on what is spent, and the spent account, if there is
  // one, cannot continue there: only what is filed at the output decides.
  ghost predicate Alone(s: Index, consumed: set<OutputRef>, produced: seq<Utxo>, i: nat) {
    && i < |produced| && NoPlanOn(s, consumed) && NoSuccessor(Owners(s, consumed), produced[i])
    && forall k :: 0 <= k < |produced| && k != i ==> produced[k].ref != produced[i].ref
  }

  // What output `i` finds filed at its reference is what was there before the transaction, and it is observed as
  // such.
  lemma AloneFinds(s: Index, consumed: set<OutputRef>, produced: seq<Utxo>, i: nat) returns (si: Index)
    requires Alone(s, consumed, produced, i)
    ensures si == Upto(ConsumeAll(s, consumed), consumed, Owners(s, consumed), produced, i)
    ensures Upto(ConsumeAll(s, consumed), consumed, Owners(s, consumed), produced, i + 1) ==
      ObserveCreated(si, produced[i])
    ensures SameAt(ConsumeAll(s, consumed), si, produced[i].ref) && Narrower(ConsumeAll(s, consumed), si)
  {
    ConsumedNarrower(s, consumed);
    hide Upto, ObserveProduced, ObserveCreated, ConsumeAll, Owners, SameAt;
    var s1, owners := ConsumeAll(s, consumed), Owners(s, consumed);
    si := Upto(s1, consumed, owners, produced, i);
    UptoNext(s1, consumed, owners, produced, i);
    FromStart(s1, consumed, owners, produced, i);
    ProducedIsCreated(si, consumed, owners, produced[i]);
    UptoElsewhere(s1, consumed, owners, produced, 0, i, produced[i].ref);
    UptoNone(s1, consumed, owners, produced);
  }

  lemma UptoNone(s: Index, consumed: set<OutputRef>, owners: set<AccountId>, produced: seq<Utxo>)
    ensures Upto(s, consumed, owners, produced, 0) == s
  {
    assert produced[..0] == [];
  }

  // The later outputs leave alone what is then filed there.
  lemma AloneStays(s: Index, consumed: set<OutputRef>, produced: seq<Utxo>, i: nat)
    requires Alone(s, consumed, produced, i)
    ensures
      var s' := Upto(ConsumeAll(s, consumed), consumed, Owners(s, consumed), produced, i + 1);
      SameAt(s', ObserveTransaction(s, consumed, produced), produced[i].ref)
  {
    hide Upto, ObserveTransaction, ConsumeAll, Owners, SameAt;
    UptoElsewhere(ConsumeAll(s, consumed), consumed, Owners(s, consumed), produced, i + 1, |produced|, produced[i].ref);
    UptoAll(s, consumed, produced);
  }

  // A waiting store is restored by an output with its root, and by no other.
  lemma WaitingHere(s: Index, utxo: Utxo)
    requires utxo.ref in s.persisted && utxo.ref !in s.predicted && utxo.ref !in s.planByRef
    ensures
      var (a, store) := s.persisted[utxo.ref];
      var s' := ObserveCreated(s, utxo);
      if store.root == utxo.output.storeRoot then
        Settled(s', a, Indexed(utxo, store)) && s'.persisted == s.persisted - {utxo.ref}
      else s' == s.(unbound := s.unbound[utxo.ref := utxo])
  {
  }

  // A store waits for output `i`, and nothing else of the transaction is foreseen for its account.
  ghost predicate WaitsAt(s: Index, consumed: set<OutputRef>, produced: seq<Utxo>, i: nat) {
    && Alone(s, consumed, produced, i)
    && produced[i].ref in s.persisted && produced[i].ref !in s.predicted && produced[i].ref !in s.planByRef
    && forall k :: 0 <= k < |produced| && k != i ==> !Foresees(s, produced[k].ref, s.persisted[produced[i].ref].0)
  }

  // An account whose store waits becomes current with it at the output it waits at, if the output has its root.
  lemma WaitingIsRestored(s: Index, consumed: set<OutputRef>, produced: seq<Utxo>, i: nat)
    requires WaitsAt(s, consumed, produced, i)
    requires s.persisted[produced[i].ref].1.root == produced[i].output.storeRoot
    ensures
      var (a, store) := s.persisted[produced[i].ref];
      var s' := ObserveTransaction(s, consumed, produced);
      Settled(s', a, Indexed(produced[i], store)) && produced[i].ref !in s'.persisted
  {
    var (a, store) := s.persisted[produced[i].ref];
    var s1, owners := ConsumeAll(s, consumed), Owners(s, consumed);
    var si := AloneFinds(s, consumed, produced, i);
    WaitingHere(si, produced[i]);
    AloneStays(s, consumed, produced, i);
    ConsumedNarrower(s, consumed);
    hide Upto, ObserveCreated, ObserveTransaction, Foresees, ConsumeAll, Owners;
    forall k | i < k < |produced|
      ensures !Foresees(s1, produced[k].ref, a)
    {
      if Foresees(s1, produced[k].ref, a) { LessForeseen(s, s1, produced[k].ref, a); }
    }
    hide Narrower;
    UptoSettled(s1, consumed, owners, produced, i + 1, |produced|, a, Indexed(produced[i], store));
    UptoAll(s, consumed, produced);
  }

  // An output with another root leaves the store waiting and the output unbound.
  lemma OtherRootWaits(s: Index, consumed: set<OutputRef>, produced: seq<Utxo>, i: nat)
    requires WaitsAt(s, consumed, produced, i)
    requires s.persisted[produced[i].ref].1.root != produced[i].output.storeRoot
    ensures
      var r, s' := produced[i].ref, ObserveTransaction(s, consumed, produced);
      && r in s'.persisted && s'.persisted[r] == s.persisted[r]
      && r in s'.unbound && s'.unbound[r] == produced[i]
  {
    var si := AloneFinds(s, consumed, produced, i);
    WaitingHere(si, produced[i]);
    AloneStays(s, consumed, produced, i);
    hide Upto, ObserveCreated, ObserveTransaction, Foresees, Owners;
  }

  // ----- after a restart -----

  // The account is current at an output under which no other store waits.
  ghost predicate SavedAt(s: Index, a: AccountId) {
    a in s.byAccount && s.byAccount[a].utxo.ref !in s.persisted
  }

  lemma RestartedWaits(cx: Cx, s: Index, s': Index, a: AccountId)
    requires Valid(s) && Stores(cx, s) && IsLoaded(cx, Save(s), s') && SavedAt(s, a)
    ensures
      var ix := s.byAccount[a];
      && s' == EMPTY_INDEX.(persisted := Kept(s), plans := s.plans, nextId := s.nextId)
      && ix.utxo.ref in s'.persisted && s'.persisted[ix.utxo.ref] == (a, ix.store)
      && ix.store.root == ix.utxo.output.storeRoot
  {
    RestartRestores(cx, s, s');
    KeptOf(s);
    hide IsLoaded, Save, Kept, Stores;
  }

  // The output of a current account is observed again after a restart, in a transaction that spends no planned
  // output and has nothing else for the account.
  ghost predicate SeenAgain(
    s: Index, s': Index, a: AccountId, consumed: set<OutputRef>, produced: seq<Utxo>, i: nat) {
    && SavedAt(s, a) && NoPlanOn(s, consumed) && RefsApart(produced) && i < |produced|
    && produced[i].ref == s.byAccount[a].utxo.ref
    && forall k :: 0 <= k < |produced| && k != i ==> !Foresees(s', produced[k].ref, a)
  }

  lemma SeenWaits(
    cx: Cx, s: Index, s': Index, a: AccountId, consumed: set<OutputRef>, produced: seq<Utxo>, i: nat)
    requires Valid(s) && Stores(cx, s) && IsLoaded(cx, Save(s), s') && SeenAgain(s, s', a, consumed, produced, i)
    ensures WaitsAt(s', consumed, produced, i) && s'.persisted[produced[i].ref] == (a, s.byAccount[a].store)
    ensures s.byAccount[a].store.root == s.byAccount[a].utxo.output.storeRoot
  {
    hide IsLoaded, Save, Kept, Stores, Valid, Foresees;
    RestartedWaits(cx, s, s', a);
    assert Owners(s', consumed) == {};
    assert NoPlanOn(s', consumed);
  }

  lemma RestartedValid(cx: Cx, s: Index, s': Index, consumed: set<OutputRef>, produced: seq<Utxo>)
    requires Valid(s) && Stores(cx, s) && IsLoaded(cx, Save(s), s') && RefsApart(produced)
    ensures Valid(ObserveTransaction(s', consumed, produced))
  {
    hide IsLoaded, Save, Stores, Valid, ObserveTransaction, Kept;
    RestartRestores(cx, s, s');
    assert AllFresh(s', produced);
    RestartKeeps(cx, s, s');
    TransactionKeeps(s', consumed, produced);
  }

  // Whoever was current before a restart is so again, with the same store, once the output is observed, and the
  // store no longer waits.
  lemma RestartedIsRestored(
    cx: Cx, s: Index, s': Index, a: AccountId, consumed: set<OutputRef>, produced: seq<Utxo>, i: nat)
    requires Valid(s) && Stores(cx, s) && IsLoaded(cx, Save(s), s') && SeenAgain(s, s', a, consumed, produced, i)
    requires produced[i] == s.byAccount[a].utxo
    ensures Settled(ObserveTransaction(s', consumed, produced), a, s.byAccount[a])
    ensures produced[i].ref !in ObserveTransaction(s', consumed, produced).persisted
  {
    hide IsLoaded, Save, Stores, Valid, SeenAgain, WaitsAt, ObserveTransaction;
    SeenWaits(cx, s, s', a, consumed, produced, i);
    WaitingIsRestored(s', consumed, produced, i);
  }

  // An output with another root at that reference binds nobody, and the store keeps waiting.
  lemma RestartedOtherRoot(
    cx: Cx, s: Index, s': Index, a: AccountId, consumed: set<OutputRef>, produced: seq<Utxo>, i: nat)
    requires Valid(s) && Stores(cx, s) && IsLoaded(cx, Save(s), s') && SeenAgain(s, s', a, consumed, produced, i)
    requires produced[i].output.storeRoot != s.byAccount[a].store.root
    ensures
      var r, s2 := produced[i].ref, ObserveTransaction(s', consumed, produced);
      && r in s2.persisted && s2.persisted[r] == (a, s.byAccount[a].store) && r !in s2.byRef
      && forall id :: id in s2.byAccount ==> s2.byAccount[id].utxo.ref != r
  {
    assert RefsApart(produced);
    hide IsLoaded, Save, Stores, SeenAgain, WaitsAt, ObserveTransaction;
    SeenWaits(cx, s, s', a, consumed, produced, i);
    OtherRootWaits(s', consumed, produced, i);
    RestartedValid(cx, s, s', consumed, produced);
  }
}
