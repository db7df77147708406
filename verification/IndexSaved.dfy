/**
 The saved file: what is written after every change, and what a restart makes of it.
 */
module IndexSaved {
  import opened Bytes
  import opened Ledger
  import opened AccountStores
  import opened AccountIndexes
  import opened IndexInvariant
  import opened IndexStores
  import opened IndexPlanning

  datatype SavedStore = SavedStore(account: AccountId, root: Hash32, leaves: seq<LeafSnapshot>)
  datatype SavedPlan = SavedPlan(account: AccountId, oldRef: OutputRef, root: Hash32, leaves: seq<LeafSnapshot>)
  datatype Saved = Saved(stores: map<OutputRef, SavedStore>, plans: map<SnapshotId, SavedPlan>, next: SnapshotId)

  const EMPTY_FILE := Saved(map[], map[], 0)

  // ----- writing -----

  function SaveStore(id: AccountId, store: Store): SavedStore {
    SavedStore(id, store.root, SnapshotLeaves(store))
  }

  function CurrentRefs(accounts: Accounts): set<OutputRef> {
    set id | id in accounts :: accounts[id].utxo.ref
  }

  // The account current at an output.  Two accounts at one output, which no reachable state has, would be
  // written in no particular order; here the smallest id is taken.
  function OwnerAt(accounts: Accounts, r: OutputRef): (id: AccountId)
    requires r in CurrentRefs(accounts)
    ensures id in accounts && accounts[id].utxo.ref == r
  {
    var owners := set id | id in accounts && accounts[id].utxo.ref == r;
    assert owners != {} by {
      var id :| id in accounts && accounts[id].utxo.ref == r;
      assert id in owners;
    }
    Smallest(owners)
  }

  // Current accounts by their output, then the stores still waiting to be restored; a later entry with
  // the same output wins.
  function Kept(s: Index): map<OutputRef, (AccountId, Store)> {
    (map r | r in CurrentRefs(s.byAccount) ::
      (OwnerAt(s.byAccount, r), s.byAccount[OwnerAt(s.byAccount, r)].store)) + s.persisted
  }

  function SaveStores(stores: map<OutputRef, (AccountId, Store)>): map<OutputRef, SavedStore> {
    map r | r in stores :: SaveStore(stores[r].0, stores[r].1)
  }

  function SavePlans(plans: map<SnapshotId, PendingStore>): map<SnapshotId, SavedPlan> {
    map n | n in plans ::
      SavedPlan(plans[n].account, plans[n].oldRef, plans[n].store.root, SnapshotLeaves(plans[n].store))
  }

  function Save(s: Index): Saved {
    Saved(SaveStores(Kept(s)), SavePlans(s.plans), s.nextId)
  }

  // Only current accounts, waiting stores, plans and the id counter are written.
  lemma SaveReads(s: Index, s': Index)
    requires s'.byAccount == s.byAccount && s'.persisted == s.persisted && s'.plans == s.plans && s'.nextId == s.nextId
    ensures Save(s') == Save(s)
  {
    hide OwnerAt, SaveStores, SavePlans;
  }

  lemma KeptOf(s: Index)
    requires Inverse(s.byAccount, s.byRef)
    ensures Kept(s).Keys == s.byRef.Keys + s.persisted.Keys
    ensures forall r :: r in Kept(s) ==>
      Kept(s)[r] == if r in s.persisted then s.persisted[r] else (s.byRef[r], s.byAccount[s.byRef[r]].store)
  {
    assert CurrentRefs(s.byAccount) == s.byRef.Keys;
    forall r | r in s.byRef
      ensures r in CurrentRefs(s.byAccount) && OwnerAt(s.byAccount, r) == s.byRef[r]
    {
      var id := OwnerAt(s.byAccount, r);
      assert s.byRef[s.byAccount[id].utxo.ref] == id;
    }
    hide Inverse, CurrentRefs, OwnerAt;
  }

  // ----- loading -----

  ghost predicate Loadable(cx: Cx, root: Hash32, leaves: seq<LeafSnapshot>) {
    InjectiveOn(cx.h, Collected(leaves).Keys) && FromSnapshot(cx, root, leaves).Success?
  }

  ghost function Loaded(cx: Cx, root: Hash32, leaves: seq<LeafSnapshot>): Store
    requires Loadable(cx, root, leaves)
  {
    FromSnapshot(cx, root, leaves).value
  }

  ghost predicate AllLoadable(cx: Cx, saved: Saved) {
    && (forall r :: r in saved.stores ==> Loadable(cx, saved.stores[r].root, saved.stores[r].leaves))
    && (forall n :: n in saved.plans ==> Loadable(cx, saved.plans[n].root, saved.plans[n].leaves))
  }

  ghost function LoadStores(cx: Cx, saved: Saved): map<OutputRef, (AccountId, Store)>
    requires AllLoadable(cx, saved)
  {
    map r | r in saved.stores :: (saved.stores[r].account, Loaded(cx, saved.stores[r].root, saved.stores[r].leaves))
  }

  ghost function LoadPlans(cx: Cx, saved: Saved): map<SnapshotId, PendingStore>
    requires AllLoadable(cx, saved)
  {
    map n | n in saved.plans ::
      PendingStore(saved.plans[n].account, saved.plans[n].oldRef,
        Loaded(cx, saved.plans[n].root, saved.plans[n].leaves))
  }

  // `next` is the saved counter or one past the largest id, whichever is larger.
  ghost predicate NextAfter(ids: set<SnapshotId>, saved: SnapshotId, next: SnapshotId) {
    && saved <= next && (forall n :: n in ids ==> n < next)
    && (next == saved || (next > 0 && next - 1 in ids))
  }

  // A fresh index over the saved stores; when any of them does not load, nothing is taken over.
  ghost predicate IsLoaded(cx: Cx, saved: Saved, s: Index) {
    if AllLoadable(cx, saved) then
      && s == EMPTY_INDEX.(persisted := LoadStores(cx, saved), plans := LoadPlans(cx, saved), nextId := s.nextId)
      && NextAfter(s.plans.Keys, saved.next, s.nextId)
    else s == EMPTY_INDEX
  }

  lemma SavedLoads(cx: Cx, store: Store)
    requires Consistent(cx, store)
    ensures Loadable(cx, store.root, SnapshotLeaves(store)) && Loaded(cx, store.root, SnapshotLeaves(store)) == store
  {
    SnapshotRoundTrip(cx, store);
    hide SnapshotLeaves, Collected;
  }

  lemma SavesLoad(
    cx: Cx, stores: map<OutputRef, (AccountId, Store)>, plans: map<SnapshotId, PendingStore>, saved: Saved)
    requires forall r :: r in stores ==> Consistent(cx, stores[r].1)
    requires forall n :: n in plans ==> Consistent(cx, plans[n].store)
    requires saved.stores == SaveStores(stores) && saved.plans == SavePlans(plans)
    ensures AllLoadable(cx, saved) && LoadStores(cx, saved) == stores && LoadPlans(cx, saved) == plans
  {
    hide Loadable, Loaded, SnapshotLeaves, Consistent;
    forall r | r in stores
      ensures Loadable(cx, saved.stores[r].root, saved.stores[r].leaves)
      ensures Loaded(cx, saved.stores[r].root, saved.stores[r].leaves) == stores[r].1
    {
      SavedLoads(cx, stores[r].1);
    }
    forall n | n in plans
      ensures Loadable(cx, saved.plans[n].root, saved.plans[n].leaves)
      ensures Loaded(cx, saved.plans[n].root, saved.plans[n].leaves) == plans[n].store
    {
      SavedLoads(cx, plans[n].store);
    }
  }

  lemma KeptConsistent(cx: Cx, s: Index)
    requires Inverse(s.byAccount, s.byRef) && Stores(cx, s)
    ensures forall r :: r in Kept(s) ==> Consistent(cx, Kept(s)[r].1)
  {
    KeptOf(s);
    hide Consistent, Kept;
  }

  // What the saved file of a valid state holds.
  lemma SavedHolds(cx: Cx, s: Index)
    requires Valid(s) && Stores(cx, s)
    ensures AllLoadable(cx, Save(s)) && LoadStores(cx, Save(s)) == Kept(s) && LoadPlans(cx, Save(s)) == s.plans
  {
    KeptConsistent(cx, s);
    hide Kept, SaveStores, SavePlans, AllLoadable, LoadStores, LoadPlans, Consistent, Valid;
    SavesLoad(cx, Kept(s), s.plans, Save(s));
  }

  lemma NextOfValid(s: Index)
    requires Valid(s)
    ensures forall next :: NextAfter(s.plans.Keys, s.nextId, next) <==> next == s.nextId
  {
    PlansOfValid(s);
    hide Inverse, Apart, OwnKeys, DatumRoots;
  }

  // A restart from the saved file of a valid state keeps the stores of current accounts, the stores still waiting,
  // the plans and the id counter.
  lemma RestartRestores(cx: Cx, s: Index, s': Index)
    requires Valid(s) && Stores(cx, s)
    ensures IsLoaded(cx, Save(s), s') <==>
      s' == EMPTY_INDEX.(persisted := Kept(s), plans := s.plans, nextId := s.nextId)
  {
    hide Kept, SaveStores, SavePlans, AllLoadable, LoadStores, LoadPlans, Valid, Stores, NextAfter;
    SavedHolds(cx, s);
    NextOfValid(s);
  }

  lemma KeptOfNone(s: Index)
    requires s.byAccount == map[]
    ensures Kept(s) == s.persisted
  {
    assert CurrentRefs(s.byAccount) == {};
    hide OwnerAt;
  }

  lemma NothingSaved()
    ensures SaveStores(map[]) == map[]
  {
  }

  lemma NoPlansSaved()
    ensures SavePlans(map[]) == map[]
  {
  }

  lemma SavesNothing(s: Index)
    requires s.byAccount == map[] && s.persisted == map[] && s.plans == map[]
    ensures Save(s) == Saved(map[], map[], s.nextId)
  {
    hide Kept, SaveStores, SavePlans;
    KeptOfNone(s);
    NothingSaved();
    NoPlansSaved();
  }

  // Saving what was loaded would write the same file.
  lemma SavedAgain(cx: Cx, s: Index, s': Index)
    requires Valid(s) && Stores(cx, s) && IsLoaded(cx, Save(s), s')
    ensures Save(s') == Save(s)
  {
    hide IsLoaded, SaveStores, SavePlans, Valid, Stores, Kept;
    RestartRestores(cx, s, s');
    KeptOfNone(s');
  }

  // A plan that is awaited survives a restart: the transaction binds its account all the same.
  lemma PlanOutlivesRestart(
    cx: Cx, s: Index, s': Index, n: SnapshotId, consumed: set<OutputRef>, produced: seq<Utxo>, i: nat)
    requires Valid(s) && Stores(cx, s) && IsLoaded(cx, Save(s), s')
    requires Awaited(s, consumed, produced, n, i) && AllFresh(s, produced)
    ensures Fulfilled(s, ObserveTransaction(s', consumed, produced), n, produced[i])
  {
    RestartRestores(cx, s, s');
    KeptOf(s);
    hide IsLoaded, Save, Kept, Stores, Valid, Foresees, ObserveTransaction;
    forall k | i < k < |produced|
      ensures !Foresees(s', produced[k].ref, s.plans[n].account)
    {
      if Foresees(s', produced[k].ref, s.plans[n].account) {
        ForeseenBefore(s, s', produced[k].ref, s.plans[n].account);
      }
    }
    PlanIsConfirmed(s', n, consumed, produced, i);
  }

  lemma ForeseenBefore(s: Index, s': Index, ref: OutputRef, a: AccountId)
    requires s' == EMPTY_INDEX.(persisted := s'.persisted, plans := s.plans, nextId := s.nextId) && ref !in s.byRef
    requires s'.persisted.Keys == s.byRef.Keys + s.persisted.Keys
    requires forall r :: r in s.persisted ==> s'.persisted[r] == s.persisted[r]
    requires Foresees(s', ref, a)
    ensures Foresees(s, ref, a)
  {
  }
}
