/**
 The index as an object updated in place, with its file, and the handlers that feed it account events.
 Every method does to the object what the function of AccountIndexes does to the index value, and leaves
 the file holding what saving the new state writes.
 */
module AccountIndexObject {
  import opened Bytes
  import opened Ledger
  import opened Mpf
  import opened AccountStores
  import opened AccountIndexes
  import opened IndexInvariant
  import opened IndexStores
  import opened IndexPlanning
  import opened IndexSaved

  datatype GreenIntention = GreenIntention(
    inputAsset: Asset, outputAsset: Asset, leavingAmount: nat, expectedArrivingAmount: nat, feeLovelace: nat,
    targetNonceSlot: nat, targetNonceValue: nat, operatorKeyHash: Bytes)

  datatype GreenOrder = GreenOrder(
    id: OrderId, accountId: AccountId, currentRemainder: nat, accumulatedOutput: nat, intention: GreenIntention,
    proof: Proof)

  datatype Continuation = Continuation(order: GreenOrder, bearer: Utxo)

  function ContinuationOf(id: AccountId, ix: Indexed, leaf: StoredLeaf, proof: Proof): Continuation {
    var i := leaf.intent;
    Continuation(
      GreenOrder(leaf.orderId, id, i.leavingAmount, 0,
        GreenIntention(i.leavingAsset, i.arrivingAsset, i.leavingAmount, i.expectedArrivingAmount, i.feeLovelace,
          i.targetNonceIndex, i.targetNonceValue, i.operator),
        proof),
      ix.utxo)
  }

  // Some plan predicts another account or store.
  predicate Dissent(s: Index, ids: set<SnapshotId>, plan: PendingStore)
    requires ids <= s.plans.Keys
  {
    exists k :: k in ids && (s.plans[k].account != plan.account || s.plans[k].store != plan.store)
  }

  // Whichever matching plan comes first, the same account is bound to the same store, or none is.
  lemma AnyMatch(s: Index, consumed: set<OutputRef>, utxo: Utxo, n: SnapshotId)
    requires n in Matching(s, consumed, utxo.output.storeRoot)
    ensures BindConfirmed(s, consumed, utxo) ==
      var ids := Matching(s, consumed, utxo.output.storeRoot);
      if Dissent(s, ids, s.plans[n]) then None
      else Some(BindIndexed(WithoutPlans(s, ids), s.plans[n].account, Indexed(utxo, s.plans[n].store)))
  {
    hide BindIndexed;
  }

  predicate PendingLeaf(s: Store, key: Bytes) {
    key in s.leaves && s.leaves[key].status == Pending
  }

  // The order is the account's, for all that is left of the leaf: it gives the leaving asset for the arriving one.
  ghost predicate OrderOf(id: AccountId, leaf: StoredLeaf, order: GreenOrder) {
    var wanted, intent := order.intention, leaf.intent;
    && order.id == leaf.orderId && order.accountId == id
    && order.currentRemainder == intent.leavingAmount && order.accumulatedOutput == 0
    && wanted.inputAsset == intent.leavingAsset && wanted.outputAsset == intent.arrivingAsset
    && wanted.leavingAmount == intent.leavingAmount
    && wanted.expectedArrivingAmount == intent.expectedArrivingAmount
    && wanted.feeLovelace == intent.feeLovelace && wanted.operatorKeyHash == intent.operator
    && wanted.targetNonceSlot == intent.targetNonceIndex && wanted.targetNonceValue == intent.targetNonceValue
  }

  // The order continues the leaf at `key` of the account's output, with a proof against the root in its datum.
  ghost predicate Continuing(cx: Cx, id: AccountId, ix: Indexed, key: Bytes, c: Continuation) {
    && PendingLeaf(ix.store, key)
    && OrderOf(id, ix.store.leaves[key], c.order) && c.bearer == ix.utxo
    && Has(cx.h, ix.utxo.output.storeRoot, key, ix.store.leaves[key].digest, c.order.proof)
  }

  ghost predicate Continues(
    cx: Cx, accounts: map<AccountId, Indexed>, orders: seq<Continuation>, origins: seq<(AccountId, Bytes)>) {
    && |orders| == |origins|
    && forall i :: 0 <= i < |orders| ==>
      origins[i].0 in accounts && Continuing(cx, origins[i].0, accounts[origins[i].0], origins[i].1, orders[i])
  }

  ghost predicate NoRepeats<T>(s: seq<T>) {
    forall i, j :: 0 <= i < j < |s| ==> s[i] != s[j]
  }

  // The pending keys of a list, in its order.
  ghost function PendingKeys(s: Store, keys: seq<Bytes>): seq<Bytes> {
    if keys == [] then []
    else
      var last := |keys| - 1;
      PendingKeys(s, keys[..last]) + if PendingLeaf(s, keys[last]) then [keys[last]] else []
  }

  lemma {:induction false} PendingKeysOf(s: Store, keys: seq<Bytes>)
    requires NoRepeats(keys)
    ensures NoRepeats(PendingKeys(s, keys))
    ensures forall k :: k in PendingKeys(s, keys) <==> k in keys && PendingLeaf(s, k)
  {
    hide PendingLeaf;
    if keys != [] {
      var last := |keys| - 1;
      PendingKeysOf(s, keys[..last]);
      assert keys == keys[..last] + [keys[last]];
      assert keys[last] !in keys[..last];
    }
  }

  lemma ContinuationIs(id: AccountId, ix: Indexed, leaf: StoredLeaf, proof: Proof)
    ensures OrderOf(id, leaf, ContinuationOf(id, ix, leaf, proof).order)
    ensures ContinuationOf(id, ix, leaf, proof).bearer == ix.utxo
    ensures ContinuationOf(id, ix, leaf, proof).order.proof == proof
  {
  }

  lemma ContinuingLeaf(cx: Cx, id: AccountId, ix: Indexed, key: Bytes)
    requires Consistent(cx, ix.store) && DatumOf(ix)
    ensures PathProof(cx, ix.store, key).Success? <==> PendingLeaf(ix.store, key)
    ensures PendingLeaf(ix.store, key) ==>
      Continuing(cx, id, ix, key, ContinuationOf(id, ix, ix.store.leaves[key], PathProof(cx, ix.store, key).value))
  {
    PendingLeafHasProof(cx, ix.store, key);
    hide PathProof, Has, Consistent, ContinuationOf, OrderOf;
    if PendingLeaf(ix.store, key) {
      ContinuationIs(id, ix, ix.store.leaves[key], PathProof(cx, ix.store, key).value);
    }
  }

  method ContinueLeaf(cx: Cx, id: AccountId, ix: Indexed, key: Bytes) returns (c: Option<Continuation>)
    requires Consistent(cx, ix.store) && DatumOf(ix)
    ensures c.Some? <==> PendingLeaf(ix.store, key)
    ensures c.Some? ==> Continuing(cx, id, ix, key, c.value)
  {
    ContinuingLeaf(cx, id, ix, key);
    assert Usable(cx, ix.store);
    hide Consistent, DatumOf, PathProof, Continuing, ContinuationOf, Usable;
    var proof := ProvePath(cx, ix.store, key);
    if proof.Failure? { return None; }
    return Some(ContinuationOf(id, ix, ix.store.leaves[key], proof.value));
  }

  // The pending leaves of one account, in key order.
  method AccountContinuations(
    cx: Cx, id: AccountId, ix: Indexed) returns (orders: seq<Continuation>, ghost keys: seq<Bytes>)
    requires Consistent(cx, ix.store) && DatumOf(ix)
    ensures |orders| == |keys| && keys == PendingKeys(ix.store, SortedKeys(ix.store.leaves.Keys))
    ensures forall i :: 0 <= i < |keys| ==> Continuing(cx, id, ix, keys[i], orders[i])
  {
    hide Consistent, DatumOf, Continuing, SortedKeys, Ascending, PendingLeaf;
    var all := SortedKeys(ix.store.leaves.Keys);
    orders, keys := [], [];
    for i := 0 to |all|
      invariant |orders| == |keys| && keys == PendingKeys(ix.store, all[..i])
      invariant forall k :: 0 <= k < |keys| ==> Continuing(cx, id, ix, keys[k], orders[k])
    {
      var c := ContinueLeaf(cx, id, ix, all[i]);
      assert all[..i + 1][..i] == all[..i];
      if c.Some? {
        orders, keys := orders + [c.value], keys + [all[i]];
      }
    }
    assert all[..|all|] == all;
  }

  // The pending leaves of exactly these accounts.
  ghost predicate Covers(accounts: map<AccountId, Indexed>, done: set<AccountId>, origins: seq<(AccountId, Bytes)>)
    requires done <= accounts.Keys
  {
    forall id, key :: (id, key) in origins <==> id in done && PendingLeaf(accounts[id].store, key)
  }

  // The orders stand for the pending leaves of all accounts, each leaf exactly once.
  ghost predicate OnePerPendingLeaf(cx: Cx, accounts: map<AccountId, Indexed>, orders: seq<Continuation>) {
    exists origins :: Continues(cx, accounts, orders, origins) && NoRepeats(origins) &&
      Covers(accounts, accounts.Keys, origins)
  }

  ghost function Origins(id: AccountId, keys: seq<Bytes>): seq<(AccountId, Bytes)> {
    seq(|keys|, i requires 0 <= i < |keys| => (id, keys[i]))
  }

  lemma OriginsOf(id: AccountId, keys: seq<Bytes>)
    ensures forall a, k :: (a, k) in Origins(id, keys) <==> a == id && k in keys
  {
    forall k | k in keys
      ensures (id, k) in Origins(id, keys)
    {
      var i :| 0 <= i < |keys| && keys[i] == k;
      assert Origins(id, keys)[i] == (id, k);
    }
  }

  lemma AppendedContinues(
    cx: Cx, accounts: map<AccountId, Indexed>, orders: seq<Continuation>, origins: seq<(AccountId, Bytes)>,
    id: AccountId, more: seq<Continuation>, keys: seq<Bytes>)
    requires Continues(cx, accounts, orders, origins) && id in accounts && |more| == |keys|
    requires forall i :: 0 <= i < |keys| ==> Continuing(cx, id, accounts[id], keys[i], more[i])
    ensures Continues(cx, accounts, orders + more, origins + Origins(id, keys))
  {
    hide Continuing;
  }

  lemma AppendedNoRepeats(origins: seq<(AccountId, Bytes)>, id: AccountId, keys: seq<Bytes>)
    requires NoRepeats(origins) && NoRepeats(keys) && forall o :: o in origins ==> o.0 != id
    ensures NoRepeats(origins + Origins(id, keys))
  {
  }

  lemma AppendedPairs(origins: seq<(AccountId, Bytes)>, id: AccountId, keys: seq<Bytes>)
    ensures forall a, k :: (a, k) in origins + Origins(id, keys) <==> (a, k) in origins || (a == id && k in keys)
  {
    OriginsOf(id, keys);
    hide Origins;
  }

  lemma CoversOthers(
    accounts: map<AccountId, Indexed>, done: set<AccountId>, origins: seq<(AccountId, Bytes)>, id: AccountId)
    requires done <= accounts.Keys && id !in done && Covers(accounts, done, origins)
    ensures forall o :: o in origins ==> o.0 != id
  {
    hide PendingLeaf;
    forall o | o in origins
      ensures o.0 != id
    {
      assert (o.0, o.1) in origins;
    }
  }

  lemma AppendedCovers(
    accounts: map<AccountId, Indexed>, done: set<AccountId>, origins: seq<(AccountId, Bytes)>, id: AccountId,
    keys: seq<Bytes>)
    requires done <= accounts.Keys && id in accounts && id !in done && Covers(accounts, done, origins)
    requires NoRepeats(origins)
    requires keys == PendingKeys(accounts[id].store, SortedKeys(accounts[id].store.leaves.Keys))
    ensures Covers(accounts, done + {id}, origins + Origins(id, keys)) && NoRepeats(origins + Origins(id, keys))
  {
    PendingKeysOf(accounts[id].store, SortedKeys(accounts[id].store.leaves.Keys));
    CoversOthers(accounts, done, origins, id);
    assert forall k :: k in keys <==> PendingLeaf(accounts[id].store, k);
    hide PendingKeys, SortedKeys, Ascending, PendingLeaf, Origins, NoRepeats;
    AppendedNoRepeats(origins, id, keys);
    AppendedPairs(origins, id, keys);
  }

  lemma NothingYet(cx: Cx, accounts: map<AccountId, Indexed>)
    ensures Continues(cx, accounts, [], []) && Covers(accounts, {}, []) && NoRepeats<(AccountId, Bytes)>([])
  {
  }

  // ----- reading the file -----

  // The keys of every saved store have paths of their own; where they have not, the source stops.
  ghost predicate KeysApart(cx: Cx, file: Saved) {
    && (forall r :: r in file.stores ==> PathsApart(cx, file.stores[r].leaves))
    && (forall n :: n in file.plans ==> PathsApart(cx, file.plans[n].leaves))
  }

  ghost predicate PathsApart(cx: Cx, leaves: seq<LeafSnapshot>) {
    InjectiveOn(cx.h, Collected(leaves).Keys)
  }

  // A loaded store is the saved one.
  ghost predicate StoreRead(cx: Cx, from: SavedStore, to: (AccountId, Store)) {
    Loadable(cx, from.root, from.leaves) && to == (from.account, Loaded(cx, from.root, from.leaves))
  }

  ghost predicate PlanRead(cx: Cx, from: SavedPlan, to: PendingStore) {
    && Loadable(cx, from.root, from.leaves)
    && to == PendingStore(from.account, from.oldRef, Loaded(cx, from.root, from.leaves))
  }

  method ReadStore(cx: Cx, from: SavedStore) returns (to: Option<(AccountId, Store)>)
    requires PathsApart(cx, from.leaves)
    ensures to.Some? <==> Loadable(cx, from.root, from.leaves)
    ensures to.Some? ==> StoreRead(cx, from, to.value)
  {
    hide FromSnapshot;
    var store := LoadSnapshot(cx, from.root, from.leaves);
    to := if store.Success? then Some((from.account, store.value)) else None;
  }

  method ReadPlan(cx: Cx, from: SavedPlan) returns (to: Option<PendingStore>)
    requires PathsApart(cx, from.leaves)
    ensures to.Some? <==> Loadable(cx, from.root, from.leaves)
    ensures to.Some? ==> PlanRead(cx, from, to.value)
  {
    hide FromSnapshot;
    var store := LoadSnapshot(cx, from.root, from.leaves);
    to := if store.Success? then Some(PendingStore(from.account, from.oldRef, store.value)) else None;
  }

  // The saved stores, unless one of them does not load.
  method LoadAllStores(
    cx: Cx, stores: map<OutputRef, SavedStore>) returns (loaded: Option<map<OutputRef, (AccountId, Store)>>)
    requires forall r :: r in stores ==> PathsApart(cx, stores[r].leaves)
    ensures loaded.Some? <==> forall r :: r in stores ==> Loadable(cx, stores[r].root, stores[r].leaves)
    ensures loaded.Some? ==> loaded.value.Keys == stores.Keys
    ensures loaded.Some? ==> forall r :: r in stores ==> StoreRead(cx, stores[r], loaded.value[r])
  {
    hide PathsApart, Loadable, StoreRead;
    var todo, done := stores.Keys, map[];
    while todo != {}
      invariant todo <= stores.Keys && done.Keys == stores.Keys - todo
      invariant forall r :: r in done ==> Loadable(cx, stores[r].root, stores[r].leaves)
      invariant forall r :: r in done ==> StoreRead(cx, stores[r], done[r])
      decreases |todo|
    {
      var r :| r in todo;
      var store := ReadStore(cx, stores[r]);
      if store.None? { return None; }
      done := done[r := store.value];
      todo := todo - {r};
    }
    loaded := Some(done);
  }

  method LoadAllPlans(cx: Cx, plans: map<SnapshotId, SavedPlan>) returns (loaded: Option<map<SnapshotId, PendingStore>>)
    requires forall n :: n in plans ==> PathsApart(cx, plans[n].leaves)
    ensures loaded.Some? <==> forall n :: n in plans ==> Loadable(cx, plans[n].root, plans[n].leaves)
    ensures loaded.Some? ==> loaded.value.Keys == plans.Keys
    ensures loaded.Some? ==> forall n :: n in plans ==> PlanRead(cx, plans[n], loaded.value[n])
  {
    hide PathsApart, Loadable, PlanRead;
    var todo, done := plans.Keys, map[];
    while todo != {}
      invariant todo <= plans.Keys && done.Keys == plans.Keys - todo
      invariant forall n :: n in done ==> Loadable(cx, plans[n].root, plans[n].leaves)
      invariant forall n :: n in done ==> PlanRead(cx, plans[n], done[n])
      decreases |todo|
    {
      var n :| n in todo;
      var plan := ReadPlan(cx, plans[n]);
      if plan.None? { return None; }
      done := done[n := plan.value];
      todo := todo - {n};
    }
    loaded := Some(done);
  }

  // The saved counter, or one past the largest id when that is larger.
  method NextSnapshotId(ids: set<SnapshotId>, counter: SnapshotId) returns (next: SnapshotId)
    ensures NextAfter(ids, counter, next)
  {
    var todo := ids;
    next := counter;
    while todo != {}
      invariant todo <= ids && counter <= next && forall n :: n in ids && n !in todo ==> n < next
      invariant next == counter || (next > 0 && next - 1 in ids)
      decreases |todo|
    {
      var n :| n in todo;
      if n + 1 > next { next := n + 1; }
      todo := todo - {n};
    }
  }

  lemma StoresAreLoaded(cx: Cx, file: Saved, stores: map<OutputRef, (AccountId, Store)>)
    requires AllLoadable(cx, file) && stores.Keys == file.stores.Keys
    requires forall r :: r in file.stores ==> StoreRead(cx, file.stores[r], stores[r])
    ensures stores == LoadStores(cx, file)
  {
    hide Loadable, Loaded;
  }

  lemma PlansAreLoaded(cx: Cx, file: Saved, plans: map<SnapshotId, PendingStore>)
    requires AllLoadable(cx, file) && plans.Keys == file.plans.Keys
    requires forall n :: n in file.plans ==> PlanRead(cx, file.plans[n], plans[n])
    ensures plans == LoadPlans(cx, file)
  {
    hide Loadable, Loaded;
  }

  lemma LoadedFrom(
    cx: Cx, file: Saved, stores: map<OutputRef, (AccountId, Store)>, plans: map<SnapshotId, PendingStore>,
    next: SnapshotId)
    requires AllLoadable(cx, file) && stores == LoadStores(cx, file) && plans == LoadPlans(cx, file)
    requires NextAfter(plans.Keys, file.next, next)
    ensures IsLoaded(cx, file, EMPTY_INDEX.(persisted := stores, plans := plans, nextId := next))
  {
    hide LoadStores, LoadPlans, AllLoadable, NextAfter;
  }

  lemma NothingLoaded(cx: Cx, file: Saved)
    requires !AllLoadable(cx, file)
    ensures IsLoaded(cx, file, EMPTY_INDEX)
  {
  }

  method LoadPersistedStores(cx: Cx, file: Saved) returns (s: Index)
    requires KeysApart(cx, file)
    ensures IsLoaded(cx, file, s) && s == EMPTY_INDEX.(persisted := s.persisted, plans := s.plans, nextId := s.nextId)
  {
    hide Loadable, PathsApart, StoreRead, PlanRead, LoadStores, LoadPlans, IsLoaded, NextAfter;
    var stores := LoadAllStores(cx, file.stores);
    var plans := LoadAllPlans(cx, file.plans);
    assert AllLoadable(cx, file) <==> stores.Some? && plans.Some?;
    hide KeysApart;
    if stores.None? || plans.None? {
      hide AllLoadable;
      NothingLoaded(cx, file);
      return EMPTY_INDEX;
    }
    StoresAreLoaded(cx, file, stores.value);
    PlansAreLoaded(cx, file, plans.value);
    hide AllLoadable;
    var next := NextSnapshotId(plans.value.Keys, file.next);
    LoadedFrom(cx, file, stores.value, plans.value, next);
    return EMPTY_INDEX.(persisted := stores.value, plans := plans.value, nextId := next);
  }

  datatype PlannedDelta = PlannedDelta(delta: Delta, snapshot: SnapshotId)
  datatype PlannedCompletion = PlannedCompletion(proof: Proof, snapshot: SnapshotId)

  class AccountIndex {
    const cx: Cx
    var byAccount: map<AccountId, Indexed>
    var byRef: map<OutputRef, AccountId>
    var predicted: map<OutputRef, (AccountId, TxOut)>
    var unbound: map<OutputRef, Utxo>
    var persisted: map<OutputRef, (AccountId, Store)>
    var pending: set<AccountId>
    var rollback: map<OutputRef, (AccountId, Indexed)>
    var plans: map<SnapshotId, PendingStore>
    var planByRef: map<OutputRef, SnapshotId>
    var nextId: SnapshotId
    // The content of the file at the persistence path.
    var saved: Saved

    function State(): Index
      reads this
    {
      Index(byAccount, byRef, predicted, unbound, persisted, pending, rollback, plans, planByRef, nextId)
    }

    // The file holds what saving the state would write.
    ghost predicate Synced()
      reads this
    {
      saved == Save(State())
    }

    constructor (cx: Cx)
      ensures this.cx == cx && State() == EMPTY_INDEX && Synced()
    {
      this.cx := cx;
      byAccount, byRef, predicted, unbound, persisted := map[], map[], map[], map[], map[];
      pending, rollback, plans, planByRef, nextId := {}, map[], map[], map[], 0;
      saved := EMPTY_FILE;
      new;
      hide Save;
      SavesNothing(State());
    }

    // A new process over an existing file, which is only read here.
    constructor WithPersistencePath(cx: Cx, file: Saved)
      requires KeysApart(cx, file)
      ensures this.cx == cx && saved == file && IsLoaded(cx, file, State())
    {
      hide IsLoaded, KeysApart;
      var s := LoadPersistedStores(cx, file);
      this.cx := cx;
      byAccount, byRef, predicted, unbound := map[], map[], map[], map[];
      pending, rollback, planByRef := {}, map[], map[];
      persisted, plans, nextId := s.persisted, s.plans, s.nextId;
      saved := file;
    }

    method PersistAccountStores()
      modifies this`saved
      ensures Synced() && State() == old(State())
    {
      hide Save;
      saved := Save(State());
    }

    // ----- binding -----

    method BindIndexed(id: AccountId, ix: Indexed)
      modifies this
      ensures State() == AccountIndexes.BindIndexed(old(State()), id, ix) && Synced()
    {
      hide Save;
      if id in byAccount {
        byRef := byRef - {byAccount[id].utxo.ref};
      }
      byRef := byRef[ix.utxo.ref := id];
      byAccount := byAccount[id := ix];
      pending := pending - {id};
      unbound := unbound - {ix.utxo.ref};
      PersistAccountStores();
    }

    method BindObserved(id: AccountId, utxo: Utxo)
      requires Synced()
      modifies this
      ensures State() == AccountIndexes.BindObserved(old(State()), id, utxo) && Synced()
    {
      hide Save;
      match FromObservedRoot(utxo.output.storeRoot)
      case None => LeaveUnbound(utxo);
      case Some(store) => BindIndexed(id, Indexed(utxo, store));
    }

    // Unbound outputs are not saved.
    method LeaveUnbound(utxo: Utxo)
      requires Synced()
      modifies this`unbound
      ensures State() == old(State()).(unbound := old(unbound)[utxo.ref := utxo]) && Synced()
    {
      hide Save;
      unbound := unbound[utxo.ref := utxo];
      SaveReads(old(State()), State());
    }

    method BindExternalAccountIdOnce(id: AccountId, ref: OutputRef) returns (r: Result<Utxo, BindingError>)
      requires Synced()
      modifies this
      ensures Synced()
      ensures match BindOnce(old(State()), id, ref)
              case Success(s) => State() == s && r == Success(s.byAccount[id].utxo)
              case Failure(e) => State() == old(State()) && r == Failure(e)
    {
      hide Save;
      if id in byAccount || id in pending || Waits(State(), id) { return Failure(AlreadyBound); }
      if ref in byRef || ref in persisted { return Failure(OutputAlreadyBound); }
      if ref !in unbound { return Failure(OutputNotObserved); }
      var account := unbound[ref];
      unbound := unbound - {ref};
      match FromObservedRoot(account.output.storeRoot)
      case None =>
        unbound := unbound[ref := account];
        assert unbound == old(unbound);
        return Failure(NonEmptyUnplannedRoot);
      case Some(store) =>
        BindIndexed(id, Indexed(account, store));
        return Success(byAccount[id].utxo);
    }

    // ----- planning -----

    method CommitPlan(id: AccountId, oldRef: OutputRef, store: Store) returns (n: SnapshotId)
      modifies this
      ensures State() == Reserve(DropPlans(old(State()), id, oldRef), id, oldRef, store) && n == old(nextId)
      ensures Synced()
    {
      hide Save, DropPlans;
      RemovePendingSnapshotsFor(id, oldRef);
      n := ReservePredictedStoreSnapshot(id, oldRef, store);
    }

    method ReservePredictedStoreSnapshot(id: AccountId, oldRef: OutputRef, store: Store) returns (n: SnapshotId)
      modifies this
      ensures State() == Reserve(old(State()), id, oldRef, store) && n == old(nextId) && Synced()
    {
      hide Save;
      n := nextId;
      nextId := nextId + 1;
      byRef := byRef - {oldRef};
      MakePending(id, oldRef);
      plans := plans[n := PendingStore(id, oldRef, store)];
      PersistAccountStores();
    }

    // A current account is kept for rollback under the output it is spent at.
    method MakePending(id: AccountId, ref: OutputRef)
      modifies this`byAccount, this`rollback, this`pending
      ensures byAccount == old(byAccount) - {id} && pending == old(pending) + {id}
      ensures rollback == if id in old(byAccount) then old(rollback)[ref := (id, old(byAccount)[id])] else old(rollback)
    {
      if id in byAccount {
        rollback := rollback[ref := (id, byAccount[id])];
      }
      byAccount := byAccount - {id};
      pending := pending + {id};
    }

    // The file is written by the reservation that follows.
    method RemovePendingSnapshotsFor(id: AccountId, oldRef: OutputRef)
      modifies this`plans, this`planByRef
      ensures State() == DropPlans(old(State()), id, oldRef)
    {
      var removed := set n | n in plans && plans[n].account == id && plans[n].oldRef == oldRef;
      if removed == {} {
        assert plans - removed == plans;
        assert (map r | r in planByRef && planByRef[r] !in removed :: planByRef[r]) == planByRef;
        return;
      }
      RetirePlans(removed);
    }

    // A plan works on a copy of the base store; a refused plan leaves the index alone.
    method PlanSigInsert(id: AccountId, oldRef: OutputRef, order: OrderId, key: Bytes, intent: Intention)
      returns (r: Result<PlannedDelta, PlanningError>)
      requires StoreForPlanning(State(), id, oldRef).Some? ==> Usable(cx, StoreForPlanning(State(), id, oldRef).value)
      requires Synced()
      modifies this
      ensures Synced()
      ensures match Plan(cx, old(State()), id, oldRef, InsertOp(key, order, intent))
              case Refused(e) => r == Failure(e) && State() == old(State())
              case Planned(s, store, n) => (State() == s && r.Success? && r.value.snapshot == n &&
                Inserted(cx, StoreForPlanning(old(State()), id, oldRef).value, key, order, intent) ==
                  Success((store, r.value.delta)))
    {
      hide StoreForPlanning, Inserted, Updated, MarkedCompleted, Reserve, DropPlans, Save;
      var base := StoreForPlanning(State(), id, oldRef);
      if base.None? { return Failure(MissingAccount); }
      var predicted := new AccountStore.Clone(base.value);
      var delta := predicted.InsertRemaining(cx, key, order, intent);
      if delta.Failure? { return Failure(delta.error); }
      var n := CommitPlan(id, oldRef, predicted.State());
      return Success(PlannedDelta(delta.value, n));
    }

    method PlanPathUpdate(id: AccountId, oldRef: OutputRef, key: Bytes, oldDigest: Hash32, intent: Intention)
      returns (r: Result<PlannedDelta, PlanningError>)
      requires StoreForPlanning(State(), id, oldRef).Some? ==> Usable(cx, StoreForPlanning(State(), id, oldRef).value)
      requires Synced()
      modifies this
      ensures Synced()
      ensures match Plan(cx, old(State()), id, oldRef, UpdateOp(key, oldDigest, intent))
              case Refused(e) => r == Failure(e) && State() == old(State())
              case Planned(s, store, n) => (State() == s && r.Success? && r.value.snapshot == n &&
                Updated(cx, StoreForPlanning(old(State()), id, oldRef).value, key, oldDigest, intent) ==
                  Success((store, r.value.delta)))
    {
      hide StoreForPlanning, Inserted, Updated, MarkedCompleted, Reserve, DropPlans, Save;
      var base := StoreForPlanning(State(), id, oldRef);
      if base.None? { return Failure(MissingAccount); }
      var predicted := new AccountStore.Clone(base.value);
      var delta := predicted.UpdateRemaining(cx, key, oldDigest, intent);
      if delta.Failure? { return Failure(delta.error); }
      var n := CommitPlan(id, oldRef, predicted.State());
      return Success(PlannedDelta(delta.value, n));
    }

    method PlanPathCompletion(id: AccountId, oldRef: OutputRef, key: Bytes, oldDigest: Hash32)
      returns (r: Result<PlannedCompletion, PlanningError>)
      requires StoreForPlanning(State(), id, oldRef).Some? ==> Usable(cx, StoreForPlanning(State(), id, oldRef).value)
      requires Synced()
      modifies this
      ensures Synced()
      ensures match Plan(cx, old(State()), id, oldRef, CompleteOp(key, oldDigest))
              case Refused(e) => r == Failure(e) && State() == old(State())
              case Planned(s, store, n) => (State() == s && r.Success? && r.value.snapshot == n &&
                MarkedCompleted(cx, StoreForPlanning(old(State()), id, oldRef).value, key, oldDigest) ==
                  Success((store, r.value.proof)))
    {
      hide StoreForPlanning, Inserted, Updated, MarkedCompleted, Reserve, DropPlans, Save;
      var base := StoreForPlanning(State(), id, oldRef);
      if base.None? { return Failure(MissingAccount); }
      var predicted := new AccountStore.Clone(base.value);
      var proof := predicted.MarkCompleted(cx, key, oldDigest);
      if proof.Failure? { return Failure(proof.error); }
      var n := CommitPlan(id, oldRef, predicted.State());
      return Success(PlannedCompletion(proof.value, n));
    }

    method AttachPredictedOutputRef(snapshot: SnapshotId, ref: OutputRef) returns (r: Result<(), PlanningError>)
      requires Synced()
      modifies this
      ensures Synced()
      ensures match Attach(old(State()), snapshot, ref)
              case Success(s) => State() == s && r == Success(())
              case Failure(e) => State() == old(State()) && r == Failure(e)
    {
      hide Save;
      if snapshot !in plans { return Failure(MissingStore); }
      planByRef := planByRef[ref := snapshot];
      PersistAccountStores();
      return Success(());
    }

    // ----- observing the chain -----

    method ObserveConsumed(ref: OutputRef)
      modifies this
      ensures State() == AccountIndexes.ObserveConsumed(old(State()), ref) && Synced()
    {
      hide Save;
      if ref in byRef {
        var id := byRef[ref];
        byRef := byRef - {ref};
        MakePending(id, ref);
      }
      predicted := predicted - {ref};
      unbound := unbound - {ref};
      PersistAccountStores();
    }

    method ObserveRemovedOutput(ref: OutputRef)
      modifies this
      ensures State() == ObserveRemoved(old(State()), ref) && Synced()
    {
      hide Save;
      if ref in byRef {
        var id := byRef[ref];
        byRef := byRef - {ref};
        byAccount := byAccount - {id};
        pending := pending + {id};
      }
      predicted := predicted - {ref};
      unbound := unbound - {ref};
      PersistAccountStores();
    }

    method ObserveRollbackConsumed(ref: OutputRef)
      modifies this
      ensures State() == AccountIndexes.ObserveRollbackConsumed(old(State()), ref) && Synced()
    {
      hide Save;
      if ref in rollback {
        var entry := rollback[ref];
        rollback := rollback - {ref};
        BindIndexed(entry.0, entry.1);
      }
      plans := map n | n in plans && plans[n].oldRef != ref :: plans[n];
      planByRef := map r | r in planByRef && planByRef[r] in plans :: planByRef[r];
      PersistAccountStores();
    }

    // The file is written by the binding that follows.
    method RetirePlans(ids: set<SnapshotId>)
      modifies this`plans, this`planByRef
      ensures State() == WithoutPlans(old(State()), ids)
    {
      plans := plans - ids;
      planByRef := map r | r in planByRef && planByRef[r] !in ids :: planByRef[r];
    }

    method BindConfirmedStoreForConsumedRefs(consumed: set<OutputRef>, utxo: Utxo) returns (bound: bool)
      requires Synced()
      modifies this
      ensures Synced()
      ensures match BindConfirmed(old(State()), consumed, utxo)
              case Some(s) => bound && State() == s
              case None => !bound && State() == old(State())
    {
      hide Save;
      var ids := Matching(State(), consumed, utxo.output.storeRoot);
      if ids == {} { return false; }
      var n :| n in ids;
      var plan := plans[n];
      AnyMatch(State(), consumed, utxo, n);
      assert ids <= plans.Keys;
      hide BindConfirmed, AccountIndexes.BindIndexed, WithoutPlans, Matching;
      if Dissent(State(), ids, plan) { return false; }
      RetirePlans(ids);
      BindIndexed(plan.account, Indexed(utxo, plan.store));
      return true;
    }

    method BindEmptySuccessorForConsumedAccount(owners: set<AccountId>, utxo: Utxo) returns (bound: bool)
      requires Synced()
      modifies this
      ensures Synced()
      ensures match BindEmptySuccessor(old(State()), owners, utxo)
              case Some(s) => bound && State() == s
              case None => !bound && State() == old(State())
    {
      hide Save;
      if |owners| != 1 { return false; }
      match FromObservedRoot(utxo.output.storeRoot)
      case None => return false;
      case Some(store) =>
        var id :| id in owners;
        SingletonOwner(owners, id);
        if id !in pending { return false; }
        BindIndexed(id, Indexed(utxo, store));
        return true;
    }

    method BindConfirmedPredictedStore(utxo: Utxo) returns (bound: bool)
      requires Synced()
      modifies this
      ensures Synced()
      ensures match BindPredicted(old(State()), utxo)
              case Some(s) => bound && State() == s
              case None => !bound && State() == old(State())
    {
      hide Save;
      if utxo.ref !in planByRef || planByRef[utxo.ref] !in plans { return false; }
      var n := planByRef[utxo.ref];
      var plan := plans[n];
      if utxo.output.storeRoot != plan.store.root { return false; }
      plans := plans - {n};
      planByRef := planByRef - {utxo.ref};
      BindIndexed(plan.account, Indexed(utxo, plan.store));
      return true;
    }

    method ObserveCreatedOrUpdated(utxo: Utxo)
      requires Synced()
      modifies this
      ensures State() == ObserveCreated(old(State()), utxo) && Synced()
    {
      hide Save, BindPredicted, AccountIndexes.BindIndexed, AccountIndexes.BindObserved;
      if utxo.ref in predicted {
        var id := predicted[utxo.ref].0;
        predicted := predicted - {utxo.ref};
        SaveReads(old(State()), State());
        var bound := BindConfirmedPredictedStore(utxo);
        if !bound { BindObserved(id, utxo); }
        return;
      }
      if utxo.ref in planByRef {
        var _ := BindConfirmedPredictedStore(utxo);
        return;
      }
      if utxo.ref in persisted {
        var entry := persisted[utxo.ref];
        if entry.1.root == utxo.output.storeRoot {
          persisted := persisted - {utxo.ref};
          BindIndexed(entry.0, Indexed(utxo, entry.1));
          return;
        }
      }
      LeaveUnbound(utxo);
    }

    method ConsumeRefs(consumed: set<OutputRef>)
      requires Inverse(byAccount, byRef) && Synced()
      modifies this
      ensures State() == ConsumeAll(old(State()), consumed) && Synced()
    {
      ghost var s0 := State();
      assert Inverse(s0.byAccount, s0.byRef);
      hide ConsumeAll, AccountIndexes.ObserveConsumed, Inverse, Save, State, Synced;
      var todo := consumed;
      assert consumed - todo == {};
      ConsumeNothing(s0);
      while todo != {}
        invariant todo <= consumed && State() == ConsumeAll(s0, consumed - todo) && Synced()
        decreases |todo|
      {
        var ref :| ref in todo;
        ConsumeStep(s0, consumed - todo, ref);
        ObserveConsumed(ref);
        assert consumed - (todo - {ref}) == consumed - todo + {ref};
        todo := todo - {ref};
      }
      assert consumed - todo == consumed;
    }

    method ObserveTransaction(refs: seq<OutputRef>, produced: seq<Utxo>)
      requires Inverse(byAccount, byRef) && Synced()
      modifies this
      ensures State() == AccountIndexes.ObserveTransaction(old(State()), RefSet(refs), produced) && Synced()
    {
      hide Save, ConsumeAll, Owners, ObserveAllProduced, RefSet;
      var consumed := RefSet(refs);
      var owners := Owners(State(), consumed);
      ConsumeRefs(consumed);
      ObserveOutputs(consumed, owners, produced);
    }

    method ObserveOutputs(consumed: set<OutputRef>, owners: set<AccountId>, produced: seq<Utxo>)
      requires Synced()
      modifies this
      ensures State() == ObserveAllProduced(old(State()), consumed, owners, produced) && Synced()
    {
      hide Save, ObserveProduced, State, Synced;
      ghost var s1 := State();
      for i := 0 to |produced|
        invariant State() == ObserveAllProduced(s1, consumed, owners, produced[..i]) && Synced()
      {
        assert produced[..i + 1][..i] == produced[..i];
        ObserveOutput(consumed, owners, produced[i]);
      }
      assert produced[..|produced|] == produced;
    }

    method ObserveOutput(consumed: set<OutputRef>, owners: set<AccountId>, utxo: Utxo)
      requires Synced()
      modifies this
      ensures State() == ObserveProduced(old(State()), consumed, owners, utxo) && Synced()
    {
      hide BindConfirmed, BindEmptySuccessor, ObserveCreated, Save;
      var bound := BindConfirmedStoreForConsumedRefs(consumed, utxo);
      if bound { return; }
      bound := BindEmptySuccessorForConsumedAccount(owners, utxo);
      if bound { return; }
      ObserveCreatedOrUpdated(utxo);
    }

    // ----- continuing after a restart -----

    // One order for every pending leaf of every current account, each with a proof that the account's
    // own output datum commits to that leaf.
    method PendingContinuations() returns (orders: seq<Continuation>)
      requires Stores(cx, State()) && DatumRoots(State())
      ensures OnePerPendingLeaf(cx, byAccount, orders)
    {
      hide Continuing, Consistent, Covers, NoRepeats, Continues;
      orders := [];
      ghost var origins: seq<(AccountId, Bytes)> := [];
      var todo := byAccount.Keys;
      NothingYet(cx, byAccount);
      assert byAccount.Keys - todo == {};
      while todo != {}
        invariant todo <= byAccount.Keys
        invariant Continues(cx, byAccount, orders, origins)
        invariant Covers(byAccount, byAccount.Keys - todo, origins) && NoRepeats(origins)
        decreases |todo|
      {
        var id :| id in todo;
        var more, keys := AccountContinuations(cx, id, byAccount[id]);
        AppendedContinues(cx, byAccount, orders, origins, id, more, keys);
        AppendedCovers(byAccount, byAccount.Keys - todo, origins, id, keys);
        orders, origins := orders + more, origins + Origins(id, keys);
        assert byAccount.Keys - todo + {id} == byAccount.Keys - (todo - {id});
        todo := todo - {id};
      }
      assert byAccount.Keys - todo == byAccount.Keys;
    }
  }

  // ----- account events -----

  // Consumed outputs and produced accounts of a list of events, then both to the index in one step.
  method ApplyAccountEvents(index: AccountIndex, events: seq<AccountEvent>)
    requires Inverse(index.byAccount, index.byRef) && index.Synced()
    modifies index
    ensures index.State() == ApplyEvents(old(index.State()), events) && index.Synced()
  {
    hide Save, AccountIndexes.ObserveTransaction;
    var refs, produced := [], [];
    for i := 0 to |events|
      invariant refs == ConsumedRefs(events[..i]) && produced == ProducedUtxos(events[..i])
      invariant index.State() == old(index.State()) && index.Synced()
    {
      match events[i] {
        case Consumed(ref) => refs := refs + [ref];
        case Produced(utxo) => produced := produced + [utxo];
      }
      assert events[..i + 1][..i] == events[..i];
    }
    assert events[..|events|] == events;
    index.ObserveTransaction(refs, produced);
  }

  method RevertAccountEvents(index: AccountIndex, events: seq<AccountEvent>)
    requires index.Synced()
    modifies index
    ensures index.State() == RevertEvents(old(index.State()), events) && index.Synced()
  {
    hide AccountIndexes.ObserveRollbackConsumed, ObserveRemoved, Save;
    for i := 0 to |events|
      invariant index.State() == RevertEvents(old(index.State()), events[..i]) && index.Synced()
    {
      match events[i] {
        case Produced(utxo) => index.ObserveRemovedOutput(utxo.ref);
        case Consumed(ref) => index.ObserveRollbackConsumed(ref);
      }
      assert events[..i + 1][..i] == events[..i];
    }
    assert events[..|events|] == events;
  }

  // ----- restart -----

  lemma SnapshotPathsApart(cx: Cx, store: Store)
    requires Consistent(cx, store)
    ensures PathsApart(cx, SnapshotLeaves(store))
  {
    SnapshotRoundTrip(cx, store);
    hide SnapshotLeaves, Collected, InjectiveOn;
  }

  lemma StoresKeysApart(cx: Cx, stores: map<OutputRef, (AccountId, Store)>)
    requires forall r :: r in stores ==> Consistent(cx, stores[r].1)
    ensures forall r :: r in SaveStores(stores) ==> PathsApart(cx, SaveStores(stores)[r].leaves)
  {
    hide Consistent, SnapshotLeaves, PathsApart;
    forall r | r in stores
      ensures PathsApart(cx, SnapshotLeaves(stores[r].1))
    {
      SnapshotPathsApart(cx, stores[r].1);
    }
  }

  lemma PlansKeysApart(cx: Cx, plans: map<SnapshotId, PendingStore>)
    requires forall n :: n in plans ==> Consistent(cx, plans[n].store)
    ensures forall n :: n in SavePlans(plans) ==> PathsApart(cx, SavePlans(plans)[n].leaves)
  {
    hide Consistent, SnapshotLeaves, PathsApart;
    forall n | n in plans
      ensures PathsApart(cx, SnapshotLeaves(plans[n].store))
    {
      SnapshotPathsApart(cx, plans[n].store);
    }
  }

  lemma SavedKeysApart(cx: Cx, s: Index)
    requires Valid(s) && Stores(cx, s)
    ensures KeysApart(cx, Save(s))
  {
    KeptConsistent(cx, s);
    hide Kept, Valid, SaveStores, SavePlans, PathsApart, Consistent;
    StoresKeysApart(cx, Kept(s));
    PlansKeysApart(cx, s.plans);
  }

  // A new process over the file the old one left: it holds the loaded state, and the file is in step with it.
  method Restart(index: AccountIndex) returns (next: AccountIndex)
    requires Valid(index.State()) && Stores(index.cx, index.State()) && index.Synced()
    ensures fresh(next) && next.cx == index.cx && next.Synced()
    ensures IsLoaded(index.cx, Save(index.State()), next.State())
  {
    hide Save, IsLoaded, Valid, Stores, KeysApart;
    SavedKeysApart(index.cx, index.State());
    next := new AccountIndex.WithPersistencePath(index.cx, index.saved);
    SavedAgain(index.cx, index.State(), next.State());
  }
}
