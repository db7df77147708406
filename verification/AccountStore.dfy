/**
 The store of one account's intents: leaves by key, and the cached root of the trie over their digests.
 */
module AccountStores {
  import opened Bytes
  import opened Mpf
  import opened Tries
  import opened TrieBinding
  import opened MpfBinding

  type Asset = Bytes
  type OrderId = Bytes

  datatype Abi = Legacy | Current

  datatype Intention = Intention(
    abi: Abi, targetNonceIndex: nat, targetNonceValue: nat,
    leavingAsset: Asset, leavingAmount: nat,
    arrivingAsset: Asset, expectedArrivingAmount: nat,
    feeLovelace: nat, operator: Bytes)

  datatype Status = Pending | Completed

  datatype StoredLeaf = StoredLeaf(orderId: OrderId, intent: Intention, digest: Hash32, status: Status)

  datatype LeafSnapshot = LeafSnapshot(key: Bytes, leaf: StoredLeaf)

  type Leaves = map<Bytes, StoredLeaf>

  // The hash, and the digest of an intention (the hash of an encoding that is not modelled).
  datatype Cx = Cx(h: HashFn, digest: Intention -> Hash32)

  datatype PlanningError =
    | MissingAccount
    | MissingStore
    | RootMismatch(expected: Hash32, actual: Hash32)
    | ExistingPendingIntent
    | MissingPendingIntent
    | DigestMismatch
    | Unsupported

  datatype Delta = Delta(oldRoot: Hash32, newRoot: Hash32, proof: Proof)

  // A store as a value: what is cloned, persisted and compared.
  datatype Store = Store(root: Hash32, leaves: Leaves)

  const EMPTY_STORE := Store(EMPTY_ROOT, map[])

  // The trie holds every leaf's digest, completed leaves included.
  function Digests(leaves: Leaves): Entries {
    map k | k in leaves :: leaves[k].digest
  }

  function OrUnsupported<T>(r: MpfResult<T>): Result<T, PlanningError> {
    match r
    case Success(v) => Success(v)
    case Failure(_) => Failure(Unsupported)
  }

  ghost predicate Usable(cx: Cx, s: Store) {
    InjectiveOn(cx.h, s.leaves.Keys)
  }

  // ----- operations on store values -----

  ghost function Inserted(
    cx: Cx, s: Store, key: Bytes, id: OrderId, intent: Intention): Result<(Store, Delta), PlanningError>
    requires Usable(cx, s)
  {
    if key in s.leaves then Failure(ExistingPendingIntent)
    else
      var proof :- OrUnsupported(ProofForMissing(cx.h, Digests(s.leaves), key));
      var root :- OrUnsupported(Insert(cx.h, s.root, key, cx.digest(intent), proof));
      var leaf := StoredLeaf(id, intent, cx.digest(intent), Pending);
      Success((Store(root, s.leaves[key := leaf]), Delta(s.root, root, proof)))
  }

  ghost function Updated(
    cx: Cx, s: Store, key: Bytes, oldDigest: Hash32, intent: Intention): Result<(Store, Delta), PlanningError>
    requires Usable(cx, s)
  {
    var proof :- OrUnsupported(ProofForPresent(cx.h, Digests(s.leaves), key));
    if key !in s.leaves || s.leaves[key].status != Pending then Failure(MissingPendingIntent)
    else if s.leaves[key].digest != oldDigest then Failure(DigestMismatch)
    else
      var root :- OrUnsupported(Update(cx.h, s.root, key, proof, oldDigest, cx.digest(intent)));
      var leaf := s.leaves[key].(intent := intent, digest := cx.digest(intent));
      Success((Store(root, s.leaves[key := leaf]), Delta(s.root, root, proof)))
  }

  ghost function MarkedCompleted(cx: Cx, s: Store, key: Bytes, oldDigest: Hash32): Result<(Store, Proof), PlanningError>
    requires Usable(cx, s)
  {
    var proof :- OrUnsupported(ProofForPresent(cx.h, Digests(s.leaves), key));
    if key !in s.leaves || s.leaves[key].status != Pending then Failure(MissingPendingIntent)
    else if s.leaves[key].digest != oldDigest then Failure(DigestMismatch)
    else if !Has(cx.h, s.root, key, oldDigest, proof) then
      Failure(RootMismatch(RootOfEntries(cx.h, Digests(s.leaves)), s.root))
    else Success((s.(leaves := s.leaves[key := s.leaves[key].(status := Completed)]), proof))
  }

  ghost function PathProof(cx: Cx, s: Store, key: Bytes): Result<Proof, PlanningError>
    requires Usable(cx, s)
  {
    if key !in s.leaves || s.leaves[key].status != Pending then Failure(MissingPendingIntent)
    else
      var proof :- OrUnsupported(ProofForPresent(cx.h, Digests(s.leaves), key));
      if !Has(cx.h, s.root, key, s.leaves[key].digest, proof) then
        Failure(RootMismatch(RootOfEntries(cx.h, Digests(s.leaves)), s.root))
      else Success(proof)
  }

  function SnapshotLeaves(s: Store): (r: seq<LeafSnapshot>) {
    var keys := SortedKeys(s.leaves.Keys);
    seq(|keys|, i requires 0 <= i < |keys| => assert keys[i] in keys; LeafSnapshot(keys[i], s.leaves[keys[i]]))
  }

  // Collecting into a map: a later leaf replaces an earlier one with the same key.
  function Collected(snapshot: seq<LeafSnapshot>): Leaves {
    if snapshot == [] then map[]
    else
      var last := snapshot[|snapshot| - 1];
      Collected(snapshot[..|snapshot| - 1])[last.key := last.leaf]
  }

  ghost function FromSnapshot(cx: Cx, root: Hash32, snapshot: seq<LeafSnapshot>): Result<Store, PlanningError>
    requires InjectiveOn(cx.h, Collected(snapshot).Keys)
  {
    var leaves := Collected(snapshot);
    var calculated := RootOfEntries(cx.h, Digests(leaves));
    if calculated != root then Failure(RootMismatch(calculated, root)) else Success(Store(root, leaves))
  }

  // Only the empty root is recognised without a plan or a snapshot.
  function FromObservedRoot(root: Hash32): Option<Store> {
    if root == EMPTY_ROOT then Some(EMPTY_STORE) else None
  }

  // ----- the object, updated in place -----

  class AccountStore {
    var root: Hash32
    var leaves: Leaves

    function State(): Store
      reads this
    {
      Store(root, leaves)
    }

    constructor Empty()
      ensures State() == EMPTY_STORE
    {
      root, leaves := EMPTY_ROOT, map[];
    }

    constructor Clone(s: Store)
      ensures State() == s
    {
      root, leaves := s.root, s.leaves;
    }

    method InsertRemaining(cx: Cx, key: Bytes, id: OrderId, intent: Intention) returns (r: Result<Delta, PlanningError>)
      requires Usable(cx, State())
      modifies this
      ensures match Inserted(cx, old(State()), key, id, intent)
              case Success((s, delta)) => State() == s && r == Success(delta)
              case Failure(e) => State() == old(State()) && r == Failure(e)
    {
      if key in leaves { return Failure(ExistingPendingIntent); }
      var oldRoot := root;
      var digest := cx.digest(intent);
      var proof := ProofForMissing(cx.h, Digests(leaves), key);
      if proof.Failure? { return Failure(Unsupported); }
      var newRoot := Insert(cx.h, oldRoot, key, digest, proof.value);
      if newRoot.Failure? { return Failure(Unsupported); }
      leaves := leaves[key := StoredLeaf(id, intent, digest, Pending)];
      root := newRoot.value;
      r := Success(Delta(oldRoot, newRoot.value, proof.value));
    }

    method UpdateRemaining(
      cx: Cx, key: Bytes, oldDigest: Hash32, intent: Intention) returns (r: Result<Delta, PlanningError>)
      requires Usable(cx, State())
      modifies this
      ensures match Updated(cx, old(State()), key, oldDigest, intent)
              case Success((s, delta)) => State() == s && r == Success(delta)
              case Failure(e) => State() == old(State()) && r == Failure(e)
    {
      var oldRoot := root;
      var proof := ProofForPresent(cx.h, Digests(leaves), key);
      if proof.Failure? { return Failure(Unsupported); }
      if key !in leaves || leaves[key].status != Pending { return Failure(MissingPendingIntent); }
      if leaves[key].digest != oldDigest { return Failure(DigestMismatch); }
      var newDigest := cx.digest(intent);
      var newRoot := Update(cx.h, oldRoot, key, proof.value, oldDigest, newDigest);
      if newRoot.Failure? { return Failure(Unsupported); }
      leaves := leaves[key := leaves[key].(intent := intent, digest := newDigest)];
      root := newRoot.value;
      r := Success(Delta(oldRoot, root, proof.value));
    }

    method MarkCompleted(cx: Cx, key: Bytes, oldDigest: Hash32) returns (r: Result<Proof, PlanningError>)
      requires Usable(cx, State())
      modifies this
      ensures match MarkedCompleted(cx, old(State()), key, oldDigest)
              case Success((s, proof)) => State() == s && r == Success(proof)
              case Failure(e) => State() == old(State()) && r == Failure(e)
    {
      var proof := ProofForPresent(cx.h, Digests(leaves), key);
      if proof.Failure? { return Failure(Unsupported); }
      if key !in leaves || leaves[key].status != Pending { return Failure(MissingPendingIntent); }
      if leaves[key].digest != oldDigest { return Failure(DigestMismatch); }
      if !Has(cx.h, root, key, oldDigest, proof.value) {
        var expected := Root(cx.h, Digests(leaves));
        return Failure(RootMismatch(expected, root));
      }
      leaves := leaves[key := leaves[key].(status := Completed)];
      r := Success(proof.value);
    }
  }

  // The inclusion proof of a pending leaf, checked against the cached root before it is handed out.
  method ProvePath(cx: Cx, s: Store, key: Bytes) returns (r: Result<Proof, PlanningError>)
    requires Usable(cx, s)
    ensures r == PathProof(cx, s, key)
  {
    hide Has, ProofForPresent, RootOfEntries;
    if key !in s.leaves || s.leaves[key].status != Pending { return Failure(MissingPendingIntent); }
    var proof := ProofForPresent(cx.h, Digests(s.leaves), key);
    if proof.Failure? { return Failure(Unsupported); }
    if !Has(cx.h, s.root, key, s.leaves[key].digest, proof.value) {
      var expected := Root(cx.h, Digests(s.leaves));
      return Failure(RootMismatch(expected, s.root));
    }
    r := Success(proof.value);
  }

  // The snapshot's leaves collected, and their root compared with the stored one.
  method LoadSnapshot(cx: Cx, root: Hash32, snapshot: seq<LeafSnapshot>) returns (r: Result<Store, PlanningError>)
    requires InjectiveOn(cx.h, Collected(snapshot).Keys)
    ensures r == FromSnapshot(cx, root, snapshot)
  {
    hide RootOfEntries, Collected;
    var leaves := Collected(snapshot);
    var calculated := Root(cx.h, Digests(leaves));
    if calculated != root { return Failure(RootMismatch(calculated, root)); }
    return Success(Store(root, leaves));
  }

  // ----- the cached root -----

  // The cached root is the root of the trie rebuilt from all leaves, and each digest is its intention's.
  ghost predicate Consistent(cx: Cx, s: Store) {
    && Usable(cx, s)
    && s.root == RootOfEntries(cx.h, Digests(s.leaves))
    && forall k :: k in s.leaves ==> s.leaves[k].digest == cx.digest(s.leaves[k].intent)
  }

  lemma EmptyIsConsistent(cx: Cx)
    ensures Consistent(cx, EMPTY_STORE)
  {
    assert Digests(map[]) == map[];
    assert PathMap(cx.h, map[]) == map[];
  }

  // The store's own hash hypothesis for inserting `key`: on the strings hashed the hash is injective and
  // never the empty root.
  ghost predicate Collisionless(h: HashFn, entries: Entries, key: Bytes, strings: set<Bytes>) {
    && InjectiveOn(h, entries.Keys + {key}) && InjectiveOn(h, entries.Keys)
    && InjectiveOn(h, strings)
    && (key !in entries && ProofForMissing(h, entries, key).Success? ==>
          StringsApart(h, entries, key, ProofForMissing(h, entries, key).value, strings))
  }

  ghost predicate StringsApart(h: HashFn, entries: Entries, key: Bytes, proof: Proof, strings: set<Bytes>)
    requires InjectiveOn(h, entries.Keys)
  {
    && MissingStrings(h, entries, key, proof) <= strings
    && NeverEmpty(h, RootStrings(h, PathMap(h, entries), 0) + ExcludingStrings(h, h(key), 0, proof))
  }

  lemma DigestsSet(leaves: Leaves, key: Bytes, leaf: StoredLeaf)
    ensures Digests(leaves[key := leaf]) == Digests(leaves)[key := leaf.digest]
    ensures Digests(leaves).Keys == leaves.Keys
  {
  }

  // Replacing or adding one leaf whose digest is its intention's keeps a store consistent when the root follows.
  lemma ConsistentWith(cx: Cx, s: Store, key: Bytes, leaf: StoredLeaf, root: Hash32)
    requires Consistent(cx, s) && leaf.digest == cx.digest(leaf.intent)
    requires InjectiveOn(cx.h, Digests(s.leaves)[key := leaf.digest].Keys)
    requires root == RootOfEntries(cx.h, Digests(s.leaves)[key := leaf.digest])
    ensures Consistent(cx, Store(root, s.leaves[key := leaf]))
  {
    hide InjectiveOn, RootOfEntries, Digests;
    DigestsSet(s.leaves, key, leaf);
    DigestsSet(s.leaves[key := leaf], key, leaf);
  }

  lemma InsertedNew(cx: Cx, s: Store, key: Bytes, id: OrderId, intent: Intention, proof: Proof, root: Hash32)
    requires Usable(cx, s) && key !in s.leaves && ProofForMissing(cx.h, Digests(s.leaves), key) == Success(proof)
    requires Insert(cx.h, s.root, key, cx.digest(intent), proof) == Success(root)
    ensures Inserted(cx, s, key, id, intent) ==
      var leaf := StoredLeaf(id, intent, cx.digest(intent), Pending);
      Success((Store(root, s.leaves[key := leaf]), Delta(s.root, root, proof)))
  {
    hide ProofForMissing, Insert, InjectiveOn;
  }

  lemma NotInserted(cx: Cx, s: Store, key: Bytes, id: OrderId, intent: Intention)
    requires Usable(cx, s)
    requires key in s.leaves || ProofForMissing(cx.h, Digests(s.leaves), key).Failure? ||
      Insert(cx.h, s.root, key, cx.digest(intent), ProofForMissing(cx.h, Digests(s.leaves), key).value).Failure?
    ensures Inserted(cx, s, key, id, intent).Failure?
  {
    hide ProofForMissing, Insert, InjectiveOn;
  }

  // Inserting succeeds exactly for a new, insertable key, and then the new root is the rebuilt one.
  lemma InsertKeepsRoot(
    cx: Cx, s: Store, key: Bytes, id: OrderId, intent: Intention, strings: set<Bytes>) returns (s': Store, delta: Delta)
    requires Consistent(cx, s) && Collisionless(cx.h, Digests(s.leaves), key, strings)
    ensures Inserted(cx, s, key, id, intent).Success? <==> key !in s.leaves && Insertable(cx.h, Digests(s.leaves), key)
    ensures Inserted(cx, s, key, id, intent).Success? ==>
      && Inserted(cx, s, key, id, intent) == Success((s', delta))
      && Consistent(cx, s')
      && s'.leaves == s.leaves[key := StoredLeaf(id, intent, cx.digest(intent), Pending)]
      && delta.oldRoot == s.root && delta.newRoot == s'.root
      && Miss(cx.h, s.root, key, delta.proof) && Has(cx.h, s'.root, key, cx.digest(intent), delta.proof)
  {
    hide Has, Miss, Insert, ProofForMissing, RootOfEntries, Insertable, InjectiveOn, Inserted, Digests, MissingStrings,
         NeverEmpty, PathMap;
    s', delta := s, Delta(s.root, s.root, []);
    var entries := Digests(s.leaves);
    var leaf := StoredLeaf(id, intent, cx.digest(intent), Pending);
    DigestsSet(s.leaves, key, leaf);
    if key in s.leaves {
      NotInserted(cx, s, key, id, intent);
    } else if Insertable(cx.h, entries, key) {
      var proof := MissingProofs(cx.h, entries, key, leaf.digest);
      var root := RootOfEntries(cx.h, entries[key := leaf.digest]);
      InsertedNew(cx, s, key, id, intent, proof, root);
      InsertShows(cx.h, s.root, key, leaf.digest, proof, root);
      s', delta := Store(root, s.leaves[key := leaf]), Delta(s.root, root, proof);
      ConsistentWith(cx, s, key, leaf, root);
    } else {
      if ProofForMissing(cx.h, entries, key).Success? { InsertRefused(cx, s, key, leaf.digest, strings); }
      NotInserted(cx, s, key, id, intent);
    }
  }

  lemma InsertRefused(cx: Cx, s: Store, key: Bytes, digest: Hash32, strings: set<Bytes>)
    requires Consistent(cx, s) && Collisionless(cx.h, Digests(s.leaves), key, strings) && key !in s.leaves
    requires ProofForMissing(cx.h, Digests(s.leaves), key).Success? && !Insertable(cx.h, Digests(s.leaves), key)
    ensures Insert(cx.h, s.root, key, digest, ProofForMissing(cx.h, Digests(s.leaves), key).value).Failure?
  {
    hide Has, Miss, Insert, ProofForMissing, RootOfEntries, Insertable, InjectiveOn, MissingStrings, NeverEmpty,
         PathMap;
    InsertExactlyWhen(cx.h, Digests(s.leaves), key, digest, ProofForMissing(cx.h, Digests(s.leaves), key).value,
      strings);
  }

  // The leaf an update or completion needs.
  ghost predicate PendingWith(s: Store, key: Bytes, digest: Hash32) {
    key in s.leaves && s.leaves[key].status == Pending && s.leaves[key].digest == digest
  }

  lemma NotUpdated(cx: Cx, s: Store, key: Bytes, oldDigest: Hash32, intent: Intention)
    requires Usable(cx, s) && !PendingWith(s, key, oldDigest)
    ensures Updated(cx, s, key, oldDigest, intent).Failure? && MarkedCompleted(cx, s, key, oldDigest).Failure?
  {
    hide ProofForPresent, Update, Has, InjectiveOn, Digests, RootOfEntries;
  }

  lemma UpdatedPending(cx: Cx, s: Store, key: Bytes, oldDigest: Hash32, intent: Intention, proof: Proof, root: Hash32)
    requires Usable(cx, s) && PendingWith(s, key, oldDigest)
    requires ProofForPresent(cx.h, Digests(s.leaves), key) == Success(proof)
    requires Update(cx.h, s.root, key, proof, oldDigest, cx.digest(intent)) == Success(root)
    ensures Updated(cx, s, key, oldDigest, intent) ==
      var leaf := s.leaves[key].(intent := intent, digest := cx.digest(intent));
      Success((Store(root, s.leaves[key := leaf]), Delta(s.root, root, proof)))
  {
    hide ProofForPresent, Update, InjectiveOn;
  }

  // Updating succeeds exactly for a pending leaf with the given digest, and the new root is the rebuilt one.
  lemma UpdateKeepsRoot(
    cx: Cx, s: Store, key: Bytes, oldDigest: Hash32, intent: Intention) returns (s': Store, delta: Delta)
    requires Consistent(cx, s)
    ensures Updated(cx, s, key, oldDigest, intent).Success? <==> PendingWith(s, key, oldDigest)
    ensures Updated(cx, s, key, oldDigest, intent).Success? ==>
      && Updated(cx, s, key, oldDigest, intent) == Success((s', delta))
      && Consistent(cx, s')
      && s'.leaves == s.leaves[key := s.leaves[key].(intent := intent, digest := cx.digest(intent))]
      && delta.oldRoot == s.root && delta.newRoot == s'.root
      && Has(cx.h, s.root, key, oldDigest, delta.proof) && Has(cx.h, s'.root, key, cx.digest(intent), delta.proof)
  {
    hide Has, Delete, Update, ProofForPresent, RootOfEntries, InjectiveOn, Updated;
    s', delta := s, Delta(s.root, s.root, []);
    var entries := Digests(s.leaves);
    assert entries.Keys == s.leaves.Keys;
    if PendingWith(s, key, oldDigest) {
      var leaf := s.leaves[key].(intent := intent, digest := cx.digest(intent));
      var proof := PresentProofs(cx.h, entries, key, leaf.digest);
      var root := RootOfEntries(cx.h, entries[key := leaf.digest]);
      UpdatedPending(cx, s, key, oldDigest, intent, proof, root);
      UpdateShows(cx.h, s.root, key, proof, oldDigest, leaf.digest, root);
      s', delta := Store(root, s.leaves[key := leaf]), Delta(s.root, root, proof);
      ConsistentWith(cx, s, key, leaf, root);
    } else {
      NotUpdated(cx, s, key, oldDigest, intent);
    }
  }

  lemma CompletedPending(cx: Cx, s: Store, key: Bytes, oldDigest: Hash32, proof: Proof)
    requires Usable(cx, s) && PendingWith(s, key, oldDigest)
    requires ProofForPresent(cx.h, Digests(s.leaves), key) == Success(proof)
    requires Has(cx.h, s.root, key, oldDigest, proof)
    ensures MarkedCompleted(cx, s, key, oldDigest) ==
      Success((s.(leaves := s.leaves[key := s.leaves[key].(status := Completed)]), proof))
  {
    hide ProofForPresent, Has, InjectiveOn, RootOfEntries;
  }

  // Completing succeeds under the same condition and leaves the root alone.
  lemma CompleteKeepsRoot(cx: Cx, s: Store, key: Bytes, oldDigest: Hash32) returns (s': Store, proof: Proof)
    requires Consistent(cx, s)
    ensures MarkedCompleted(cx, s, key, oldDigest).Success? <==> PendingWith(s, key, oldDigest)
    ensures MarkedCompleted(cx, s, key, oldDigest).Success? ==>
      && MarkedCompleted(cx, s, key, oldDigest) == Success((s', proof))
      && Consistent(cx, s') && s'.root == s.root
      && s'.leaves == s.leaves[key := s.leaves[key].(status := Completed)]
      && Has(cx.h, s.root, key, oldDigest, proof)
  {
    hide Has, Delete, Update, ProofForPresent, RootOfEntries, InjectiveOn, MarkedCompleted;
    s', proof := s, [];
    var entries := Digests(s.leaves);
    assert entries.Keys == s.leaves.Keys;
    if PendingWith(s, key, oldDigest) {
      var leaf := s.leaves[key].(status := Completed);
      proof := PresentProofs(cx.h, entries, key, entries[key]);
      CompletedPending(cx, s, key, oldDigest, proof);
      s' := s.(leaves := s.leaves[key := leaf]);
      assert entries[key := leaf.digest] == entries;
      ConsistentWith(cx, s, key, leaf, s.root);
    } else {
      NotUpdated(cx, s, key, oldDigest, Intention(Legacy, 0, 0, [], 0, [], 0, 0, []));
    }
  }

  // Every pending leaf of a consistent store has a path proof, and it passes `Has` against the cached root.
  lemma PendingLeafHasProof(cx: Cx, s: Store, key: Bytes)
    requires Consistent(cx, s)
    ensures PathProof(cx, s, key).Success? <==> key in s.leaves && s.leaves[key].status == Pending
    ensures PathProof(cx, s, key).Success? ==> Has(cx.h, s.root, key, s.leaves[key].digest, PathProof(cx, s, key).value)
  {
    hide Has, Delete, Update, ProofForPresent, RootOfEntries, InjectiveOn;
    if key in s.leaves {
      assert Digests(s.leaves).Keys == s.leaves.Keys;
      var proof := PresentProofs(cx.h, Digests(s.leaves), key, s.leaves[key].digest);
    }
  }

  // ----- refusals -----

  // With the proof generated for a stored key, the value is shown under the rebuilt root and no other.
  lemma PresentShows(cx: Cx, s: Store, key: Bytes) returns (proof: Proof)
    requires Usable(cx, s) && key in s.leaves
    ensures ProofForPresent(cx.h, Digests(s.leaves), key) == Success(proof)
    ensures Has(cx.h, s.root, key, s.leaves[key].digest, proof) <==> s.root == RootOfEntries(cx.h, Digests(s.leaves))
  {
    hide ProofForPresent, RootOfEntries, InjectiveOn, Including, Update, Delete;
    assert Digests(s.leaves).Keys == s.leaves.Keys;
    proof := PresentProofs(cx.h, Digests(s.leaves), key, s.leaves[key].digest);
  }

  // What a proof or a completion is refused with, in any store.
  ghost function Refusal(cx: Cx, s: Store, key: Bytes, digest: Hash32): Option<PlanningError>
    requires Usable(cx, s) && key in s.leaves
  {
    var rebuilt := RootOfEntries(cx.h, Digests(s.leaves));
    if s.leaves[key].status == Completed then Some(MissingPendingIntent)
    else if s.leaves[key].digest != digest then Some(DigestMismatch)
    else if s.root != rebuilt then Some(RootMismatch(rebuilt, s.root))
    else None
  }

  // An insertion refuses a key that is there; everything else refuses one that is not.
  lemma MissingRefused(cx: Cx, s: Store, key: Bytes, digest: Hash32, id: OrderId, intent: Intention)
    requires Usable(cx, s)
    ensures key in s.leaves ==> Inserted(cx, s, key, id, intent) == Failure(ExistingPendingIntent)
    ensures key !in s.leaves ==> PathProof(cx, s, key) == Failure(MissingPendingIntent)
    ensures key !in s.leaves ==> Updated(cx, s, key, digest, intent) == Failure(Unsupported)
    ensures key !in s.leaves ==> MarkedCompleted(cx, s, key, digest) == Failure(Unsupported)
  {
    assert Digests(s.leaves).Keys == s.leaves.Keys;
    hide InjectiveOn, ProofForPath, Has, Update, RootOfEntries, Digests, ProofForMissing, Insert;
  }

  // In any store, consistent or not, a completion is refused for the first reason that applies, and made when none
  // does.
  lemma CompletionRefusedFor(cx: Cx, s: Store, key: Bytes, digest: Hash32)
    requires Usable(cx, s) && key in s.leaves
    ensures MarkedCompleted(cx, s, key, digest).Success? <==> Refusal(cx, s, key, digest) == None
    ensures Refusal(cx, s, key, digest).Some? ==>
      MarkedCompleted(cx, s, key, digest) == Failure(Refusal(cx, s, key, digest).value)
  {
    hide RootOfEntries, InjectiveOn, ProofForPresent, Digests, Has;
    var proof := PresentShows(cx, s, key);
  }

  // So is a path proof, which takes the leaf's own digest.
  lemma ProofRefusedFor(cx: Cx, s: Store, key: Bytes)
    requires Usable(cx, s) && key in s.leaves
    ensures PathProof(cx, s, key).Success? <==> Refusal(cx, s, key, s.leaves[key].digest) == None
    ensures Refusal(cx, s, key, s.leaves[key].digest).Some? ==>
      PathProof(cx, s, key) == Failure(Refusal(cx, s, key, s.leaves[key].digest).value)
  {
    hide RootOfEntries, InjectiveOn, ProofForPresent, Digests, Has;
    var proof := PresentShows(cx, s, key);
  }

  lemma UpdateNeedsHas(h: HashFn, root: Hash32, key: Bytes, proof: Proof, value: Bytes, newValue: Bytes)
    requires !Has(h, root, key, value, proof)
    ensures Update(h, root, key, proof, value, newValue).Failure?
  {
    hide Including;
  }

  // An update is refused for the same reasons; a root that is not the rebuilt one shows as a failing proof.
  lemma UpdateRefusedFor(cx: Cx, s: Store, key: Bytes, digest: Hash32, intent: Intention)
    requires Usable(cx, s) && key in s.leaves && Refusal(cx, s, key, digest).Some?
    ensures Updated(cx, s, key, digest, intent) ==
      Failure(
        if Refusal(cx, s, key, digest).value.RootMismatch? then Unsupported else Refusal(cx, s, key, digest).value)
  {
    hide RootOfEntries, InjectiveOn, ProofForPresent, Digests, Has, Update;
    var proof := PresentShows(cx, s, key);
    if !Has(cx.h, s.root, key, s.leaves[key].digest, proof) {
      UpdateNeedsHas(cx.h, s.root, key, proof, s.leaves[key].digest, cx.digest(intent));
    }
  }

  // ----- persistence -----

  lemma {:induction false} CollectedAgrees(snapshot: seq<LeafSnapshot>, leaves: Leaves)
    requires forall i :: 0 <= i < |snapshot| ==>
      snapshot[i].key in leaves && snapshot[i].leaf == leaves[snapshot[i].key]
    ensures forall k :: k in Collected(snapshot) ==> k in leaves && Collected(snapshot)[k] == leaves[k]
    ensures forall i :: 0 <= i < |snapshot| ==> snapshot[i].key in Collected(snapshot)
  {
    if snapshot != [] { CollectedAgrees(snapshot[..|snapshot| - 1], leaves); }
  }

  lemma SnapshotCollects(s: Store)
    ensures Collected(SnapshotLeaves(s)) == s.leaves
  {
    var snapshot := SnapshotLeaves(s);
    var keys := SortedKeys(s.leaves.Keys);
    assert forall i :: 0 <= i < |keys| ==> keys[i] in keys;
    CollectedAgrees(snapshot, s.leaves);
    forall k | k in s.leaves
      ensures k in Collected(snapshot)
    {
      assert k in keys;
      var i :| 0 <= i < |keys| && keys[i] == k;
      assert snapshot[i].key == k;
    }
  }

  // Saving and loading a consistent store gives the same store.
  lemma SnapshotRoundTrip(cx: Cx, s: Store)
    requires Consistent(cx, s)
    ensures Collected(SnapshotLeaves(s)) == s.leaves
    ensures FromSnapshot(cx, s.root, SnapshotLeaves(s)) == Success(s)
  {
    hide RootOfEntries, SnapshotLeaves, Collected, InjectiveOn;
    SnapshotCollects(s);
  }

  // Whatever root stands beside a store's leaves in the file, it loads if and only if it is the root rebuilt from
  // them; the refusal names both.
  lemma LoadsExactlyWhen(cx: Cx, s: Store, root: Hash32)
    requires Usable(cx, s)
    ensures Collected(SnapshotLeaves(s)) == s.leaves
    ensures
      var rebuilt := RootOfEntries(cx.h, Digests(s.leaves));
      FromSnapshot(cx, root, SnapshotLeaves(s)) ==
        if root == rebuilt then Success(Store(root, s.leaves)) else Failure(RootMismatch(rebuilt, root))
  {
    hide RootOfEntries, SnapshotLeaves, Collected, InjectiveOn;
    SnapshotCollects(s);
  }

  // No later leaf has the key of leaf `i`.
  ghost predicate LastOf(snapshot: seq<LeafSnapshot>, i: nat) {
    i < |snapshot| && forall j :: i < j < |snapshot| ==> snapshot[j].key != snapshot[i].key
  }

  lemma CollectedMore(snapshot: seq<LeafSnapshot>, n: nat)
    requires |snapshot| == n + 1
    ensures Collected(snapshot) == Collected(snapshot[..n])[snapshot[n].key := snapshot[n].leaf]
  {
  }

  lemma {:induction false} CollectedKeys(snapshot: seq<LeafSnapshot>, k: Bytes)
    ensures k in Collected(snapshot) <==> exists i :: 0 <= i < |snapshot| && snapshot[i].key == k
  {
    if snapshot != [] {
      var n := |snapshot| - 1;
      CollectedMore(snapshot, n);
      CollectedKeys(snapshot[..n], k);
      hide Collected;
      assert forall i :: 0 <= i < n ==> snapshot[..n][i] == snapshot[i];
      if i :| 0 <= i < n && snapshot[i].key == k { assert snapshot[..n][i].key == k; }
    }
  }

  lemma {:induction false} CollectedLast(snapshot: seq<LeafSnapshot>, i: nat)
    requires LastOf(snapshot, i)
    ensures snapshot[i].key in Collected(snapshot) && Collected(snapshot)[snapshot[i].key] == snapshot[i].leaf
  {
    var n := |snapshot| - 1;
    CollectedMore(snapshot, n);
    hide Collected;
    if i < n {
      assert LastOf(snapshot[..n], i);
      CollectedLast(snapshot[..n], i);
    }
  }

  // What loads, from any snapshot, has the root of its own leaves.
  lemma LoadedHasOwnRoot(cx: Cx, root: Hash32, snapshot: seq<LeafSnapshot>)
    requires InjectiveOn(cx.h, Collected(snapshot).Keys) && FromSnapshot(cx, root, snapshot).Success?
    ensures
      var s := FromSnapshot(cx, root, snapshot).value;
      && Usable(cx, s) && s.root == root == RootOfEntries(cx.h, Digests(s.leaves))
      && (forall k :: k in s.leaves <==> exists i :: 0 <= i < |snapshot| && snapshot[i].key == k)
      && (forall i: nat :: LastOf(snapshot, i) ==> s.leaves[snapshot[i].key] == snapshot[i].leaf)
  {
    forall k
      ensures k in Collected(snapshot) <==> exists i :: 0 <= i < |snapshot| && snapshot[i].key == k
    {
      CollectedKeys(snapshot, k);
    }
    forall i: nat | LastOf(snapshot, i)
      ensures snapshot[i].key in Collected(snapshot) && Collected(snapshot)[snapshot[i].key] == snapshot[i].leaf
    {
      CollectedLast(snapshot, i);
    }
    hide RootOfEntries, Collected, InjectiveOn, Digests;
  }

  // ----- whole runs -----

  datatype StoreOp =
    | InsertOp(key: Bytes, id: OrderId, intent: Intention)
    | UpdateOp(key: Bytes, oldDigest: Hash32, intent: Intention)
    | CompleteOp(key: Bytes, oldDigest: Hash32)

  // The store after one call; a failed call leaves it alone.
  ghost function Apply(cx: Cx, s: Store, op: StoreOp): Store
    requires Usable(cx, s)
  {
    match op
    case InsertOp(key, id, intent) =>
      if Inserted(cx, s, key, id, intent).Success? then Inserted(cx, s, key, id, intent).value.0 else s
    case UpdateOp(key, d, intent) =>
      if Updated(cx, s, key, d, intent).Success? then Updated(cx, s, key, d, intent).value.0 else s
    case CompleteOp(key, d) =>
      if MarkedCompleted(cx, s, key, d).Success? then MarkedCompleted(cx, s, key, d).value.0 else s
  }

  // Keys stay, and a completed leaf is never touched again.
  ghost predicate Grown(s: Store, s': Store) {
    && s.leaves.Keys <= s'.leaves.Keys
    && forall k :: k in s.leaves && s.leaves[k].status == Completed ==> s'.leaves[k] == s.leaves[k]
  }

  // A run of calls, each insertion free of collisions among the strings it hashes.
  ghost predicate Run(cx: Cx, s: Store, ops: seq<StoreOp>, s': Store, strings: set<Bytes>)
    decreases |ops|
  {
    if ops == [] then s == s'
    else
      && Usable(cx, s)
      && (ops[0].InsertOp? ==> Collisionless(cx.h, Digests(s.leaves), ops[0].key, strings))
      && Run(cx, Apply(cx, s, ops[0]), ops[1..], s', strings)
  }

  lemma StepKeeps(cx: Cx, s: Store, op: StoreOp, strings: set<Bytes>)
    requires Consistent(cx, s) && (op.InsertOp? ==> Collisionless(cx.h, Digests(s.leaves), op.key, strings))
    ensures Consistent(cx, Apply(cx, s, op)) && Grown(s, Apply(cx, s, op))
  {
    hide Consistent, Collisionless, Inserted, Updated, MarkedCompleted, Has, Miss, Insertable;
    match op
    case InsertOp(key, id, intent) => var _, _ := InsertKeepsRoot(cx, s, key, id, intent, strings);
    case UpdateOp(key, d, intent) => var _, _ := UpdateKeepsRoot(cx, s, key, d, intent);
    case CompleteOp(key, d) => var _, _ := CompleteKeepsRoot(cx, s, key, d);
  }

  // Along every run from a consistent store, so from the empty one: the cached root is the rebuilt root,
  // keys are never lost and completed leaves are frozen.
  lemma {:induction false} RunKeeps(cx: Cx, s: Store, ops: seq<StoreOp>, s': Store, strings: set<Bytes>)
    requires Consistent(cx, s) && Run(cx, s, ops, s', strings)
    ensures Consistent(cx, s') && Grown(s, s')
    decreases |ops|
  {
    hide Consistent, Apply, Collisionless;
    if ops != [] {
      StepKeeps(cx, s, ops[0], strings);
      RunKeeps(cx, Apply(cx, s, ops[0]), ops[1..], s', strings);
    }
  }

  // A store of two intents in which a third, with a key of its own, is refused.
  lemma SomeIntentIsRefused(digest: Intention -> Hash32, s: Store, id: OrderId, intent: Intention)
    requires s.leaves.Keys == {[0], [1]}
    ensures var cx := Cx(SampleHash, digest);
      Usable(cx, s) && [2] !in s.leaves && Inserted(cx, s, [2], id, intent) == Failure(Unsupported)
  {
    var entries := Digests(s.leaves);
    var value, other := entries[[0]], entries[[1]];
    assert entries == map[[0] := value, [1] := other];
    hide SampleHash, Digests, Insertable, ProofForMissing, Insert;
    SomeKeyIsNotInsertable(value, other);
  }
}
