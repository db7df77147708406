/**
 The trie object over keys and values, and the transitions on its root that a proof allows.
 */
module Tries {
  import opened Bytes
  import opened Mpf
  import opened MpfReference
  import opened MpfCompleteness

  type Entries = map<Bytes, Bytes>

  function LeafOf(h: HashFn, key: Bytes, value: Bytes): Leaf {
    Leaf(key, h(key), value, h(value))
  }

  function LeavesFor(h: HashFn, entries: Entries, keys: seq<Bytes>): (r: seq<Leaf>)
    requires forall k :: k in keys ==> k in entries
    ensures |r| == |keys|
    ensures forall i :: 0 <= i < |r| ==> r[i] == LeafOf(h, keys[i], entries[keys[i]])
  {
    seq(|keys|, i requires 0 <= i < |keys| => assert keys[i] in keys; LeafOf(h, keys[i], entries[keys[i]]))
  }

  // The leaves of an ordered map, in key order.
  function MpfLeaves(h: HashFn, entries: Entries): seq<Leaf> {
    LeavesFor(h, entries, SortedKeys(entries.Keys))
  }

  // What the trie commits to: each key's path with its value hash.
  ghost function PathMap(h: HashFn, entries: Entries): LeafMap
    requires InjectiveOn(h, entries.Keys)
  {
    map k | k in entries :: h(k) := h(entries[k])
  }

  ghost function RootOfEntries(h: HashFn, entries: Entries): Hash32
    requires InjectiveOn(h, entries.Keys)
  {
    RootOf(h, PathMap(h, entries), 0)
  }

  lemma LeavesDistinct(h: HashFn, entries: Entries)
    requires InjectiveOn(h, entries.Keys)
    ensures WellFormed(MpfLeaves(h, entries), 0) && Distinct(MpfLeaves(h, entries))
  {
    var keys := SortedKeys(entries.Keys);
    var leaves := MpfLeaves(h, entries);
    forall i, j | 0 <= i < j < |leaves|
      ensures leaves[i].path != leaves[j].path
    {
      assert keys[i] in keys && keys[j] in keys;
    }
  }

  lemma PathMapAt(h: HashFn, entries: Entries, k: Bytes)
    requires InjectiveOn(h, entries.Keys) && k in entries
    ensures h(k) in PathMap(h, entries) && PathMap(h, entries)[h(k)] == h(entries[k])
  {
  }

  lemma PathMapKey(h: HashFn, entries: Entries, p: Hash32) returns (k: Bytes)
    requires InjectiveOn(h, entries.Keys) && p in PathMap(h, entries)
    ensures k in entries && h(k) == p && PathMap(h, entries)[p] == h(entries[k])
  {
    k :| k in entries && h(k) == p;
    PathMapAt(h, entries, k);
  }

  lemma LeafKey(h: HashFn, entries: Entries, l: Leaf)
    requires l in MpfLeaves(h, entries)
    ensures l.key in entries && l == LeafOf(h, l.key, entries[l.key])
  {
    var keys := SortedKeys(entries.Keys);
    var i :| 0 <= i < |keys| && MpfLeaves(h, entries)[i] == l;
    assert keys[i] in keys;
  }

  lemma KeyLeaf(h: HashFn, entries: Entries, k: Bytes)
    requires k in entries
    ensures LeafOf(h, k, entries[k]) in MpfLeaves(h, entries)
  {
    var keys := SortedKeys(entries.Keys);
    assert k in keys;
    var i :| 0 <= i < |keys| && keys[i] == k;
    assert MpfLeaves(h, entries)[i] == LeafOf(h, k, entries[k]);
  }

  lemma LeavesContents(h: HashFn, entries: Entries)
    requires InjectiveOn(h, entries.Keys)
    ensures Distinct(MpfLeaves(h, entries)) && Contents(MpfLeaves(h, entries)) == PathMap(h, entries)
  {
    LeavesDistinct(h, entries);
    ContentsAre(h, entries, MpfLeaves(h, entries), PathMap(h, entries));
  }

  lemma ContentsAre(h: HashFn, entries: Entries, leaves: seq<Leaf>, m: LeafMap)
    requires InjectiveOn(h, entries.Keys) && leaves == MpfLeaves(h, entries) && Distinct(leaves)
    requires m == PathMap(h, entries)
    ensures Contents(leaves) == m
  {
    hide PathMap, Distinct, InjectiveOn, MpfLeaves, Contents;
    forall p | p in Contents(leaves)
      ensures p in m && m[p] == Contents(leaves)[p]
    {
      var l :| l in leaves && l.path == p;
      LeafKey(h, entries, l);
      PathMapAt(h, entries, l.key);
    }
    forall p | p in m
      ensures p in Contents(leaves)
    {
      var k := PathMapKey(h, entries, p);
      KeyLeaf(h, entries, k);
    }
  }

  // ----- the object -----

  function ProofForPresent(h: HashFn, entries: Entries, key: Bytes): MpfResult<Proof>
    requires InjectiveOn(h, entries.Keys)
  {
    if key !in entries then Failure(MissingKey)
    else
      LeavesDistinct(h, entries);
      ProofForPath(h, MpfLeaves(h, entries), h(key), 0)
  }

  function ProofForMissing(h: HashFn, entries: Entries, key: Bytes): MpfResult<Proof>
    requires InjectiveOn(h, entries.Keys)
  {
    if key in entries then Failure(ExistingKey)
    else
      LeavesDistinct(h, entries);
      ProofForPath(h, MpfLeaves(h, entries), h(key), 0)
  }

  method Root(h: HashFn, entries: Entries) returns (root: Hash32)
    requires InjectiveOn(h, entries.Keys)
    ensures root == RootOfEntries(h, entries)
  {
    LeavesDistinct(h, entries);
    LeavesContents(h, entries);
    RootForIsReference(h, MpfLeaves(h, entries), 0);
    root := RootFor(h, MpfLeaves(h, entries), 0);
  }

  class Trie {
    const h: HashFn
    var leaves: Entries

    // Two keys whose digests coincide have no trie: the source stops there.
    ghost predicate Valid()
      reads this
    {
      InjectiveOn(h, leaves.Keys)
    }

    constructor (h: HashFn)
      ensures this.h == h && leaves == map[] && Valid()
    {
      this.h := h;
      leaves := map[];
    }

    constructor FromLeaves(h: HashFn, entries: Entries)
      requires InjectiveOn(h, entries.Keys)
      ensures this.h == h && leaves == entries && Valid()
    {
      this.h := h;
      leaves := entries;
    }

    method Insert(key: Bytes, value: Bytes) returns (r: MpfResult<Hash32>)
      requires InjectiveOn(h, leaves.Keys + {key})
      modifies this
      ensures Valid()
      ensures if key in old(leaves) then r == Failure(ExistingKey) && leaves == old(leaves)
              else leaves == old(leaves)[key := value] && r == Success(RootOfEntries(h, leaves))
    {
      if key in leaves { return Failure(ExistingKey); }
      leaves := leaves[key := value];
      var root := Root(h, leaves);
      r := Success(root);
    }

    method Update(key: Bytes, value: Bytes) returns (r: MpfResult<Hash32>)
      requires Valid()
      modifies this
      ensures Valid()
      ensures if key !in old(leaves) then r == Failure(MissingKey) && leaves == old(leaves)
              else leaves == old(leaves)[key := value] && r == Success(RootOfEntries(h, leaves))
    {
      if key !in leaves { return Failure(MissingKey); }
      leaves := leaves[key := value];
      var root := Root(h, leaves);
      r := Success(root);
    }

    method Delete(key: Bytes) returns (r: MpfResult<Hash32>)
      requires Valid()
      modifies this
      ensures Valid()
      ensures if key !in old(leaves) then r == Failure(MissingKey) && leaves == old(leaves)
              else leaves == old(leaves) - {key} && r == Success(RootOfEntries(h, leaves))
    {
      if key !in leaves { return Failure(MissingKey); }
      leaves := leaves - {key};
      var root := Root(h, leaves);
      r := Success(root);
    }
  }

  // ----- proof transitions agree with rebuilding -----

  // An update shows the old value under the old root and the new value under the new root.
  lemma UpdateShows(
    h: HashFn, root: Hash32, key: Bytes, proof: Proof, oldValue: Bytes, newValue: Bytes, newRoot: Hash32)
    ensures Update(h, root, key, proof, oldValue, newValue) == Success(newRoot) <==>
      Has(h, root, key, oldValue, proof) && Has(h, newRoot, key, newValue, proof)
  {
    hide Including;
  }

  // An insertion shows the key missing under the old root and the value under the new root.
  lemma InsertShows(h: HashFn, root: Hash32, key: Bytes, value: Bytes, proof: Proof, newRoot: Hash32)
    ensures Insert(h, root, key, value, proof) == Success(newRoot) <==>
      Miss(h, root, key, proof) && Has(h, newRoot, key, value, proof)
  {
    hide Including, Excluding;
  }

  lemma OneEntry(h: HashFn, key: Bytes, value: Bytes)
    ensures InjectiveOn(h, map[key := value].Keys) && PathMap(h, map[key := value]) == map[h(key) := h(value)]
  {
    hide PathMap;
    var entries: Entries := map[key := value];
    PathMapAt(h, entries, key);
    forall p | p in PathMap(h, entries)
      ensures p == h(key)
    {
      var _ := PathMapKey(h, entries, p);
    }
  }

  // Whatever the hash, the root of no entries is 32 zero bytes.
  lemma NoEntriesRoot(h: HashFn, entries: Entries)
    requires entries == map[]
    ensures InjectiveOn(h, entries.Keys) && RootOfEntries(h, entries) == seq<byte>(32, _ => 0)
  {
    assert PathMap(h, entries) == map[];
    EmptyRoot(h, 0);
  }

  // The root of one entry is the hash of the tag of a whole path, the key's hash and the value's.
  lemma OneEntryRoot(h: HashFn, key: Bytes, value: Bytes)
    ensures InjectiveOn(h, map[key := value].Keys)
    ensures RootOfEntries(h, map[key := value]) == h([0xff] + h(key) + h(value))
  {
    hide PathMap, RootOf;
    OneEntry(h, key, value);
    RootOfLeaf(h, h(key), h(value), 0);
    assert SuffixAt(h(key), 0) == [0xff] + h(key);
  }

  lemma PathMapSet(h: HashFn, entries: Entries, key: Bytes, value: Bytes)
    requires InjectiveOn(h, entries.Keys + {key})
    ensures InjectiveOn(h, entries.Keys) && InjectiveOn(h, entries[key := value].Keys)
    ensures PathMap(h, entries[key := value]) == PathMap(h, entries)[h(key) := h(value)]
  {
    hide PathMap, InjectiveOn;
    var e' := entries[key := value];
    assert e'.Keys == entries.Keys + {key};
    InjectiveSubset(h, e'.Keys, entries.Keys);
    var m, m' := PathMap(h, e'), PathMap(h, entries)[h(key) := h(value)];
    PathMapAt(h, e', key);
    forall p | p in m
      ensures p in m' && m[p] == m'[p]
    {
      var k := PathMapKey(h, e', p);
      if k != key {
        PathMapAt(h, entries, k);
        if p == h(key) { InjectiveAt(h, e'.Keys, k, key); }
      }
    }
    forall p | p in m'
      ensures p in m
    {
      if p != h(key) {
        var k := PathMapKey(h, entries, p);
        PathMapAt(h, e', k);
      }
    }
  }

  lemma PathMapDrop(h: HashFn, entries: Entries, key: Bytes)
    requires InjectiveOn(h, entries.Keys + {key})
    ensures InjectiveOn(h, entries.Keys) && InjectiveOn(h, (entries - {key}).Keys)
    ensures PathMap(h, entries - {key}) == PathMap(h, entries) - {h(key)}
  {
    hide PathMap, InjectiveOn;
    var e' := entries - {key};
    InjectiveSubset(h, entries.Keys + {key}, entries.Keys);
    InjectiveSubset(h, entries.Keys + {key}, e'.Keys);
    var m, m' := PathMap(h, e'), PathMap(h, entries) - {h(key)};
    forall p | p in m
      ensures p in m' && m[p] == m'[p]
    {
      var k := PathMapKey(h, e', p);
      PathMapAt(h, entries, k);
      if h(k) == h(key) { InjectiveAt(h, entries.Keys + {key}, k, key); }
    }
    forall p | p in m'
      ensures p in m
    {
      var k := PathMapKey(h, entries, p);
      PathMapAt(h, e', k);
    }
  }

  // `key` can be inserted: its path leaves the trie at a branch or at a single leaf, never inside a
  // compressed prefix.
  ghost predicate Insertable(h: HashFn, entries: Entries, key: Bytes)
    requires InjectiveOn(h, entries.Keys)
  {
    Follows(PathMap(h, entries), h(key))
  }

  lemma ExactProof(h: HashFn, entries: Entries, key: Bytes, value: Bytes) returns (proof: Proof)
    requires InjectiveOn(h, entries.Keys + {key}) && InjectiveOn(h, entries.Keys) && Insertable(h, entries, key)
    ensures InjectiveOn(h, entries[key := value].Keys) && InjectiveOn(h, (entries - {key}).Keys)
    ensures (if key in entries then ProofForPresent(h, entries, key) else ProofForMissing(h, entries, key)) ==
      Success(proof)
    ensures Including(h, h(key), h(value), 0, proof) == Success(RootOfEntries(h, entries[key := value]))
    ensures Excluding(h, h(key), 0, proof) == Success(RootOfEntries(h, entries - {key}))
  {
    var leaves := MpfLeaves(h, entries);
    LeavesDistinct(h, entries);
    LeavesContents(h, entries);
    proof := GeneratedProof(h, leaves, h(key), 0, h(value));
    PathMapSet(h, entries, key, value);
    PathMapDrop(h, entries, key);
  }

  // With the proof of a stored key: the key is shown, updating gives the root of the updated entries
  // and deleting gives the root of the remaining entries.
  lemma PresentProofs(h: HashFn, entries: Entries, key: Bytes, value: Bytes) returns (proof: Proof)
    requires InjectiveOn(h, entries.Keys) && key in entries
    ensures InjectiveOn(h, entries[key := value].Keys) && InjectiveOn(h, (entries - {key}).Keys)
    ensures ProofForPresent(h, entries, key) == Success(proof)
    ensures Has(h, RootOfEntries(h, entries), key, entries[key], proof)
    ensures Update(h, RootOfEntries(h, entries), key, proof, entries[key], value) ==
      Success(RootOfEntries(h, entries[key := value]))
    ensures Delete(h, RootOfEntries(h, entries), key, entries[key], proof) == Success(RootOfEntries(h, entries - {key}))
  {
    hide Including, Excluding, RootOf, ProofForPresent;
    assert entries.Keys + {key} == entries.Keys;
    assert h(key) in PathMap(h, entries);
    StoredFollows(PathMap(h, entries), h(key));
    proof := ExactProof(h, entries, key, value);
    var _ := ExactProof(h, entries, key, entries[key]);
    assert entries[key := entries[key]] == entries;
  }

  // With the proof of an insertable missing key: the key is shown to be missing, and inserting gives
  // the root of the extended entries.
  lemma MissingProofs(h: HashFn, entries: Entries, key: Bytes, value: Bytes) returns (proof: Proof)
    requires InjectiveOn(h, entries.Keys + {key}) && InjectiveOn(h, entries.Keys) && key !in entries
    requires Insertable(h, entries, key)
    ensures InjectiveOn(h, entries[key := value].Keys)
    ensures ProofForMissing(h, entries, key) == Success(proof)
    ensures Miss(h, RootOfEntries(h, entries), key, proof)
    ensures Insert(h, RootOfEntries(h, entries), key, value, proof) == Success(RootOfEntries(h, entries[key := value]))
  {
    hide Including, Excluding, RootOf, ProofForMissing;
    proof := ExactProof(h, entries, key, value);
    assert entries - {key} == entries;
  }
}
