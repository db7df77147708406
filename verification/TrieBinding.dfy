/**
 The binding theorems for keys and values: what a root, and any proof against it, pins down.
 */
module TrieBinding {
  import opened Bytes
  import opened Mpf
  import opened MpfReference
  import opened MpfCompleteness
  import opened MpfBinding
  import opened Tries

  // Every string hashed on the way to the root of the entries: keys, values, leaves and nodes.
  ghost function EntryStrings(h: HashFn, entries: Entries): set<Bytes>
    requires InjectiveOn(h, entries.Keys)
  {
    entries.Keys + entries.Values + RootStrings(h, PathMap(h, entries), 0)
  }

  ghost predicate Values32(entries: Entries) {
    forall k :: k in entries ==> |entries[k]| == 32
  }

  ghost predicate NeverEmpty(h: HashFn, s: set<Bytes>) {
    forall a :: a in s ==> h(a) != EMPTY_ROOT
  }

  lemma EntriesApart(h: HashFn, entries: Entries, strings: set<Bytes>, s: set<Bytes>)
    requires InjectiveOn(h, strings) && entries.Values <= strings && s <= strings && Values32(entries)
    requires InjectiveOn(h, entries.Keys)
    ensures ValuesApart(h, PathMap(h, entries), s)
  {
    hide PathMap, InjectiveOn;
    var m := PathMap(h, entries);
    forall p, a | p in m && a in s && |a| == 64
      ensures m[p] != h(a)
    {
      var k := PathMapKey(h, entries, p);
      assert entries[k] in entries.Values;
      if m[p] == h(a) { InjectiveAt(h, strings, entries[k], a); }
    }
  }

  lemma SubsetEntries(h: HashFn, strings: set<Bytes>, e: Entries, e': Entries)
    requires InjectiveOn(h, strings) && e.Keys <= strings && e.Values <= strings && e'.Keys <= strings
    requires e'.Values <= strings
    requires InjectiveOn(h, e.Keys) && InjectiveOn(h, e'.Keys) && PathMap(h, e) == PathMap(h, e')
    ensures forall k :: k in e ==> k in e' && e'[k] == e[k]
  {
    hide PathMap, InjectiveOn;
    forall k | k in e
      ensures k in e' && e'[k] == e[k]
    {
      PathMapAt(h, e, k);
      var k' := PathMapKey(h, e', h(k));
      InjectiveAt(h, strings, k, k');
      assert e[k] in e.Values && e'[k] in e'.Values;
      InjectiveAt(h, strings, e[k], e'[k]);
    }
  }

  // The root commits to keys and values.
  lemma EqualRootsEqualEntries(h: HashFn, e: Entries, e': Entries, strings: set<Bytes>)
    requires InjectiveOn(h, e.Keys) && InjectiveOn(h, e'.Keys) && Values32(e) && Values32(e')
    requires EntryStrings(h, e) + EntryStrings(h, e') <= strings && InjectiveOn(h, strings)
    requires NeverEmpty(h, RootStrings(h, PathMap(h, e), 0) + RootStrings(h, PathMap(h, e'), 0))
    requires RootOfEntries(h, e) == RootOfEntries(h, e')
    ensures e == e'
  {
    hide PathMap, InjectiveOn, RootStrings, RootOf;
    var m, m' := PathMap(h, e), PathMap(h, e');
    var s := RootStrings(h, m, 0) + RootStrings(h, m', 0);
    InjectiveSubset(h, strings, s);
    EntriesApart(h, e, strings, s);
    EntriesApart(h, e', strings, s);
    RootCommits(h, s, m, m', 0);
    SubsetEntries(h, strings, e, e');
    SubsetEntries(h, strings, e', e);
  }

  ghost function ClaimStrings(h: HashFn, entries: Entries, key: Bytes, value: Bytes, proof: Proof): set<Bytes>
    requires InjectiveOn(h, entries.Keys)
  {
    EntryStrings(h, entries) + {key, value} + IncludingStrings(h, h(key), h(value), 0, proof)
  }

  // Soundness against every proof, generated or not: a key and a 32-byte value that some proof shows
  // under the root of the entries are an entry, and what the proof then recomputes for a new value is
  // the root of the updated entries.
  lemma AnyProofIsSound(
    h: HashFn, entries: Entries, key: Bytes, value: Bytes, newValue: Bytes, proof: Proof, strings: set<Bytes>)
    requires InjectiveOn(h, entries.Keys) && Values32(entries) && |value| == 32
    requires ClaimStrings(h, entries, key, value, proof) <= strings && InjectiveOn(h, strings)
    requires NeverEmpty(h, RootStrings(h, PathMap(h, entries), 0) + IncludingStrings(h, h(key), h(value), 0, proof))
    requires Has(h, RootOfEntries(h, entries), key, value, proof)
    ensures key in entries && entries[key] == value
    ensures InjectiveOn(h, entries[key := newValue].Keys)
    ensures Update(h, RootOfEntries(h, entries), key, proof, value, newValue) ==
      Success(RootOfEntries(h, entries[key := newValue]))
  {
    hide PathMap, InjectiveOn, RootStrings, RootOf, IncludingStrings, Including;
    var m := PathMap(h, entries);
    var s := RootStrings(h, m, 0) + IncludingStrings(h, h(key), h(value), 0, proof);
    InjectiveSubset(h, strings, s);
    EntriesApart(h, entries, strings, s);
    OneApart(h, value, strings, s);
    IncludingSound(h, s, m, h(key), h(value), h(newValue), 0, proof);
    ClaimedEntry(h, entries, key, value, strings);
    assert entries.Keys + {key} == entries.Keys;
    PathMapSet(h, entries, key, newValue);
  }

  lemma OneApart(h: HashFn, value: Bytes, strings: set<Bytes>, s: set<Bytes>)
    requires InjectiveOn(h, strings) && value in strings && s <= strings && |value| == 32
    ensures ValueApart(h, h(value), s)
  {
    forall a | a in s && |a| == 64
      ensures h(value) != h(a)
    {
      if h(value) == h(a) { InjectiveAt(h, strings, value, a); }
    }
  }

  lemma ClaimedEntry(h: HashFn, entries: Entries, key: Bytes, value: Bytes, strings: set<Bytes>)
    requires InjectiveOn(h, entries.Keys) && InjectiveOn(h, strings)
    requires entries.Keys <= strings && entries.Values <= strings && key in strings && value in strings
    requires h(key) in PathMap(h, entries) && PathMap(h, entries)[h(key)] == h(value)
    ensures key in entries && entries[key] == value
  {
    hide PathMap, InjectiveOn;
    var k := PathMapKey(h, entries, h(key));
    assert entries[k] in entries.Values;
    InjectiveAt(h, strings, k, key);
    InjectiveAt(h, strings, entries[k], value);
  }

  // So a proof that shows the committed value shows no other, and cannot update from another.
  lemma OnlyTheCommittedValue(
    h: HashFn, entries: Entries, key: Bytes, value: Bytes, other: Bytes, newValue: Bytes, proof: Proof,
    strings: set<Bytes>)
    requires InjectiveOn(h, entries.Keys) && Values32(entries) && |other| == 32
    requires key in entries && entries[key] == value && other != value
    requires ClaimStrings(h, entries, key, other, proof) <= strings && InjectiveOn(h, strings)
    requires NeverEmpty(h, RootStrings(h, PathMap(h, entries), 0) + IncludingStrings(h, h(key), h(other), 0, proof))
    ensures !Has(h, RootOfEntries(h, entries), key, other, proof)
    ensures Update(h, RootOfEntries(h, entries), key, proof, other, newValue).Failure?
  {
    hide PathMap, InjectiveOn, RootStrings, RootOf, IncludingStrings, Including;
    if Has(h, RootOfEntries(h, entries), key, other, proof) {
      AnyProofIsSound(h, entries, key, other, newValue, proof, strings);
    }
  }

  ghost function MissingStrings(h: HashFn, entries: Entries, key: Bytes, proof: Proof): set<Bytes>
    requires InjectiveOn(h, entries.Keys)
  {
    EntryStrings(h, entries) + {key} + ExcludingStrings(h, h(key), 0, proof)
  }

  lemma NotInsertableFails(h: HashFn, entries: Entries, key: Bytes, proof: Proof, strings: set<Bytes>)
    requires InjectiveOn(h, entries.Keys) && key !in entries && Values32(entries) && !Insertable(h, entries, key)
    requires ProofForMissing(h, entries, key) == Success(proof)
    requires MissingStrings(h, entries, key, proof) <= strings && InjectiveOn(h, strings)
    requires NeverEmpty(h, RootStrings(h, PathMap(h, entries), 0) + ExcludingStrings(h, h(key), 0, proof))
    ensures Excluding(h, h(key), 0, proof) != Success(RootOfEntries(h, entries))
  {
    hide PathMap, InjectiveOn, RootStrings, RootOf, ExcludingStrings, Excluding, Follows, ProofForPath, WellFormed,
         Distinct, MpfLeaves, Contents;
    LeavesDistinct(h, entries);
    LeavesContents(h, entries);
    var s := RootStrings(h, PathMap(h, entries), 0) + ExcludingStrings(h, h(key), 0, proof);
    InjectiveSubset(h, strings, s);
    EntriesApart(h, entries, strings, s);
    DivergentFails(h, s, MpfLeaves(h, entries), h(key), 0, proof);
  }

  // A missing key can be inserted with the proof generated for it exactly when it is insertable.
  lemma InsertExactlyWhen(h: HashFn, entries: Entries, key: Bytes, value: Bytes, proof: Proof, strings: set<Bytes>)
    requires InjectiveOn(h, entries.Keys + {key}) && InjectiveOn(h, entries.Keys) && key !in entries
    requires Values32(entries)
    requires ProofForMissing(h, entries, key) == Success(proof)
    requires MissingStrings(h, entries, key, proof) <= strings && InjectiveOn(h, strings)
    requires NeverEmpty(h, RootStrings(h, PathMap(h, entries), 0) + ExcludingStrings(h, h(key), 0, proof))
    ensures Insert(h, RootOfEntries(h, entries), key, value, proof).Success? <==> Insertable(h, entries, key)
    ensures Miss(h, RootOfEntries(h, entries), key, proof) <==> Insertable(h, entries, key)
  {
    hide PathMap, InjectiveOn, RootStrings, RootOf, ExcludingStrings, Including, Excluding, Follows, ProofForMissing;
    if Insertable(h, entries, key) {
      var _ := MissingProofs(h, entries, key, value);
    } else {
      NotInsertableFails(h, entries, key, proof, strings);
    }
  }

  // Three digests of which the first two differ only in their last nibble.
  ghost function SampleHash(s: Bytes): Hash32 {
    if s == [0] then Zeros(32) else if s == [1] then Zeros(31) + [1] else [255] + Zeros(31)
  }

  lemma SampleNibbles(zero: Hash32, one: Hash32, path: Hash32)
    requires zero == SampleHash([0]) && one == SampleHash([1]) && path == SampleHash([2])
    ensures NibbleAt(path, 0) == 15 && NibbleAt(zero, 0) == 0 && NibbleAt(one, 0) == 0
    ensures NibbleAt(path, 63) == 0 && NibbleAt(zero, 63) == 0 && NibbleAt(one, 63) == 1
    ensures Agree(zero, one, 0, 63)
  {
  }

  lemma DivergesAtOnce(m: LeafMap, zero: Hash32, one: Hash32, path: Hash32)
    requires m.Keys == {zero, one} && zero != one
    requires NibbleAt(zero, 0) == 0 && NibbleAt(one, 0) == 0 && NibbleAt(path, 0) == 15
    ensures !Follows(m, path)
  {
    hide NibbleAt;
    assert LeavesAt(zero, path, 0);
    assert !BranchesAt(m, zero, path, 0);
    assert !AloneAt(m, zero, path, 0) by { assert Agree(one, path, 0, 0); }
  }

  // Below the last nibble there is nothing left to tell paths apart.
  lemma FailsAtLeaf(h: HashFn, leaves: seq<Leaf>, path: Hash32)
    requires WellFormed(leaves, 64) && leaves != [] && path !in Contents(leaves)
    ensures ProofForPath(h, leaves, path, 64).Failure?
  {
    if |leaves| > 1 {
      PathsEqual(leaves[0].path, leaves[1].path);
      assert false;
    }
    assert leaves[0].path in Contents(leaves);
  }

  lemma FailsAtLastSplit(h: HashFn, leaves: seq<Leaf>, path: Hash32, near: Hash32)
    requires AtSplit(leaves, 0, 63) && path !in Contents(leaves)
    requires near in Contents(leaves) && NibbleAt(near, 63) == NibbleAt(path, 63)
    ensures ProofForPath(h, leaves, path, 0).Failure?
  {
    hide ProofForPath, ProofStepForBranch, Children, SplitOf, NibbleAt;
    var child := Children(leaves, 63)[NibbleAt(path, 63)];
    ChildOf(leaves, 0, 63, NibbleAt(path, 63));
    assert near in Contents(child);
    FailsAtLeaf(h, child, path);
    if ProofForPath(h, leaves, path, 0).Success? {
      var _, _ := ProofSplits(h, leaves, path, 0, 63, ProofForPath(h, leaves, path, 0).value);
    }
  }

  // Three digests of which the first two share all but the last nibble, and the third leaves at once.
  ghost predicate ThirdLeaves(h: HashFn, zero: Hash32, one: Hash32, path: Hash32) {
    && h([0]) == zero && h([1]) == one && h([2]) == path
    && NibbleAt(path, 0) == 15 && NibbleAt(zero, 0) == 0 && NibbleAt(one, 0) == 0
    && NibbleAt(path, 63) == 0 && NibbleAt(zero, 63) == 0 && NibbleAt(one, 63) == 1
    && Agree(zero, one, 0, 63)
  }

  lemma ThirdIsRefused(h: HashFn, zero: Hash32, one: Hash32, path: Hash32, entries: Entries)
    requires ThirdLeaves(h, zero, one, path) && entries.Keys == {[0], [1]}
    ensures InjectiveOn(h, {[0], [1], [2]}) && InjectiveOn(h, entries.Keys)
    ensures !Insertable(h, entries, [2]) && ProofForMissing(h, entries, [2]).Failure?
  {
    hide NibbleAt, Follows, ProofForPath, Agree, MpfLeaves, PathMap;
    var m := PathMap(h, entries);
    ThirdPaths(h, entries, zero, one);
    DivergesAtOnce(m, zero, one, path);
    NoProofForSample(h, entries, m, zero, one, path);
  }

  lemma ThirdPaths(h: HashFn, entries: Entries, zero: Hash32, one: Hash32)
    requires InjectiveOn(h, entries.Keys) && entries.Keys == {[0], [1]} && h([0]) == zero && h([1]) == one
    ensures PathMap(h, entries).Keys == {zero, one}
  {
    PathMapAt(h, entries, [0]);
    PathMapAt(h, entries, [1]);
  }

  // Not every missing key is insertable: the third sample key leaves inside the prefix of the other two,
  // and not even a proof can be made for it.
  lemma SomeKeyIsNotInsertable(value: Bytes, other: Bytes)
    ensures InjectiveOn(SampleHash, {[0], [1], [2]})
    ensures !Insertable(SampleHash, map[[0] := value, [1] := other], [2])
    ensures ProofForMissing(SampleHash, map[[0] := value, [1] := other], [2]).Failure?
  {
    var entries: Entries := map[[0] := value, [1] := other];
    SampleNibbles(SampleHash([0]), SampleHash([1]), SampleHash([2]));
    hide SampleHash, NibbleAt, Agree, Insertable, ProofForMissing;
    assert entries.Keys == {[0], [1]};
    assert ThirdLeaves(SampleHash, SampleHash([0]), SampleHash([1]), SampleHash([2]));
    ThirdIsRefused(SampleHash, SampleHash([0]), SampleHash([1]), SampleHash([2]), entries);
  }

  lemma NoProofForSample(h: HashFn, entries: Entries, m: LeafMap, zero: Hash32, one: Hash32, path: Hash32)
    requires InjectiveOn(h, entries.Keys) && m == PathMap(h, entries) && m.Keys == {zero, one} && path !in m
    requires Agree(zero, one, 0, 63) && NibbleAt(zero, 63) != NibbleAt(one, 63)
    requires NibbleAt(path, 63) == NibbleAt(zero, 63)
    ensures WellFormed(MpfLeaves(h, entries), 0) && ProofForPath(h, MpfLeaves(h, entries), path, 0).Failure?
  {
    hide PathMap, MpfLeaves, ProofForPath, InjectiveOn;
    var leaves := MpfLeaves(h, entries);
    LeavesDistinct(h, entries);
    LeavesContents(h, entries);
    TwoLeaves(leaves, zero, one);
    var k := SplitFacts(leaves, 0);
    assert IsSplit(m, 63);
    SplitUnique(m, k, 63);
    hide AtSplit;
    FailsAtLastSplit(h, leaves, path, zero);
  }

  lemma TwoLeaves(leaves: seq<Leaf>, zero: Hash32, one: Hash32)
    requires Distinct(leaves) && Contents(leaves).Keys == {zero, one} && zero != one
    ensures |leaves| >= 2
  {
    assert zero in Contents(leaves) && one in Contents(leaves);
  }
}
