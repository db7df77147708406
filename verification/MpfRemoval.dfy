/**
 Deleting through any accepted proof, generated or not.  The proof shows the key and its value; what it gives without
 the key is the rebuilt root exactly when its last step leaves the path where it says, carries the kind of digest it
 is for, and, if it is a branch, has two other branches occupied.
 */
module MpfRemoval {
  import opened Bytes
  import opened Mpf
  import opened MpfReference
  import opened MpfCompleteness
  import opened MpfBinding
  import opened Tries
  import opened TrieBinding
  import opened MpfAbsence

  // The nibble the last step of a proof from `c` names.
  ghost function LastAt(c: nat, proof: Proof): nat
    requires proof != []
    decreases |proof|
  {
    if |proof| == 1 then c + proof[0].skip else LastAt(c + proof[0].skip + 1, proof[1..])
  }

  // Two paths of `m` follow the path up to `d` and part there.
  ghost predicate PartAt(m: LeafMap, path: Hash32, d: nat) {
    d < 64 && exists p, q ::
      p in m && q in m && Agree(p, path, 0, d) && Agree(q, path, 0, d) && NibbleAt(p, d) != NibbleAt(q, d)
  }

  // A last step that is a branch stays one without the path.
  ghost predicate LastBranches(m: LeafMap, path: Hash32, c: nat, proof: Proof) {
    proof != [] && proof[|proof| - 1].Branch? ==> PartAt(m - {path}, path, LastAt(c, proof))
  }

  // `proof` is accepted against the root of `m` as showing the path with the value hash `v`.
  ghost predicate Included(
    h: HashFn, s: set<Bytes>, m: LeafMap, path: Hash32, v: Hash32, c: nat, proof: Proof) {
    && Binding(h, s) && ValuesApart(h, m, s) && ValueApart(h, v, s) && Shares(m, c) && Beside(m, path, c)
    && IncludingStrings(h, path, v, c, proof) <= s && RootStrings(h, m, c) <= s
    && Including(h, path, v, c, proof) == Success(RootOf(h, m, c))
  }

  // Excluding the path gives the root of `m` without it.
  ghost predicate Removes(h: HashFn, m: LeafMap, path: Hash32, c: nat, proof: Proof) {
    Shares(m - {path}, c) && Excluding(h, path, c, proof) == Success(RootOf(h, m - {path}, c))
  }

  // ----- a last step with one neighbour -----

  lemma LeafSiblingRemoves(h: HashFn, s: set<Bytes>, mo: LeafMap, path: Hash32, c: nat, step: ProofStep)
    requires Binding(h, s) && step.LeafStep? && StepLeaves(path, c, step) && !NodeDigest(h, s, step.value)
    requires Sibling(h, s, mo, path, c + step.skip, StepNeighbor(step, c + step.skip))
    ensures Shares(mo, c) && Excluding(h, path, c, [step]) == Success(RootOf(h, mo, c))
  {
    hide RootOf, RootStrings, Binding, SuffixAt, NodeDigest, Excluding;
    var d := c + step.skip;
    var p := LeafCollapses(h, s, mo, step.key, step.value, d + 1);
    assert p in mo;
    assert Agree(p, step.key, c, 64);
    SuffixSame(p, step.key, c);
    RootOfLeaf(h, p, step.value, c);
    ExcludingLast(h, path, c, step);
  }

  // Below a neighbour with a node's digest hangs that node.
  lemma SiblingNode(h: HashFn, s: set<Bytes>, mo: LeafMap, path: Hash32, c: nat, d: nat, n: Neighbor)
    returns (p: Hash32, k: nat)
    requires Binding(h, s) && ValuesApart(h, mo, s) && NodeDigest(h, s, n.root) && c <= d
    requires Sibling(h, s, mo, path, d, n)
    ensures ForkNode(h, mo, path, c, d, n, p, k)
  {
    hide RootOf, RootStrings, RootsOf, Merkle16Roots, Strings16, ChildStrings, IsSplit, SuffixAt, NibbleAt, NibbleRange;
    p, k := Shape(mo, d + 1);
    if mo.Keys == {p} {
      RootStringsOfLeaf(h, mo, d + 1, p);
      JoinedTail(SuffixAt(p, d + 1), mo[p], n.prefix, n.root);
      assert false;
    } else {
      RootStringsOfNode(h, mo, d + 1, k, p);
      SplitBounds(mo, k);
      JoinedTail(NibbleRange(p, d + 1, k), Merkle16Roots(h, RootsOf(h, mo, k)), n.prefix, n.root);
    }
  }

  lemma ForkSiblingRemoves(h: HashFn, s: set<Bytes>, mo: LeafMap, path: Hash32, c: nat, step: ProofStep)
    requires Binding(h, s) && ValuesApart(h, mo, s) && step.Fork? && NodeDigest(h, s, step.neighbor.root)
    requires Sibling(h, s, mo, path, c + step.skip, step.neighbor)
    ensures Shares(mo, c) && Excluding(h, path, c, [step]) == Success(RootOf(h, mo, c))
  {
    hide RootOf, RootsOf, Merkle16Roots, IsSplit, Excluding, Binding, NodeDigest, Sibling, ValuesApart, NibbleAt;
    var d := c + step.skip;
    var p, k := SiblingNode(h, s, mo, path, c, d, step.neighbor);
    CollapseMap(h, mo, path, p, c, d, k);
    assert step == Fork(d - c, step.neighbor);
  }

  lemma LastRemoves(h: HashFn, s: set<Bytes>, m: LeafMap, path: Hash32, v: Hash32, c: nat, step: ProofStep)
    requires Included(h, s, m, path, v, c, [step]) && !step.Branch?
    requires StepLeaves(path, c, step) && LastKind(h, s, [step])
    ensures Removes(h, m, path, c, [step])
  {
    hide RootOf, RootStrings, Including, IncludingStrings, Excluding, Sibling, Binding, StepOk, StepLeaves, NodeDigest;
    LastSibling(h, s, m, path, v, c, step);
    if step.LeafStep? {
      LeafSiblingRemoves(h, s, m - {path}, path, c, step);
    } else {
      ForkSiblingRemoves(h, s, m - {path}, path, c, step);
    }
  }

  // ----- any proof -----

  // One step of a proof that shows the path: the rest shows it in the child on the path.
  lemma IncludedStep(
    h: HashFn, s: set<Bytes>, m: LeafMap, path: Hash32, v: Hash32, c: nat, proof: Proof, r': Hash32)
    returns (k: nat, mb: LeafMap)
    requires Included(h, s, m, path, v, c, proof) && proof != []
    ensures k == c + proof[0].skip && StepOk(path, c, proof[0]) && IsSplit(m, k) && Beside(m, path, k)
    ensures mb == Child(m, k, NibbleAt(path, k)) && Included(h, s, mb, path, v, k + 1, proof[1..])
    ensures StepRoot(h, path, c, proof[0], r') == Success(Replaced(h, m, path, c, k, r'))
  {
    hide RootOf, RootStrings, StepRoot, StepStrings, StepOk, Shares, IsSplit, Replaced, Binding, ValuesApart, Beside,
         Child, Including, IncludingStrings, ValueApart;
    var r := IncludingUnfolds(h, path, v, c, proof);
    IncludingStringsHold(h, s, path, v, c, proof, r);
    k, mb := StepSound(h, s, m, path, c, proof[0], r, r');
    SplitBounds(m, k);
    ChildApart(h, s, m, k, NibbleAt(path, k));
    BesideChild(m, path, k);
  }

  lemma NothingRemoves(h: HashFn, s: set<Bytes>, m: LeafMap, path: Hash32, v: Hash32, c: nat)
    requires Included(h, s, m, path, v, c, [])
    ensures Removes(h, m, path, c, [])
  {
    hide RootStrings, SuffixAt, Binding, ValueApart;
    IncludingSoundLeaf(h, s, m, path, v, c);
    assert m - {path} == map[];
  }

  lemma RemovesAbove(
    h: HashFn, s: set<Bytes>, m: LeafMap, path: Hash32, v: Hash32, c: nat, proof: Proof, k: nat)
    requires Included(h, s, m, path, v, c, proof) && proof != [] && !Collapses(proof)
    requires k == c + proof[0].skip && StepOk(path, c, proof[0]) && IsSplit(m, k) && Beside(m, path, k)
    requires IsSplit(m - {path}, k)
    requires Removes(h, Child(m, k, NibbleAt(path, k)), path, k + 1, proof[1..])
    ensures Removes(h, m, path, c, proof)
  {
    hide RootOf, Included, Excluding, StepRoot, StepOk, Shares, IsSplit, Replaced, NibbleAt, StepFits;
    SplitBounds(m, k);
    var mb := Child(m, k, NibbleAt(path, k));
    var r' := RootOf(h, mb - {path}, k + 1);
    var _, _ := IncludedStep(h, s, m, path, v, c, proof, r');
    WithoutPath(m, path, k);
    RootReplaced(h, m, m - {path}, path, c, k);
    StepFitsOk(path, c, proof[0]);
    ExcludingStep(h, path, c, proof[0], proof[1..], r');
    assert [proof[0]] + proof[1..] == proof;
  }

  lemma PartsSplit(m: LeafMap, path: Hash32, k: nat)
    requires Shares(m, k) && PartAt(m, path, k)
    ensures IsSplit(m, k)
  {
  }

  // A child that is itself a node keeps the node above it.
  lemma ChildKeepsSplit(m: LeafMap, path: Hash32, k: nat, k': nat)
    requires IsSplit(m, k) && IsSplit(Child(m, k, NibbleAt(path, k)), k')
    ensures IsSplit(m - {path}, k)
  {
    var mb := Child(m, k, NibbleAt(path, k));
    var p, q :| p in mb && q in mb && NibbleAt(p, k') != NibbleAt(q, k');
    var x, y :| x in m && y in m && NibbleAt(x, k) != NibbleAt(y, k);
    hide NibbleAt;
    var inner := if p == path then q else p;
    var outer := if NibbleAt(x, k) == NibbleAt(path, k) then y else x;
    assert inner in m - {path} && outer in m - {path} && NibbleAt(inner, k) != NibbleAt(outer, k);
  }

  lemma StaysSplit(
    h: HashFn, s: set<Bytes>, m: LeafMap, path: Hash32, v: Hash32, c: nat, proof: Proof, k: nat)
    requires proof != [] && !Collapses(proof) && k == c + proof[0].skip && IsSplit(m, k)
    requires Included(h, s, Child(m, k, NibbleAt(path, k)), path, v, k + 1, proof[1..])
    requires LastBranches(m, path, c, proof)
    ensures IsSplit(m - {path}, k)
  {
    hide IsSplit, Included, PartAt, NibbleAt, StepOk, Replaced, StepRoot;
    if |proof| == 1 {
      WithoutPath(m, path, k);
      PartsSplit(m - {path}, path, k);
    } else {
      SplitBounds(m, k);
      var k', _ := IncludedStep(h, s, Child(m, k, NibbleAt(path, k)), path, v, k + 1, proof[1..], EMPTY_ROOT);
      ChildKeepsSplit(m, path, k, k');
    }
  }

  // Beyond the first step, what parts at the last one is on the path's branch.
  lemma BranchesBelow(m: LeafMap, path: Hash32, c: nat, proof: Proof, k: nat)
    requires |proof| > 1 && k == c + proof[0].skip && k < 64
    ensures LastBranches(m, path, c, proof) <==> LastBranches(Child(m, k, NibbleAt(path, k)), path, k + 1, proof[1..])
  {
    hide NibbleAt;
    var mb, d := Child(m, k, NibbleAt(path, k)), LastAt(c, proof);
    assert proof[1..][|proof[1..]| - 1] == proof[|proof| - 1] && d == LastAt(k + 1, proof[1..]);
    LastAfter(k + 1, proof[1..]);
    if PartAt(m - {path}, path, d) {
      var p, q :| p in m - {path} && q in m - {path} && Agree(p, path, 0, d) && Agree(q, path, 0, d) &&
        NibbleAt(p, d) != NibbleAt(q, d);
      assert p in mb - {path} && q in mb - {path};
    }
  }

  lemma {:induction false} LastAfter(c: nat, proof: Proof)
    requires proof != []
    ensures LastAt(c, proof) >= c
    decreases |proof|
  {
    if |proof| > 1 { LastAfter(c + proof[0].skip + 1, proof[1..]); }
  }

  // A proof that shows the path, with a right last step, removes it.
  lemma {:induction false} LeavingRemoves(
    h: HashFn, s: set<Bytes>, m: LeafMap, path: Hash32, v: Hash32, c: nat, proof: Proof)
    requires Included(h, s, m, path, v, c, proof)
    requires LastLeaves(path, c, proof) && LastKind(h, s, proof) && LastBranches(m, path, c, proof)
    ensures Removes(h, m, path, c, proof)
    decreases |proof|
  {
    hide Included, Removes, StepLeaves, StepOk, IsSplit, Beside, LastKind, LastBranches, StepRoot, Replaced;
    if proof == [] {
      NothingRemoves(h, s, m, path, v, c);
    } else if Collapses(proof) {
      assert proof == [proof[0]];
      LastRemoves(h, s, m, path, v, c, proof[0]);
    } else {
      var k, mb := IncludedStep(h, s, m, path, v, c, proof, EMPTY_ROOT);
      SplitBounds(m, k);
      StaysSplit(h, s, m, path, v, c, proof, k);
      KindOfRest(h, s, proof);
      if |proof| > 1 { BranchesBelow(m, path, c, proof, k); } else { NoneBranches(mb, path, k + 1, proof[1..]); }
      LeavingRemoves(h, s, mb, path, v, k + 1, proof[1..]);
      RemovesAbove(h, s, m, path, v, c, proof, k);
    }
  }

  lemma NoneBranches(m: LeafMap, path: Hash32, c: nat, proof: Proof)
    requires proof == []
    ensures LastBranches(m, path, c, proof)
  {
  }

  // A last branch of a proof accepted against the root of `m` is where two paths of `m` part.
  lemma {:induction false} AcceptedBranches(
    h: HashFn, s: set<Bytes>, m: LeafMap, path: Hash32, c: nat, proof: Proof)
    requires Accepted(h, s, m, path, c, proof) && path !in m
    ensures LastBranches(m, path, c, proof)
    decreases |proof|
  {
    hide Accepted, StepOk;
    if proof != [] && !Collapses(proof) {
      var k, mb := AcceptedStep(h, s, m, path, c, proof);
      if |proof| == 1 {
        SplitParts(m, path, k);
        assert m - {path} == m;
      } else {
        AcceptedBranches(h, s, mb, path, k + 1, proof[1..]);
        BranchesBelow(m, path, c, proof, k);
      }
    }
  }

  lemma SplitParts(m: LeafMap, path: Hash32, k: nat)
    requires IsSplit(m, k) && Beside(m, path, k)
    ensures PartAt(m, path, k)
  {
  }

  // And only such a proof does.
  lemma RemovingLeaves(
    h: HashFn, s: set<Bytes>, m: LeafMap, path: Hash32, v: Hash32, c: nat, proof: Proof)
    requires Included(h, s, m, path, v, c, proof) && Removes(h, m, path, c, proof)
    requires ExcludingStrings(h, path, c, proof) <= s && RootStrings(h, m - {path}, c) <= s
    ensures LastLeaves(path, c, proof) && LastKind(h, s, proof) && LastBranches(m, path, c, proof)
  {
    hide RootOf, RootStrings, Including, Excluding, IncludingStrings, ExcludingStrings, Binding, Shares, LastLeaves,
         LastKind, LastBranches;
    IncludingSound(h, s, m, path, v, v, c, proof);
    var m0 := m - {path};
    assert m0[path := v] == m && m0 - {path} == m0;
    assert Accepted(h, s, m0, path, c, proof);
    InsertingLeaves(h, s, m0, path, v, c, proof);
    AcceptedBranches(h, s, m0, path, c, proof);
    SameBranches(m, m0, path, c, proof);
  }

  lemma SameBranches(m: LeafMap, m0: LeafMap, path: Hash32, c: nat, proof: Proof)
    requires m0 - {path} == m - {path} && LastBranches(m0, path, c, proof)
    ensures LastBranches(m, path, c, proof)
  {
  }

  // ----- keys and values -----

  ghost function DeleteStrings(h: HashFn, entries: Entries, key: Bytes, value: Bytes, proof: Proof): set<Bytes>
    requires InjectiveOn(h, entries.Keys) && InjectiveOn(h, (entries - {key}).Keys)
  {
    RootStrings(h, PathMap(h, entries), 0) + IncludingStrings(h, h(key), h(value), 0, proof) +
    RootStrings(h, PathMap(h, entries - {key}), 0) + ExcludingStrings(h, h(key), 0, proof)
  }

  // What comparing the root before a deletion, the recomputed root and the rebuilt root asks of the hash.
  ghost predicate Removable(
    h: HashFn, entries: Entries, key: Bytes, value: Bytes, proof: Proof, strings: set<Bytes>) {
    && InjectiveOn(h, entries.Keys) && InjectiveOn(h, (entries - {key}).Keys) && Values32(entries) && |value| == 32
    && EntryStrings(h, entries) + {key, value} + DeleteStrings(h, entries, key, value, proof) <= strings
    && InjectiveOn(h, strings) && NeverEmpty(h, DeleteStrings(h, entries, key, value, proof))
  }

  // Any proof, generated or not, that shows the key and its value under the root of the entries: deleting through
  // it gives the rebuilt root if and only if its last step leaves the key's path where it says, carries the kind of
  // digest it is for, and is a branch only where two other stored paths part.
  lemma DeleteExactlyWhen(
    h: HashFn, entries: Entries, key: Bytes, value: Bytes, proof: Proof, strings: set<Bytes>)
    requires Removable(h, entries, key, value, proof, strings)
    requires Has(h, RootOfEntries(h, entries), key, value, proof)
    ensures key in entries && entries[key] == value
    ensures
      Delete(h, RootOfEntries(h, entries), key, value, proof) == Success(RootOfEntries(h, entries - {key})) <==>
      && LastLeaves(h(key), 0, proof)
      && LastKind(h, DeleteStrings(h, entries, key, value, proof), proof)
      && LastBranches(PathMap(h, entries), h(key), 0, proof)
  {
    hide PathMap, InjectiveOn, RootStrings, RootOf, IncludingStrings, Including, Excluding, ExcludingStrings,
         LastLeaves, LastKind, LastBranches;
    var m, s, v := PathMap(h, entries), DeleteStrings(h, entries, key, value, proof), h(value);
    InjectiveSubset(h, strings, s);
    EntriesApart(h, entries, strings, s);
    OneApart(h, value, strings, s);
    assert Included(h, s, m, h(key), v, 0, proof);
    IncludingSound(h, s, m, h(key), v, v, 0, proof);
    ClaimedEntry(h, entries, key, value, strings);
    assert entries.Keys + {key} == entries.Keys;
    PathMapDrop(h, entries, key);
    if LastLeaves(h(key), 0, proof) && LastKind(h, s, proof) && LastBranches(m, h(key), 0, proof) {
      LeavingRemoves(h, s, m, h(key), v, 0, proof);
    }
    if Excluding(h, h(key), 0, proof) == Success(RootOf(h, m - {h(key)}, 0)) {
      RemovingLeaves(h, s, m, h(key), v, 0, proof);
    }
  }

  // ----- proofs that show a key but delete wrongly -----

  lemma PairPaths(h: HashFn, entries: Entries, a: Bytes, b: Bytes)
    requires entries.Keys == {a, b} && h(a) != h(b)
    ensures a in entries && b in entries && InjectiveOn(h, entries.Keys)
    ensures PathMap(h, entries) == map[h(b) := h(entries[b]), h(a) := h(entries[a])]
  {
    hide PathMap, InjectiveOn;
    assert a in entries && b in entries && entries == map[a := entries[a], b := entries[b]];
    TwoEntries(h, a, entries[a], b, entries[b]);
  }

  // A proof that shows the key with a wrong last step does not delete it.
  lemma WrongDelete(h: HashFn, entries: Entries, key: Bytes, proof: Proof, strings: set<Bytes>)
    requires key in entries && InjectiveOn(h, entries.Keys)
    requires Has(h, RootOfEntries(h, entries), key, entries[key], proof)
    requires !LastLeaves(h(key), 0, proof) || !LastBranches(PathMap(h, entries), h(key), 0, proof)
    ensures Removable(h, entries, key, entries[key], proof, strings) ==>
      Delete(h, RootOfEntries(h, entries), key, entries[key], proof) != Success(RootOfEntries(h, entries - {key}))
  {
    hide Has, Delete, RootOfEntries, LastLeaves, LastBranches, LastKind, DeleteStrings, InjectiveOn;
    if Removable(h, entries, key, entries[key], proof, strings) {
      DeleteExactlyWhen(h, entries, key, entries[key], proof, strings);
    }
  }

  lemma OffPathShows(
    h: HashFn, p: Hash32, w: Hash32, path: Hash32, v: Hash32, d: nat, near: Hash32, m: LeafMap, proof: Proof)
    requires d < 64 && LeavesAt(p, path, d) && Agree(p, near, d, 64) && !Agree(near, path, 0, d)
    requires m == map[p := w, path := v] && proof == [LeafStep(d, near, w)]
    ensures Shares(m, 0) && Including(h, path, v, 0, proof) == Success(RootOf(h, m, 0))
    ensures !LastLeaves(path, 0, proof)
  {
    hide RootOf, Including;
    IncludingTwo(h, p, w, path, 0, d, v, m);
    SameLeafStep(h, path, v, 0, d, p, near, w);
  }

  // A neighbour that agrees with the stored one only from the nibble the step names on.
  lemma ShownOffPath(
    h: HashFn, entries: Entries, a: Bytes, b: Bytes, d: nat, near: Hash32, proof: Proof, strings: set<Bytes>)
    requires entries.Keys == {a, b} && d < 64 && LeavesAt(h(b), h(a), d)
    requires Agree(h(b), near, d, 64) && !Agree(near, h(a), 0, d) && proof == [LeafStep(d, near, h(entries[b]))]
    ensures InjectiveOn(h, entries.Keys) && Has(h, RootOfEntries(h, entries), a, entries[a], proof)
    ensures Removable(h, entries, a, entries[a], proof, strings) ==>
      Delete(h, RootOfEntries(h, entries), a, entries[a], proof) != Success(RootOfEntries(h, entries - {a}))
  {
    hide LastLeaves, PathMap, RootOf, Including, Delete, Removable, InjectiveOn, NibbleAt;
    assert h(a) != h(b);
    PairPaths(h, entries, a, b);
    OffPathShows(h, h(b), h(entries[b]), h(a), h(entries[a]), d, near, PathMap(h, entries), proof);
    WrongDelete(h, entries, a, proof, strings);
  }

  lemma BranchShows(h: HashFn, p: Hash32, w: Hash32, path: Hash32, v: Hash32, d: nat, m: LeafMap, proof: Proof)
    requires d < 64 && LeavesAt(p, path, d) && m == map[p := w, path := v] && IsSplit(m, d)
    requires proof == [Branch(d, BranchNeighbors(h, NibbleAt(path, d), RootsOf(h, m, d)))]
    ensures Shares(m, 0) && Including(h, path, v, 0, proof) == Success(RootOf(h, m, 0))
    ensures !LastBranches(m, path, 0, proof)
  {
    hide Merkle16Roots, RootOf, RootsOf, IsSplit, StepRoot, SuffixAt, BranchNeighbors, NibbleAt, Including;
    var r, roots := Combine(h, SuffixAt(path, d + 1), v), RootsOf(h, m, d);
    TwoPathRoots(h, m, p, path, d);
    RootOfBranch(h, m, 0, d, path);
    BranchStepFold(h, path, 0, d, roots, r);
    assert roots[NibbleAt(path, d) := r] == roots;
    EndsInLeaf(h, path, v, d + 1);
    IncludingStep(h, path, v, 0, proof[0], [], r);
    assert proof == [proof[0]] + [];
    assert m - {path} == map[p := w];
  }

  // A branch over two stored keys, where the generator makes a step with one neighbour.
  lemma ShownByBranch(
    h: HashFn, entries: Entries, a: Bytes, b: Bytes, d: nat, proof: Proof, strings: set<Bytes>)
    requires entries.Keys == {a, b} && d < 64 && LeavesAt(h(b), h(a), d)
    requires InjectiveOn(h, entries.Keys) && IsSplit(PathMap(h, entries), d)
    requires proof == [Branch(d, BranchNeighbors(h, NibbleAt(h(a), d), RootsOf(h, PathMap(h, entries), d)))]
    ensures Has(h, RootOfEntries(h, entries), a, entries[a], proof)
    ensures Removable(h, entries, a, entries[a], proof, strings) ==>
      Delete(h, RootOfEntries(h, entries), a, entries[a], proof) != Success(RootOfEntries(h, entries - {a}))
  {
    hide LastBranches, PathMap, RootOf, Including, Delete, Removable, InjectiveOn, NibbleAt, IsSplit, RootsOf,
         BranchNeighbors;
    assert h(a) != h(b);
    PairPaths(h, entries, a, b);
    BranchShows(h, h(b), h(entries[b]), h(a), h(entries[a]), d, PathMap(h, entries), proof);
    WrongDelete(h, entries, a, proof, strings);
  }
}
