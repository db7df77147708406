/**
 Any proof of absence, generated or not.  Recomputing a root without the path looks neither at where the last step
 of the proof leaves the path nor at what its neighbour's digest stands for.  An accepted proof shows absence, and
 inserts what it should, exactly when that last step leaves the path at the nibble it names and carries the kind of
 digest it is for.
 */
module MpfAbsence {
  import opened Bytes
  import opened Mpf
  import opened MpfReference
  import opened MpfCompleteness
  import opened MpfBinding
  import opened Tries
  import opened TrieBinding

  // The step is the last one of a proof and has a single neighbour: without the path only that is left.
  ghost predicate Collapses(proof: Proof) {
    |proof| == 1 && !proof[0].Branch?
  }

  // The neighbour of a last step at `c` leaves the path at the nibble the step names.
  ghost predicate StepLeaves(path: Hash32, c: nat, step: ProofStep)
    requires !step.Branch?
  {
    var d := c + step.skip;
    && d < 64
    && (step.Fork? ==> step.neighbor.nibble != NibbleAt(path, d))
    && (step.LeafStep? ==> Agree(step.key, path, c, d) && NibbleAt(step.key, d) != NibbleAt(path, d))
  }

  ghost predicate LastLeaves(path: Hash32, c: nat, proof: Proof)
    decreases |proof|
  {
    if proof == [] then true
    else if Collapses(proof) then StepLeaves(path, c, proof[0])
    else LastLeaves(path, c + proof[0].skip + 1, proof[1..])
  }

  ghost predicate NodeDigest(h: HashFn, s: set<Bytes>, r: Hash32) {
    exists a :: a in s && |a| == 64 && r == h(a)
  }

  // The last step carries the kind of digest it is for: a value hash in a leaf, a node's digest in a fork.
  ghost predicate LastKind(h: HashFn, s: set<Bytes>, proof: Proof) {
    proof == [] ||
    var step := proof[|proof| - 1];
    && (step.LeafStep? ==> !NodeDigest(h, s, step.value))
    && (step.Fork? ==> NodeDigest(h, s, step.neighbor.root))
  }

  // ----- a last leaf step -----

  lemma SuffixSame(p: Hash32, q: Hash32, c: nat)
    requires c <= 64 && Agree(p, q, c, 64)
    ensures SuffixAt(p, c) == SuffixAt(q, c)
  {
    var k := if c % 2 == 0 then c / 2 else (c + 1) / 2;
    forall i | k <= i < 32
      ensures p[i] == q[i]
    {
      assert NibbleAt(p, 2 * i) == NibbleAt(q, 2 * i) && NibbleAt(p, 2 * i + 1) == NibbleAt(q, 2 * i + 1);
    }
    assert p[k..] == q[k..];
  }

  // A leaf string that hashes to the root of `m`: `m` is one leaf with that value and that rest of the path.
  lemma LeafCollapses(h: HashFn, s: set<Bytes>, m: LeafMap, key: Hash32, v: Hash32, c: nat) returns (p: Hash32)
    requires Binding(h, s) && !NodeDigest(h, s, v) && Shares(m, c)
    requires LeafString(key, c, v) in s && RootStrings(h, m, c) <= s
    requires h(LeafString(key, c, v)) == RootOf(h, m, c)
    ensures m == map[p := v] && Agree(p, key, c, 64)
  {
    hide RootOf, RootStrings, RootsOf, Merkle16Roots, Strings16, ChildStrings, IsSplit;
    EmptyRootBinds(h, s, m, c);
    var k;
    p, k := Shape(m, c);
    if m.Keys == {p} {
      RootStringsOfLeaf(h, m, c, p);
      JoinedTail(SuffixAt(p, c), m[p], SuffixAt(key, c), v);
      SuffixAgrees(p, key, c);
    } else {
      RootStringsOfNode(h, m, c, k, p);
      var a := Digest64(h, RootsOf(h, m, k));
      SplitBounds(m, k);
      JoinedTail(SuffixAt(key, c), v, NibbleRange(p, c, k), Merkle16Roots(h, RootsOf(h, m, k)));
      assert false;
    }
  }

  // A leaf step reads its key only from the nibble it names on.
  lemma SameLeafStep(h: HashFn, path: Hash32, v: Hash32, c: nat, d: nat, p: Hash32, key: Hash32, value: Hash32)
    requires c <= d < 64 && Agree(p, key, d, 64)
    ensures Including(h, path, v, c, [LeafStep(d - c, key, value)]) ==
      Including(h, path, v, c, [LeafStep(d - c, p, value)])
  {
    hide StepRoot, ForkRoot, SuffixAt;
    SuffixSame(p, key, d + 1);
    var r := Combine(h, SuffixAt(path, d + 1), v);
    SameNeighbor(h, path, c, d, p, key, value, r);
    IncludingStep(h, path, v, c, LeafStep(d - c, key, value), [], r);
    IncludingStep(h, path, v, c, LeafStep(d - c, p, value), [], r);
    assert forall step: ProofStep :: [step] + [] == [step];
  }

  lemma SameNeighbor(h: HashFn, path: Hash32, c: nat, d: nat, p: Hash32, key: Hash32, value: Hash32, r: Hash32)
    requires c <= d < 64 && NibbleAt(p, d) == NibbleAt(key, d) && SuffixAt(p, d + 1) == SuffixAt(key, d + 1)
    ensures StepRoot(h, path, c, LeafStep(d - c, key, value), r) == StepRoot(h, path, c, LeafStep(d - c, p, value), r)
  {
    hide ForkRoot, SuffixAt, NibbleAt;
  }

  lemma LeafInserts(h: HashFn, m: LeafMap, path: Hash32, v: Hash32, c: nat, step: ProofStep, p: Hash32)
    requires step.LeafStep? && StepLeaves(path, c, step) && m == map[p := step.value]
    requires Agree(p, step.key, c, 64) && Agree(p, path, 0, c)
    ensures path !in m && Shares(m[path := v], c)
    ensures Including(h, path, v, c, [step]) == Success(RootOf(h, m[path := v], c))
  {
    hide RootOf, Including;
    var d := c + step.skip;
    assert LeavesAt(p, path, d);
    assert m[path := v] == map[p := step.value, path := v];
    IncludingTwo(h, p, step.value, path, c, d, v, m[path := v]);
    SameLeafStep(h, path, v, c, d, p, step.key, step.value);
    assert step == LeafStep(d - c, step.key, step.value);
  }

  // ----- a last fork -----

  // The node a last fork stands for: all of `m` passes through the fork's neighbour.
  ghost predicate ForkNode(h: HashFn, m: LeafMap, path: Hash32, c: nat, d: nat, n: Neighbor, p: Hash32, k: nat) {
    && c <= d < k && IsSplit(m, k) && p in m && Agree(p, path, 0, d) && NibbleAt(p, d) == n.nibble
    && NibbleRange(p, d + 1, k) == n.prefix && Merkle16Roots(h, RootsOf(h, m, k)) == n.root
  }

  lemma PrefixParts(path: Hash32, p: Hash32, c: nat, d: nat, k: nat, n: byte, prefix: Bytes)
    requires c <= d < 64 && c <= k <= 64 && Agree(p, path, 0, c)
    requires NibbleRange(p, c, k) == NibbleRange(path, c, d) + [n] + prefix
    ensures d < k && Agree(p, path, 0, d) && NibbleAt(p, d) == n && NibbleRange(p, d + 1, k) == prefix
  {
    var whole := NibbleRange(p, c, k);
    forall i | c <= i < d
      ensures NibbleAt(p, i) == NibbleAt(path, i)
    {
      assert whole[i - c] == NibbleRange(path, c, d)[i - c];
    }
    assert whole[d - c] == n;
    assert whole[d - c + 1..] == prefix;
    assert NibbleRange(p, d + 1, k) == whole[d - c + 1..];
  }

  lemma ForkCollapses(h: HashFn, s: set<Bytes>, m: LeafMap, path: Hash32, c: nat, d: nat, n: Neighbor)
    returns (p: Hash32, k: nat)
    requires Binding(h, s) && ValuesApart(h, m, s) && NodeDigest(h, s, n.root) && Shares(m, c) && Beside(m, path, c)
    requires c <= d < 64 && RootStrings(h, m, c) <= s
    requires NibbleRange(path, c, d) + [n.nibble] + n.prefix + n.root in s
    requires h(NibbleRange(path, c, d) + [n.nibble] + n.prefix + n.root) == RootOf(h, m, c)
    ensures ForkNode(h, m, path, c, d, n, p, k)
  {
    hide RootOf, RootStrings, RootsOf, Merkle16Roots, Strings16, ChildStrings, IsSplit, NibbleRange;
    var prefix := NibbleRange(path, c, d) + [n.nibble] + n.prefix;
    assert Joined(prefix, n.root) == NibbleRange(path, c, d) + [n.nibble] + n.prefix + n.root;
    EmptyRootBinds(h, s, m, c);
    p, k := Shape(m, c);
    if m.Keys == {p} {
      RootStringsOfLeaf(h, m, c, p);
      JoinedTail(SuffixAt(p, c), m[p], prefix, n.root);
      assert false;
    } else {
      RootStringsOfNode(h, m, c, k, p);
      SplitBounds(m, k);
      JoinedTail(NibbleRange(p, c, k), Merkle16Roots(h, RootsOf(h, m, k)), prefix, n.root);
      PrefixParts(path, p, c, d, k, n.nibble, n.prefix);
    }
  }

  // Setting a path that leaves all of `m` at `d` makes a node at `d` with two children.
  lemma BesideChildren(m: LeafMap, m': LeafMap, path: Hash32, v: Hash32, d: nat, k: nat, p: Hash32)
    requires d < k && IsSplit(m, k) && p in m && Agree(p, path, 0, d) && NibbleAt(p, d) != NibbleAt(path, d)
    requires m' == m[path := v]
    ensures path !in m && IsSplit(m', d) && Shares(m, d + 1)
    ensures Child(m', d, NibbleAt(p, d)) == m && Child(m', d, NibbleAt(path, d)) == map[path := v]
    ensures forall i :: 0 <= i < 16 && i != NibbleAt(p, d) && i != NibbleAt(path, d) ==> Child(m', d, i) == map[]
  {
    hide NibbleAt;
    forall q | q in m
      ensures Agree(q, path, 0, d) && NibbleAt(q, d) == NibbleAt(p, d)
    {
      assert Agree(q, p, 0, k);
    }
    assert p in m' && path in m';
  }

  lemma ForkRoots(
    h: HashFn, m: LeafMap, m': LeafMap, path: Hash32, v: Hash32, c: nat, d: nat, n: Neighbor, p: Hash32, k: nat)
    requires ForkNode(h, m, path, c, d, n, p, k) && n.nibble != NibbleAt(path, d) && m' == m[path := v]
    ensures path !in m && IsSplit(m', d)
    ensures RootsOf(h, m', d)[n.nibble] == Combine(h, n.prefix, n.root)
    ensures RootsOf(h, m', d)[NibbleAt(path, d)] == Combine(h, SuffixAt(path, d + 1), v)
    ensures forall i :: 0 <= i < 16 && i != NibbleAt(path, d) && i != n.nibble ==> RootsOf(h, m', d)[i] == EMPTY_ROOT
  {
    hide IsSplit, SuffixAt, Combine, Agree, Child, RootOf, Merkle16Roots, Shares;
    SplitBounds(m, k);
    BesideChildren(m, m', path, v, d, k, p);
    RootOfBranch(h, m, d + 1, k, p);
    RootOfLeaf(h, path, v, d + 1);
    EmptyRoot(h, d + 1);
  }

  lemma ForkInserts(
    h: HashFn, m: LeafMap, path: Hash32, v: Hash32, c: nat, step: ProofStep, p: Hash32, k: nat)
    requires step.Fork? && StepLeaves(path, c, step) && ForkNode(h, m, path, c, c + step.skip, step.neighbor, p, k)
    ensures path !in m && Shares(m[path := v], c)
    ensures Including(h, path, v, c, [step]) == Success(RootOf(h, m[path := v], c))
  {
    hide RootOf, RootsOf, IsSplit, Merkle16Roots, SuffixAt, StepRoot, Including;
    var d, n, m' := c + step.skip, step.neighbor, m[path := v];
    ForkRoots(h, m, m', path, v, c, d, n, p, k);
    var roots, r := RootsOf(h, m', d), Combine(h, SuffixAt(path, d + 1), v);
    assert RootOf(h, m', c) == NodeRoot(h, path, c, d, roots) by { RootOfBranch(h, m', c, d, path); }
    assert StepRoot(h, path, c, step, r) == Success(NodeRoot(h, path, c, d, roots)) by {
      ForkFolds(h, path, c, step, roots, r);
    }
    EndsInLeaf(h, path, v, d + 1);
    IncludingStep(h, path, v, c, step, [], r);
    assert [step] + [] == [step];
  }

  lemma ForkFolds(h: HashFn, path: Hash32, c: nat, step: ProofStep, roots: seq<Hash32>, r: Hash32)
    requires step.Fork? && StepLeaves(path, c, step) && |roots| == 16 && step.neighbor.nibble < 16
    requires roots[NibbleAt(path, c + step.skip)] == r
    requires roots[step.neighbor.nibble] == Combine(h, step.neighbor.prefix, step.neighbor.root)
    requires forall i :: 0 <= i < 16 && i != NibbleAt(path, c + step.skip) && i != step.neighbor.nibble ==>
      roots[i] == EMPTY_ROOT
    ensures StepRoot(h, path, c, step, r) == Success(NodeRoot(h, path, c, c + step.skip, roots))
  {
    hide NodeRoot, ForkRoot;
    var d := c + step.skip;
    ForkStepFold(h, path, c, d, roots, r, step.neighbor);
    assert roots[NibbleAt(path, d) := r] == roots;
  }

  lemma EndsInLeaf(h: HashFn, path: Hash32, v: Hash32, c: nat)
    requires c <= 64
    ensures Including(h, path, v, c, []) == Success(Combine(h, SuffixAt(path, c), v))
  {
  }

  // ----- a last step, either kind -----

  // `proof` is accepted against the root of `m` as showing that the path is not there.
  ghost predicate Accepted(h: HashFn, s: set<Bytes>, m: LeafMap, path: Hash32, c: nat, proof: Proof) {
    && Binding(h, s) && ValuesApart(h, m, s) && Shares(m, c) && Beside(m, path, c)
    && ExcludingStrings(h, path, c, proof) <= s && RootStrings(h, m, c) <= s
    && Excluding(h, path, c, proof) == Success(RootOf(h, m, c))
  }

  // The path is not in `m`, and including it gives the root of `m` with the path set.
  ghost predicate Inserts(h: HashFn, m: LeafMap, path: Hash32, v: Hash32, c: nat, proof: Proof) {
    && path !in m && Shares(m[path := v], c)
    && Including(h, path, v, c, proof) == Success(RootOf(h, m[path := v], c))
  }

  lemma LastLeafIs(h: HashFn, s: set<Bytes>, m: LeafMap, path: Hash32, c: nat, step: ProofStep) returns (p: Hash32)
    requires Accepted(h, s, m, path, c, [step]) && step.LeafStep? && LastKind(h, s, [step])
    ensures m == map[p := step.value] && Agree(p, step.key, c, 64) && Agree(p, path, 0, c)
  {
    hide RootOf, RootStrings, InjectiveOn, SuffixAt;
    ExcludingLast(h, path, c, step);
    p := LeafCollapses(h, s, m, step.key, step.value, c);
    assert p in m;
  }

  lemma LastForkIs(h: HashFn, s: set<Bytes>, m: LeafMap, path: Hash32, c: nat, step: ProofStep)
    returns (p: Hash32, k: nat)
    requires Accepted(h, s, m, path, c, [step]) && step.Fork? && c + step.skip < 64 && LastKind(h, s, [step])
    ensures ForkNode(h, m, path, c, c + step.skip, step.neighbor, p, k)
  {
    hide RootOf, RootStrings, InjectiveOn, ForkNode;
    ExcludingLast(h, path, c, step);
    p, k := ForkCollapses(h, s, m, path, c, c + step.skip, step.neighbor);
  }

  lemma LastInserts(h: HashFn, s: set<Bytes>, m: LeafMap, path: Hash32, v: Hash32, c: nat, step: ProofStep)
    requires Accepted(h, s, m, path, c, [step]) && LastKind(h, s, [step])
    requires !step.Branch? && StepLeaves(path, c, step)
    ensures Inserts(h, m, path, v, c, [step])
  {
    hide RootOf, Including, Accepted, ForkNode;
    if step.LeafStep? {
      var p := LastLeafIs(h, s, m, path, c, step);
      LeafInserts(h, m, path, v, c, step, p);
    } else {
      var p, k := LastForkIs(h, s, m, path, c, step);
      ForkInserts(h, m, path, v, c, step, p, k);
    }
  }

  // The strings hashed for the path and its new value are among the compared ones.
  ghost predicate Compared(h: HashFn, s: set<Bytes>, m: LeafMap, path: Hash32, v: Hash32, c: nat, proof: Proof)
    requires Shares(m[path := v], c)
  {
    && Binding(h, s) && ValuesApart(h, m[path := v], s) && Beside(m[path := v], path, c)
    && IncludingStrings(h, path, v, c, proof) <= s && RootStrings(h, m[path := v], c) <= s
  }

  lemma IncludingStringsHold(
    h: HashFn, s: set<Bytes>, path: Hash32, v: Hash32, c: nat, proof: Proof, r: Hash32)
    requires c <= 64 && proof != [] && StepOk(path, c, proof[0]) && IncludingStrings(h, path, v, c, proof) <= s
    requires Including(h, path, v, c + proof[0].skip + 1, proof[1..]) == Success(r)
    ensures StepStrings(h, path, c, proof[0], r) <= s
    ensures IncludingStrings(h, path, v, c + proof[0].skip + 1, proof[1..]) <= s
  {
    hide StepStrings, StepOk, Including;
  }

  // ----- what an including last step says about the rest of the map -----

  // All of `mo` hangs below the neighbour `n` beside the path at `d`, and `n` gives its root from there.
  ghost predicate Sibling(h: HashFn, s: set<Bytes>, mo: LeafMap, path: Hash32, d: nat, n: Neighbor) {
    && d < 64 && mo != map[] && Shares(mo, d + 1) && RootStrings(h, mo, d + 1) <= s
    && Joined(n.prefix, n.root) in s && RootOf(h, mo, d + 1) == h(Joined(n.prefix, n.root))
    && forall p :: p in mo ==> Agree(p, path, 0, d) && NibbleAt(p, d) == n.nibble
  }

  // The children of the node a step with one neighbour describes.
  lemma SparseRootsAre(h: HashFn, s: set<Bytes>, path: Hash32, c: nat, step: ProofStep, r: Hash32, roots: seq<Hash32>)
    requires InjectiveOn(h, s) && StepOk(path, c, step) && !step.Branch? && |roots| == 16
    requires StepStrings(h, path, c, step, r) <= s && Strings16(h, roots) <= s
    requires StepDigest(h, path, c, step, r) == Merkle16Roots(h, roots)
    ensures
      var d := c + step.skip;
      var n := StepNeighbor(step, d);
      && Joined(n.prefix, n.root) in s && roots[n.nibble] == h(Joined(n.prefix, n.root))
      && forall i :: 0 <= i < 16 && i != NibbleAt(path, d) && i != n.nibble ==> roots[i] == EMPTY_ROOT
  {
    hide Merkle16Roots, Strings16, InjectiveOn, SparseRoots;
    var d := c + step.skip;
    var n := StepNeighbor(step, d);
    Merkle16Binds(h, s, StepSparseRoots(h, path, step, d, r), roots);
    SparseRootsSlots(NibbleAt(path, d), r, n.nibble, Combine(h, n.prefix, n.root));
  }

  lemma SparseNode(h: HashFn, s: set<Bytes>, m: LeafMap, path: Hash32, c: nat, step: ProofStep, r: Hash32)
    returns (d: nat)
    requires Binding(h, s) && ValuesApart(h, m, s) && Beside(m, path, c) && Recomputes(h, s, m, path, c, step, r)
    requires !step.Branch?
    ensures d == c + step.skip && IsSplit(m, d) && Beside(m, path, d) && ChildStrings(h, m, d, 16) <= s
    ensures
      var n := StepNeighbor(step, d);
      && n.nibble < 16 && n.nibble != NibbleAt(path, d)
      && Joined(n.prefix, n.root) in s && RootsOf(h, m, d)[n.nibble] == h(Joined(n.prefix, n.root))
      && forall i :: 0 <= i < 16 && i != NibbleAt(path, d) && i != n.nibble ==> RootsOf(h, m, d)[i] == EMPTY_ROOT
  {
    hide RootOf, RootStrings, ChildStrings, StepDigest, Merkle16Roots, Strings16, Shares, StepStrings, IsSplit,
         InjectiveOn, Child, StepRoot, StepNeighbor;
    d := StepAtNode(h, s, m, path, c, step, r);
    SparseRootsAre(h, s, path, c, step, r, RootsOf(h, m, d));
  }

  lemma ChildHolds(h: HashFn, s: set<Bytes>, m: LeafMap, d: nat, i: nat)
    requires Binding(h, s) && IsSplit(m, d) && ChildStrings(h, m, d, 16) <= s && i < 16
    ensures Shares(Child(m, d, i), d + 1) && RootStrings(h, Child(m, d, i), d + 1) <= s
    ensures RootsOf(h, m, d)[i] == EMPTY_ROOT <==> Child(m, d, i) == map[]
  {
    hide RootOf, RootStrings, ChildStrings, Shares, IsSplit, Child, Binding;
    SplitBounds(m, d);
    ChildStringsHold(h, m, d, 16, i);
    EmptyRootBinds(h, s, Child(m, d, i), d + 1);
  }

  // What is not on the path's branch hangs below the neighbour.
  lemma OnlySibling(h: HashFn, s: set<Bytes>, m: LeafMap, path: Hash32, v: Hash32, d: nat, n: Neighbor)
    requires Binding(h, s) && IsSplit(m, d) && Beside(m, path, d) && ChildStrings(h, m, d, 16) <= s
    requires n.nibble < 16 && n.nibble != NibbleAt(path, d) && Child(m, d, NibbleAt(path, d)) == map[path := v]
    requires Joined(n.prefix, n.root) in s && RootsOf(h, m, d)[n.nibble] == h(Joined(n.prefix, n.root))
    requires forall i :: 0 <= i < 16 && i != NibbleAt(path, d) && i != n.nibble ==> RootsOf(h, m, d)[i] == EMPTY_ROOT
    ensures m - {path} == Child(m, d, n.nibble) && Sibling(h, s, m - {path}, path, d, n)
  {
    var mo := Child(m, d, n.nibble);
    forall i | 0 <= i < 16
      ensures Shares(Child(m, d, i), d + 1) && RootStrings(h, Child(m, d, i), d + 1) <= s
      ensures RootsOf(h, m, d)[i] == EMPTY_ROOT <==> Child(m, d, i) == map[]
    {
      ChildHolds(h, s, m, d, i);
    }
    hide RootOf, RootStrings, ChildStrings, Shares, IsSplit, RootsOf, InjectiveOn;
    OthersAreSibling(m, path, v, d, n.nibble);
  }

  lemma OthersAreSibling(m: LeafMap, path: Hash32, v: Hash32, d: nat, nib: nat)
    requires d < 64 && nib < 16 && nib != NibbleAt(path, d) && Child(m, d, NibbleAt(path, d)) == map[path := v]
    requires forall i :: 0 <= i < 16 && i != NibbleAt(path, d) && i != nib ==> Child(m, d, i) == map[]
    ensures m - {path} == Child(m, d, nib)
  {
    var mo := Child(m, d, nib);
    forall p | p in m && p != path
      ensures p in mo
    {
      var i := NibbleAt(p, d);
      assert p in Child(m, d, i);
    }
    assert path in Child(m, d, NibbleAt(path, d));
    forall p | p in mo
      ensures p in m && p != path
    {
    }
  }

  // A last step with one neighbour that recomputes the root of `m` for the path and a value: without the path,
  // `m` is what hangs below the neighbour.
  lemma LastSibling(h: HashFn, s: set<Bytes>, m: LeafMap, path: Hash32, v: Hash32, c: nat, step: ProofStep)
    requires Binding(h, s) && ValuesApart(h, m, s) && ValueApart(h, v, s) && Shares(m, c) && Beside(m, path, c)
    requires IncludingStrings(h, path, v, c, [step]) <= s && RootStrings(h, m, c) <= s
    requires Including(h, path, v, c, [step]) == Success(RootOf(h, m, c)) && !step.Branch?
    ensures StepOk(path, c, step)
    ensures Sibling(h, s, m - {path}, path, c + step.skip, StepNeighbor(step, c + step.skip))
  {
    hide RootOf, RootStrings, IncludingStrings, StepStrings, StepRoot, StepOk, IsSplit, Replaced, Shares, Including,
         StepNeighbor, Sibling, ChildStrings, Child, RootsOf;
    var r := IncludingUnfolds(h, path, v, c, [step]);
    IncludingStringsHold(h, s, path, v, c, [step], r);
    var d, mb := StepSound(h, s, m, path, c, step, r, r);
    SplitBounds(m, d);
    assert [step][1..] == [];
    EndsHere(h, s, m, path, v, d, r);
    assert Recomputes(h, s, m, path, c, step, r);
    var _ := SparseNode(h, s, m, path, c, step, r);
    OnlySibling(h, s, m, path, v, d, StepNeighbor(step, d));
  }

  lemma EndsHere(h: HashFn, s: set<Bytes>, m: LeafMap, path: Hash32, v: Hash32, d: nat, r: Hash32)
    requires Binding(h, s) && ValueApart(h, v, s) && d < 64 && Beside(m, path, d)
    requires Shares(Child(m, d, NibbleAt(path, d)), d + 1)
    requires RootStrings(h, Child(m, d, NibbleAt(path, d)), d + 1) <= s
    requires Including(h, path, v, d + 1, []) == Success(r) && r == RootOf(h, Child(m, d, NibbleAt(path, d)), d + 1)
    requires IncludingStrings(h, path, v, d + 1, []) <= s
    ensures Child(m, d, NibbleAt(path, d)) == map[path := v]
  {
    hide RootOf, RootStrings, Binding, ValueApart;
    BesideChild(m, path, d);
    IncludingSoundLeaf(h, s, Child(m, d, NibbleAt(path, d)), path, v, d + 1);
  }

  // ----- suffixes and prefixes -----

  lemma SuffixLength(p: Hash32, c: nat)
    requires c <= 64
    ensures |SuffixAt(p, c)| == if c % 2 == 0 then 33 - c / 2 else 34 - (c + 1) / 2
    ensures SuffixAt(p, c)[0] == if c % 2 == 0 then 255 else 0
    ensures c % 2 == 1 ==> SuffixAt(p, c)[1] == NibbleAt(p, c)
  {
  }

  // The suffix of a key is never a run of nibbles both from `c` and from a later position to the same end.
  lemma SuffixNotRanges(key: Hash32, p: Hash32, c: nat, e: nat, k: nat)
    requires c < e <= k <= 64
    requires NibbleRange(p, c, k) == SuffixAt(key, c)
    ensures NibbleRange(p, e, k) != SuffixAt(key, e)
  {
    SuffixLength(key, c);
    SuffixLength(key, e);
    hide SuffixAt;
  }

  // The suffix of a path from `c` is never a run of nibbles followed by its suffix from the run's end.
  lemma SuffixNotExtended(p: Hash32, c: nat, e: nat, run: Bytes)
    requires c < e <= 64 && |run| == e - c && forall i :: 0 <= i < |run| ==> run[i] < 16
    ensures SuffixAt(p, c) != run + SuffixAt(p, e)
  {
    SuffixLength(p, c);
    SuffixLength(p, e);
    hide SuffixAt;
  }

  // ----- the last step of an inserting proof -----

  // A leaf string that gives the root of `m` from `c` and from below `d`: `m` is one leaf.
  lemma LeafKind(
    h: HashFn, s: set<Bytes>, m: LeafMap, path: Hash32, c: nat, d: nat, key: Hash32, value: Hash32, nib: byte)
    returns (p: Hash32)
    requires Binding(h, s) && ValuesApart(h, m, s) && Shares(m, c) && RootStrings(h, m, c) <= s && c <= d < 64
    requires LeafString(key, c, value) in s && h(LeafString(key, c, value)) == RootOf(h, m, c)
    requires Sibling(h, s, m, path, d, Neighbor(nib, SuffixAt(key, d + 1), value))
    ensures !NodeDigest(h, s, value) && m == map[p := value] && Agree(p, key, c, 64)
  {
    hide RootOf, RootStrings, RootsOf, Merkle16Roots, Strings16, ChildStrings, IsSplit, SuffixAt;
    var k;
    p, k := Shape(m, d + 1);
    if m.Keys == {p} {
      RootStringsOfLeaf(h, m, c, p);
      JoinedTail(SuffixAt(p, c), m[p], SuffixAt(key, c), value);
      SuffixAgrees(p, key, c);
    } else {
      RootStringsOfNode(h, m, c, k, p);
      RootStringsOfNode(h, m, d + 1, k, p);
      SplitBounds(m, k);
      var digest := Merkle16Roots(h, RootsOf(h, m, k));
      JoinedTail(SuffixAt(key, c), value, NibbleRange(p, c, k), digest);
      JoinedTail(SuffixAt(key, d + 1), value, NibbleRange(p, d + 1, k), digest);
      SuffixNotRanges(key, p, c, d + 1, k);
      assert false;
    }
  }

  // A fork's string that gives the root of `m` from `c` and from below `d`: `m` is a node.
  lemma ForkKind(h: HashFn, s: set<Bytes>, m: LeafMap, path: Hash32, c: nat, d: nat, n: Neighbor)
    requires Binding(h, s) && Shares(m, c) && RootStrings(h, m, c) <= s && c <= d < 64 && n.nibble < 16
    requires NibbleRange(path, c, d) + [n.nibble] + n.prefix + n.root in s
    requires h(NibbleRange(path, c, d) + [n.nibble] + n.prefix + n.root) == RootOf(h, m, c)
    requires Sibling(h, s, m, path, d, n)
    ensures NodeDigest(h, s, n.root)
  {
    hide RootOf, RootStrings, RootsOf, Merkle16Roots, Strings16, ChildStrings, IsSplit, SuffixAt;
    var p, k := Shape(m, d + 1);
    if m.Keys == {p} {
      var run := NibbleRange(path, c, d) + [n.nibble];
      RootStringsOfLeaf(h, m, c, p);
      RootStringsOfLeaf(h, m, d + 1, p);
      assert Joined(run + n.prefix, n.root) == NibbleRange(path, c, d) + [n.nibble] + n.prefix + n.root;
      JoinedTail(SuffixAt(p, c), m[p], run + n.prefix, n.root);
      JoinedTail(SuffixAt(p, d + 1), m[p], n.prefix, n.root);
      SuffixNotExtended(p, c, d + 1, run);
      assert false;
    } else {
      RootStringsOfNode(h, m, d + 1, k, p);
      SplitBounds(m, k);
      JoinedTail(n.prefix, n.root, NibbleRange(p, d + 1, k), Merkle16Roots(h, RootsOf(h, m, k)));
      var a := Digest64(h, RootsOf(h, m, k));
    }
  }

  lemma LastLeafInserted(h: HashFn, s: set<Bytes>, m: LeafMap, path: Hash32, c: nat, step: ProofStep)
    requires Accepted(h, s, m, path, c, [step]) && step.LeafStep? && StepOk(path, c, step)
    requires Sibling(h, s, m, path, c + step.skip, StepNeighbor(step, c + step.skip))
    ensures StepLeaves(path, c, step) && LastKind(h, s, [step])
  {
    hide RootOf, RootStrings, InjectiveOn, SuffixAt, NodeDigest;
    var d := c + step.skip;
    ExcludingLast(h, path, c, step);
    var p := LeafKind(h, s, m, path, c, d, step.key, step.value, NibbleAt(step.key, d));
    assert p in m;
  }

  lemma LastForkInserted(h: HashFn, s: set<Bytes>, m: LeafMap, path: Hash32, c: nat, step: ProofStep)
    requires Accepted(h, s, m, path, c, [step]) && step.Fork? && StepOk(path, c, step)
    requires Sibling(h, s, m, path, c + step.skip, step.neighbor)
    ensures StepLeaves(path, c, step) && LastKind(h, s, [step])
  {
    hide RootOf, RootStrings, InjectiveOn, NodeDigest, Sibling;
    ExcludingLast(h, path, c, step);
    ForkKind(h, s, m, path, c, c + step.skip, step.neighbor);
  }

  // An inserting last step leaves the path where it says, with the kind of digest it is for.
  lemma LastInserted(h: HashFn, s: set<Bytes>, m: LeafMap, path: Hash32, v: Hash32, c: nat, step: ProofStep)
    requires Accepted(h, s, m, path, c, [step]) && !step.Branch? && Inserts(h, m, path, v, c, [step])
    requires Compared(h, s, m, path, v, c, [step])
    ensures StepLeaves(path, c, step) && LastKind(h, s, [step])
  {
    hide RootOf, Including, RootStrings, IncludingStrings, Binding, Accepted, Sibling, StepOk, Beside, Shares,
         StepLeaves, LastKind;
    var m' := m[path := v];
    assert ValueApart(h, v, s) by { assert path in m' && m'[path] == v; }
    assert m' - {path} == m;
    LastSibling(h, s, m', path, v, c, step);
    if step.LeafStep? { LastLeafInserted(h, s, m, path, c, step); } else { LastForkInserted(h, s, m, path, c, step); }
  }

  // ----- any proof -----

  lemma ExcludingStringsHold(h: HashFn, s: set<Bytes>, path: Hash32, c: nat, proof: Proof, r: Hash32)
    requires c <= 64 && proof != [] && !Collapses(proof) && StepOk(path, c, proof[0])
    requires ExcludingStrings(h, path, c, proof) <= s
    requires Excluding(h, path, c + proof[0].skip + 1, proof[1..]) == Success(r)
    ensures StepStrings(h, path, c, proof[0], r) <= s
    ensures ExcludingStrings(h, path, c + proof[0].skip + 1, proof[1..]) <= s
  {
    hide StepStrings, StepOk, Excluding;
  }

  // One step of an accepted proof: it sits at the split of `m`, and folds the root of the child on the path, or
  // any other in its place.
  lemma AcceptedFolds(h: HashFn, s: set<Bytes>, m: LeafMap, path: Hash32, c: nat, proof: Proof, r': Hash32)
    returns (k: nat, mb: LeafMap)
    requires Accepted(h, s, m, path, c, proof) && proof != [] && !Collapses(proof)
    ensures k == c + proof[0].skip && StepOk(path, c, proof[0]) && IsSplit(m, k) && Beside(m, path, k)
    ensures mb == Child(m, k, NibbleAt(path, k)) && Shares(mb, k + 1) && RootStrings(h, mb, k + 1) <= s
    ensures Excluding(h, path, k + 1, proof[1..]) == Success(RootOf(h, mb, k + 1))
    ensures ExcludingStrings(h, path, k + 1, proof[1..]) <= s
    ensures StepRoot(h, path, c, proof[0], r') == Success(Replaced(h, m, path, c, k, r'))
  {
    hide RootOf, RootStrings, StepRoot, StepStrings, StepOk, Shares, IsSplit, Replaced, Binding, ValuesApart, Beside,
         Child, Excluding, ExcludingStrings;
    var r := ExcludingUnfolds(h, path, c, proof);
    ExcludingStringsHold(h, s, path, c, proof, r);
    k, mb := StepSound(h, s, m, path, c, proof[0], r, r');
  }

  lemma KindOfRest(h: HashFn, s: set<Bytes>, proof: Proof)
    requires proof != [] && LastKind(h, s, proof)
    ensures LastKind(h, s, proof[1..])
  {
    hide NodeDigest;
    assert proof[1..] != [] ==> proof[1..][|proof[1..]| - 1] == proof[|proof| - 1];
  }

  // The rest is accepted against that child.
  lemma AcceptedStep(h: HashFn, s: set<Bytes>, m: LeafMap, path: Hash32, c: nat, proof: Proof)
    returns (k: nat, mb: LeafMap)
    requires Accepted(h, s, m, path, c, proof) && proof != [] && !Collapses(proof)
    ensures k == c + proof[0].skip && StepOk(path, c, proof[0]) && IsSplit(m, k) && Beside(m, path, k)
    ensures mb == Child(m, k, NibbleAt(path, k)) && Accepted(h, s, mb, path, k + 1, proof[1..])
  {
    hide RootOf, RootStrings, StepRoot, StepOk, Shares, IsSplit, Replaced, Binding, ValuesApart, Beside, Child,
         Excluding, ExcludingStrings;
    k, mb := AcceptedFolds(h, s, m, path, c, proof, EMPTY_ROOT);
    SplitBounds(m, k);
    ChildApart(h, s, m, k, NibbleAt(path, k));
    BesideChild(m, path, k);
  }

  lemma NothingInserts(h: HashFn, s: set<Bytes>, m: LeafMap, path: Hash32, v: Hash32, c: nat)
    requires Accepted(h, s, m, path, c, [])
    ensures Inserts(h, m, path, v, c, [])
  {
    hide RootOf, RootStrings, SuffixAt;
    EmptyRootBinds(h, s, m, c);
    assert m[path := v] == map[path := v];
    RootOfLeaf(h, path, v, c);
  }

  lemma InsertsAbove(
    h: HashFn, s: set<Bytes>, m: LeafMap, path: Hash32, v: Hash32, c: nat, proof: Proof, k: nat)
    requires Accepted(h, s, m, path, c, proof) && proof != [] && !Collapses(proof)
    requires k == c + proof[0].skip && StepOk(path, c, proof[0]) && IsSplit(m, k) && Beside(m, path, k)
    requires Inserts(h, Child(m, k, NibbleAt(path, k)), path, v, k + 1, proof[1..])
    ensures Inserts(h, m, path, v, c, proof)
  {
    hide RootOf, Including, Accepted, StepRoot, StepOk, Shares, IsSplit, Replaced, Beside, Excluding, ExcludingStrings,
         RootStrings, NibbleAt, StepFits;
    SplitBounds(m, k);
    var mb := Child(m, k, NibbleAt(path, k));
    var r' := RootOf(h, mb[path := v], k + 1);
    var _, _ := AcceptedFolds(h, s, m, path, c, proof, r');
    WithPath(m, path, k, v);
    RootReplaced(h, m, m[path := v], path, c, k);
    StepFitsOk(path, c, proof[0]);
    IncludingStep(h, path, v, c, proof[0], proof[1..], r');
    assert [proof[0]] + proof[1..] == proof;
  }

  // An accepted proof whose last step leaves the path shows that the path is missing, and inserts it.
  lemma {:induction false} LeavingInserts(
    h: HashFn, s: set<Bytes>, m: LeafMap, path: Hash32, v: Hash32, c: nat, proof: Proof)
    requires Accepted(h, s, m, path, c, proof) && LastLeaves(path, c, proof) && LastKind(h, s, proof)
    ensures Inserts(h, m, path, v, c, proof)
    decreases |proof|
  {
    hide Accepted, Inserts, StepLeaves, StepOk, IsSplit, Beside;
    if proof == [] {
      NothingInserts(h, s, m, path, v, c);
    } else if Collapses(proof) {
      assert proof == [proof[0]];
      LastInserts(h, s, m, path, v, c, proof[0]);
    } else {
      var k, mb := AcceptedStep(h, s, m, path, c, proof);
      KindOfRest(h, s, proof);
      LeavingInserts(h, s, mb, path, v, k + 1, proof[1..]);
      InsertsAbove(h, s, m, path, v, c, proof, k);
    }
  }

  lemma InsertsBelow(
    h: HashFn, s: set<Bytes>, m: LeafMap, path: Hash32, v: Hash32, c: nat, proof: Proof, k: nat)
    requires proof != [] && k == c + proof[0].skip && IsSplit(m, k) && Beside(m, path, k)
    requires Inserts(h, m, path, v, c, proof) && Compared(h, s, m, path, v, c, proof)
    ensures Inserts(h, Child(m, k, NibbleAt(path, k)), path, v, k + 1, proof[1..])
    ensures Compared(h, s, Child(m, k, NibbleAt(path, k)), path, v, k + 1, proof[1..])
  {
    hide RootOf, Including, StepRoot, StepOk, StepStrings, RootStrings, IsSplit, Shares, Replaced, IncludingStrings;
    var m' := m[path := v];
    WithPath(m, path, k, v);
    var r := IncludingUnfolds(h, path, v, c, proof);
    IncludingStringsHold(h, s, path, v, c, proof, r);
    var _, mb' := StepSound(h, s, m', path, c, proof[0], r, r);
    SplitBounds(m, k);
    ChildApart(h, s, m', k, NibbleAt(path, k));
    BesideChild(m', path, k);
  }

  // And only such a proof does.
  lemma {:induction false} InsertingLeaves(
    h: HashFn, s: set<Bytes>, m: LeafMap, path: Hash32, v: Hash32, c: nat, proof: Proof)
    requires Accepted(h, s, m, path, c, proof) && Inserts(h, m, path, v, c, proof)
    requires Compared(h, s, m, path, v, c, proof)
    ensures LastLeaves(path, c, proof) && LastKind(h, s, proof)
    decreases |proof|
  {
    hide Accepted, Inserts, StepLeaves, StepOk, IsSplit, Beside, Compared, NodeDigest;
    if proof != [] {
      if Collapses(proof) {
        assert proof == [proof[0]];
        LastInserted(h, s, m, path, v, c, proof[0]);
      } else {
        var k, mb := AcceptedStep(h, s, m, path, c, proof);
        InsertsBelow(h, s, m, path, v, c, proof, k);
        InsertingLeaves(h, s, mb, path, v, k + 1, proof[1..]);
        assert |proof| > 1 ==> proof[1..][|proof[1..]| - 1] == proof[|proof| - 1];
      }
    }
  }

  // ----- keys and values -----

  ghost function InsertStrings(h: HashFn, entries: Entries, key: Bytes, value: Bytes, proof: Proof): set<Bytes>
    requires InjectiveOn(h, entries.Keys) && InjectiveOn(h, entries[key := value].Keys)
  {
    RootStrings(h, PathMap(h, entries), 0) + ExcludingStrings(h, h(key), 0, proof) +
    RootStrings(h, PathMap(h, entries[key := value]), 0) + IncludingStrings(h, h(key), h(value), 0, proof)
  }

  lemma StoredPath(h: HashFn, entries: Entries, key: Bytes)
    requires InjectiveOn(h, entries.Keys + {key}) && InjectiveOn(h, entries.Keys)
    ensures h(key) in PathMap(h, entries) <==> key in entries
  {
    hide PathMap, InjectiveOn;
    if key in entries { PathMapAt(h, entries, key); }
    if h(key) in PathMap(h, entries) {
      var k := PathMapKey(h, entries, h(key));
      InjectiveAt(h, entries.Keys + {key}, k, key);
    }
  }

  // What comparing the root before an insertion, the recomputed root and the rebuilt root asks of the hash: it is
  // injective on the strings hashed for them, and gives no empty root.
  ghost predicate Comparable(
    h: HashFn, entries: Entries, key: Bytes, value: Bytes, proof: Proof, strings: set<Bytes>) {
    && InjectiveOn(h, entries.Keys + {key}) && InjectiveOn(h, entries.Keys)
    && InjectiveOn(h, entries[key := value].Keys) && Values32(entries) && |value| == 32
    && EntryStrings(h, entries) + {key, value} + InsertStrings(h, entries, key, value, proof) <= strings
    && InjectiveOn(h, strings) && NeverEmpty(h, InsertStrings(h, entries, key, value, proof))
  }

  // The key is missing, and inserting it gives the root of the entries with it.
  ghost predicate RightlyInserts(h: HashFn, entries: Entries, key: Bytes, value: Bytes, proof: Proof)
    requires InjectiveOn(h, entries.Keys) && InjectiveOn(h, entries[key := value].Keys)
  {
    && key !in entries
    && Insert(h, RootOfEntries(h, entries), key, value, proof) == Success(RootOfEntries(h, entries[key := value]))
  }

  // Any proof, generated or not, that the root of the entries is accepted to miss the key by: the key is missing
  // and inserting gives the root of the entries with it, if and only if the last step leaves the key's path where
  // it says and carries the kind of digest it is for.
  lemma AnyAbsenceExactlyWhen(
    h: HashFn, entries: Entries, key: Bytes, value: Bytes, proof: Proof, strings: set<Bytes>)
    requires Comparable(h, entries, key, value, proof, strings) && Miss(h, RootOfEntries(h, entries), key, proof)
    ensures RightlyInserts(h, entries, key, value, proof) <==>
      LastLeaves(h(key), 0, proof) && LastKind(h, InsertStrings(h, entries, key, value, proof), proof)
  {
    hide PathMap, InjectiveOn, RootStrings, RootOf, IncludingStrings, Including, Excluding, ExcludingStrings,
         LastLeaves, LastKind;
    var m, s, v := PathMap(h, entries), InsertStrings(h, entries, key, value, proof), h(value);
    StoredPath(h, entries, key);
    PathMapSet(h, entries, key, value);
    InjectiveSubset(h, strings, s);
    EntriesApart(h, entries, strings, s);
    assert Accepted(h, s, m, h(key), 0, proof);
    if LastLeaves(h(key), 0, proof) && LastKind(h, s, proof) {
      LeavingInserts(h, s, m, h(key), v, 0, proof);
    }
    if key !in entries && Including(h, h(key), v, 0, proof) == Success(RootOf(h, m[h(key) := v], 0)) {
      OneApart(h, value, strings, s);
      InsertingLeaves(h, s, m, h(key), v, 0, proof);
    }
  }

  // ----- both conditions are needed -----

  lemma AcceptedAtLate(h: HashFn, p: Hash32, value: Hash32, path: Hash32, v: Hash32, part: nat, late: nat)
    requires part < late < 64 && NibbleAt(p, part) != NibbleAt(path, part) && NibbleAt(p, late) != NibbleAt(path, late)
    ensures Shares(map[p := value], 0)
    ensures Excluding(h, path, 0, [LeafStep(late, p, value)]) == Success(RootOf(h, map[p := value], 0))
    ensures Including(h, path, v, 0, [LeafStep(late, p, value)]).Success?
    ensures !LastLeaves(path, 0, [LeafStep(late, p, value)])
  {
    hide RootOf, SuffixAt, NibbleAt, ForkRoot;
    var step := LeafStep(late, p, value);
    RootOfLeaf(h, p, value, 0);
    ExcludingLast(h, path, 0, step);
    EndsInLeaf(h, path, v, late + 1);
    var r := Combine(h, SuffixAt(path, late + 1), v);
    IncludingStep(h, path, v, 0, step, [], r);
    StepSucceeds(h, path, 0, step, r);
    assert [step] + [] == [step];
    assert !Agree(p, path, 0, late);
  }

  // A last step that names too late a nibble: the only stored key as the neighbour of another key, where they
  // differ but after they part.  It is accepted, and what it inserts is not the rebuilt root.
  lemma AcceptedTooLate(
    h: HashFn, entries: Entries, key: Bytes, other: Bytes, newValue: Bytes, part: nat, late: nat, proof: Proof,
    strings: set<Bytes>)
    requires entries.Keys == {key} && proof == [LeafStep(late, h(key), h(entries[key]))] && part < late < 64
    requires NibbleAt(h(key), part) != NibbleAt(h(other), part) && NibbleAt(h(key), late) != NibbleAt(h(other), late)
    ensures InjectiveOn(h, entries.Keys) && Miss(h, RootOfEntries(h, entries), other, proof)
    ensures Insert(h, RootOfEntries(h, entries), other, newValue, proof).Success?
    ensures Comparable(h, entries, other, newValue, proof, strings) ==>
      Insert(h, RootOfEntries(h, entries), other, newValue, proof) !=
      Success(RootOfEntries(h, entries[other := newValue]))
  {
    assert key in entries && entries == map[key := entries[key]];
    OneEntry(h, key, entries[key]);
    AcceptedAtLate(h, h(key), h(entries[key]), h(other), h(newValue), part, late);
    assert other != key;
    hide RootOf, NibbleAt, PathMap, Including, Excluding, LastLeaves, LastKind, Comparable, InjectiveOn, InsertStrings;
    if Comparable(h, entries, other, newValue, proof, strings) {
      AnyAbsenceExactlyWhen(h, entries, other, newValue, proof, strings);
    }
  }

  // The proof whose last step, a fork, carries the leaf `a` instead of a node.
  function LeafAsFork(a: Hash32, va: Hash32, b: Hash32, vb: Hash32): Proof {
    [LeafStep(0, b, vb), Fork(0, Neighbor(0, [NibbleAt(a, 1)] + a[1..], va))]
  }

  lemma ForkReadsLeaf(h: HashFn, path: Hash32, a: Hash32, va: Hash32)
    ensures Excluding(h, path, 1, [Fork(0, Neighbor(0, [NibbleAt(a, 1)] + a[1..], va))]) ==
      Success(Combine(h, SuffixAt(a, 1), va))
  {
    var n := Neighbor(0, [NibbleAt(a, 1)] + a[1..], va);
    ExcludingLast(h, path, 1, Fork(0, n));
    assert NibbleRange(path, 1, 1) + [n.nibble] + n.prefix == SuffixAt(a, 1);
  }

  lemma AcceptedAsFork(h: HashFn, a: Hash32, va: Hash32, b: Hash32, vb: Hash32, path: Hash32, m: LeafMap)
    requires NibbleAt(a, 0) != NibbleAt(b, 0) && NibbleAt(path, 0) == NibbleAt(a, 0) && NibbleAt(path, 1) != 0
    requires m == map[a := va, b := vb]
    ensures Shares(m, 0) && Excluding(h, path, 0, LeafAsFork(a, va, b, vb)) == Success(RootOf(h, m, 0))
    ensures LastLeaves(path, 0, LeafAsFork(a, va, b, vb))
  {
    hide Merkle16Roots, RootOf, RootsOf, IsSplit, StepRoot, SuffixAt, Excluding, NibbleAt;
    var proof := LeafAsFork(a, va, b, vb);
    var r := Combine(h, SuffixAt(a, 1), va);
    assert LeavesAt(b, a, 0);
    TwoPathRoots(h, m, b, a, 0);
    var roots := RootsOf(h, m, 0);
    RootOfBranch(h, m, 0, 0, a);
    assert NibbleRange(a, 0, 0) == NibbleRange(path, 0, 0);
    LeafStepFold(h, path, 0, 0, roots, r, b, vb);
    assert roots[NibbleAt(path, 0) := r] == roots;
    ForkReadsLeaf(h, path, a, va);
    ExcludingStep(h, path, 0, proof[0], proof[1..], r);
    assert [proof[0]] + proof[1..] == proof && Collapses(proof[1..]) && StepLeaves(path, 1, proof[1]);
  }

  lemma TwoEntries(h: HashFn, a: Bytes, va: Bytes, b: Bytes, vb: Bytes)
    requires h(a) != h(b)
    ensures InjectiveOn(h, map[a := va, b := vb].Keys)
    ensures PathMap(h, map[a := va, b := vb]) == map[h(a) := h(va), h(b) := h(vb)]
  {
    hide PathMap;
    var entries: Entries := map[a := va, b := vb];
    PathMapAt(h, entries, a);
    PathMapAt(h, entries, b);
    forall p | p in PathMap(h, entries)
      ensures p == h(a) || p == h(b)
    {
      var _ := PathMapKey(h, entries, p);
    }
  }

  // No accepted proof is right when its last step is a fork with a stored value's hash.
  lemma StoredAsFork(
    h: HashFn, entries: Entries, a: Bytes, key: Bytes, value: Bytes, proof: Proof, strings: set<Bytes>)
    requires Comparable(h, entries, key, value, proof, strings) && Miss(h, RootOfEntries(h, entries), key, proof)
    requires a in entries && proof != [] && proof[|proof| - 1].Fork?
    requires proof[|proof| - 1].neighbor.root == h(entries[a])
    ensures !RightlyInserts(h, entries, key, value, proof)
  {
    AnyAbsenceExactlyWhen(h, entries, key, value, proof, strings);
    hide RootOf, PathMap, Including, Excluding, LastLeaves, InsertStrings, RightlyInserts, InjectiveOn, RootStrings,
         NeverEmpty;
    assert entries[a] in entries.Values;
    OneApart(h, entries[a], strings, InsertStrings(h, entries, key, value, proof));
  }

  // A last fork that carries a leaf: at an odd cursor a leaf's suffix can be read as a run of nibbles.  The last step
  // leaves the path where it says, for every key below the first nibble of `a`, `a` itself among them, whose next
  // nibble is not zero; the proof is accepted, and is wrong for each of them.
  lemma AcceptedOtherKind(
    h: HashFn, entries: Entries, a: Bytes, b: Bytes, key: Bytes, value: Bytes, proof: Proof, strings: set<Bytes>)
    requires entries.Keys == {a, b} && NibbleAt(h(a), 0) != NibbleAt(h(b), 0)
    requires proof == LeafAsFork(h(a), h(entries[a]), h(b), h(entries[b]))
    requires NibbleAt(h(key), 0) == NibbleAt(h(a), 0) && NibbleAt(h(key), 1) != 0
    ensures InjectiveOn(h, entries.Keys) && Miss(h, RootOfEntries(h, entries), key, proof)
    ensures LastLeaves(h(key), 0, proof)
    ensures Comparable(h, entries, key, value, proof, strings) ==> !RightlyInserts(h, entries, key, value, proof)
  {
    assert a in entries && b in entries && entries == map[a := entries[a], b := entries[b]];
    assert proof[|proof| - 1].Fork? && proof[|proof| - 1].neighbor.root == h(entries[a]);
    hide NibbleAt, LastLeaves, Excluding, Comparable, RightlyInserts, InjectiveOn, RootOf, PathMap, LeafAsFork;
    TwoEntries(h, a, entries[a], b, entries[b]);
    AcceptedAsFork(h, h(a), h(entries[a]), h(b), h(entries[b]), h(key), PathMap(h, entries));
    if Comparable(h, entries, key, value, proof, strings) {
      StoredAsFork(h, entries, a, key, value, proof, strings);
    }
  }
}
