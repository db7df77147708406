/**
 Generated proofs are exact.  With the proof generated for a path from a list of leaves, `Including`
 recomputes the root of the map with the path set to any value, and `Excluding` the root of the map
 without it.  This covers presence, update, deletion and insertion, and holds for every hash.
 */
module MpfCompleteness {
  import opened Bytes
  import opened Mpf
  import opened MpfReference

  // ----- folding one step -----

  // The root of the node a proof step describes, from the root of the child on the path.
  function StepRoot(h: HashFn, path: Hash32, cursor: nat, step: ProofStep, root: Hash32): MpfResult<Hash32> {
    match step
    case Branch(skip, neighbors) => BranchRoot(h, path, cursor, cursor + skip, root, neighbors)
    case Fork(skip, neighbor) => ForkRoot(h, path, cursor, cursor + skip, root, neighbor)
    case LeafStep(skip, key, value) =>
      var neighbor :- LeafNeighbor(key, value, cursor + skip);
      ForkRoot(h, path, cursor, cursor + skip, root, neighbor)
  }

  ghost predicate StepFits(cursor: nat, step: ProofStep) {
    cursor + step.skip < 64 && (step.Branch? ==> |step.neighbors| == 128)
  }

  lemma IncludingStep(h: HashFn, path: Hash32, v: Hash32, c: nat, step: ProofStep, rest: Proof, r: Hash32)
    requires StepFits(c, step)
    requires Including(h, path, v, c + step.skip + 1, rest) == Success(r)
    ensures Including(h, path, v, c, [step] + rest) == StepRoot(h, path, c, step, r)
  {
    hide ForkRoot, BranchRoot, LeafNeighbor, Suffix;
    var proof := [step] + rest;
    assert proof[1..] == rest && proof[0] == step;
  }

  lemma ExcludingStep(h: HashFn, path: Hash32, c: nat, step: ProofStep, rest: Proof, r: Hash32)
    requires StepFits(c, step) && (rest != [] || step.Branch?)
    requires Excluding(h, path, c + step.skip + 1, rest) == Success(r)
    ensures Excluding(h, path, c, [step] + rest) == StepRoot(h, path, c, step, r)
  {
    hide ForkRoot, BranchRoot, LeafNeighbor, Suffix, CollapsedFork, CollapsedLeaf;
    var proof := [step] + rest;
    assert proof[1..] == rest && proof[0] == step;
  }

  // ----- Merkle arithmetic over the 16 children -----

  // Base indices of the pair, quad and octet holding child `b`.
  ghost predicate Bases(b: nat, b2: nat, b4: nat, b8: nat) {
    && b8 in {0, 8} && b4 in {b8, b8 + 4} && b2 in {b4, b4 + 2} && b in {b2, b2 + 1}
  }

  lemma BasesOf(b: nat) returns (b2: nat, b4: nat, b8: nat)
    requires b < 16
    ensures Bases(b, b2, b4, b8)
    ensures b % 2 == 0 <==> b == b2
    ensures b % 4 < 2 <==> b2 == b4
    ensures b % 8 < 4 <==> b4 == b8
    ensures b < 8 <==> b8 == 0
    ensures b / 8 * 8 == b8 && b / 4 * 4 == b4
  {
    b2, b4, b8 := b / 2 * 2, b / 4 * 4, b / 8 * 8;
  }

  lemma ConcatSlices(a: Hash32, b: Hash32, c: Hash32, d: Hash32)
    ensures var s := a + b + c + d; s[0..32] == a && s[32..64] == b && s[64..96] == c && s[96..128] == d
  {
  }

  lemma QuadAt(h: HashFn, roots: seq<Hash32>, i: nat)
    requires i + 4 <= |roots|
    ensures Merkle4Roots(h, roots[i..i + 4]) ==
      Combine(h, Merkle2Roots(h, roots[i..i + 2]), Merkle2Roots(h, roots[i + 2..i + 4]))
  {
    hide Merkle2Roots;
    assert roots[i..i + 4][0..2] == roots[i..i + 2] && roots[i..i + 4][2..4] == roots[i + 2..i + 4];
  }

  lemma OctetAt(h: HashFn, roots: seq<Hash32>, i: nat)
    requires i + 8 <= |roots|
    ensures Merkle8Roots(h, roots[i..i + 8]) ==
      Combine(h, Merkle4Roots(h, roots[i..i + 4]), Merkle4Roots(h, roots[i + 4..i + 8]))
  {
    hide Merkle4Roots;
    assert roots[i..i + 8][0..4] == roots[i..i + 4] && roots[i..i + 8][4..8] == roots[i + 4..i + 8];
  }

  lemma SliceBeside(roots: seq<Hash32>, b: nat, r: Hash32, lo: nat, hi: nat)
    requires b < |roots| && lo <= hi <= |roots| && !(lo <= b < hi)
    ensures roots[b := r][lo..hi] == roots[lo..hi]
  {
  }

  lemma QuadOf(h: HashFn, roots: seq<Hash32>, b: nat, r: Hash32, b2: nat, b4: nat, b8: nat)
    requires |roots| == 16 && Bases(b, b2, b4, b8)
    ensures
      var pair := if b == b2 then Combine(h, r, roots[b + 1]) else Combine(h, roots[b - 1], r);
      Merkle4Roots(h, roots[b := r][b4..b4 + 4]) ==
        if b2 == b4 then Combine(h, pair, Merkle2Roots(h, roots[b2 + 2..b2 + 4]))
        else Combine(h, Merkle2Roots(h, roots[b2 - 2..b2]), pair)
  {
    hide Merkle4Roots, Combine;
    var all := roots[b := r];
    QuadAt(h, all, b4);
    if b2 == b4 { SliceBeside(roots, b, r, b2 + 2, b2 + 4); } else { SliceBeside(roots, b, r, b2 - 2, b2); }
  }

  lemma OctetOf(h: HashFn, roots: seq<Hash32>, b: nat, r: Hash32, b2: nat, b4: nat, b8: nat)
    requires |roots| == 16 && Bases(b, b2, b4, b8)
    ensures
      var quad := Merkle4Roots(h, roots[b := r][b4..b4 + 4]);
      Merkle8Roots(h, roots[b := r][b8..b8 + 8]) ==
        if b4 == b8 then Combine(h, quad, Merkle4Roots(h, roots[b4 + 4..b4 + 8]))
        else Combine(h, Merkle4Roots(h, roots[b4 - 4..b4]), quad)
  {
    hide Merkle8Roots, Merkle4Roots, Combine;
    OctetAt(h, roots[b := r], b8);
    if b4 == b8 { SliceBeside(roots, b, r, b4 + 4, b4 + 8); } else { SliceBeside(roots, b, r, b4 - 4, b4); }
  }

  // The four packed neighbours of child `b`.
  ghost function NeighborHashes(
    h: HashFn, roots: seq<Hash32>, b: nat, b2: nat, b4: nat, b8: nat): (Hash32, Hash32, Hash32, Hash32)
    requires |roots| == 16 && Bases(b, b2, b4, b8)
  {
    (Merkle8Roots(h, if b8 == 0 then roots[8..16] else roots[0..8]),
     Merkle4Roots(h, if b4 == b8 then roots[b4 + 4..b4 + 8] else roots[b4 - 4..b4]),
     Merkle2Roots(h, if b2 == b4 then roots[b2 + 2..b2 + 4] else roots[b2 - 2..b2]),
     roots[if b == b2 then b + 1 else b - 1])
  }

  lemma NeighborsPacked(h: HashFn, roots: seq<Hash32>, b: byte, b2: nat, b4: nat, b8: nat)
    requires |roots| == 16 && b < 16 && Bases(b, b2, b4, b8)
    ensures
      var (n8, n4, n2, n1) := NeighborHashes(h, roots, b, b2, b4, b8);
      BranchNeighbors(h, b, roots) == n8 + n4 + n2 + n1
  {
    var c2, c4, c8 := BasesOf(b);
    assert c2 == b2 && c4 == b4 && c8 == b8;
  }

  lemma MerkleUnpacked(h: HashFn, b: byte, r: Hash32, ns: (Hash32, Hash32, Hash32, Hash32), b2: nat, b4: nat, b8: nat)
    requires b < 16 && Bases(b, b2, b4, b8)
    ensures
      var (n8, n4, n2, n1) := ns;
      var pair := if b == b2 then Combine(h, r, n1) else Combine(h, n1, r);
      var group4 := if b2 == b4 then Combine(h, pair, n2) else Combine(h, n2, pair);
      var group8 := if b4 == b8 then Combine(h, group4, n4) else Combine(h, n4, group4);
      Merkle16(h, b, r, n8 + n4 + n2 + n1) ==
        Success(if b8 == 0 then Combine(h, group8, n8) else Combine(h, n8, group8))
  {
    var c2, c4, c8 := BasesOf(b);
    assert c2 == b2 && c4 == b4 && c8 == b8;
    ConcatSlices(ns.0, ns.1, ns.2, ns.3);
  }

  // Recomputing from a child and its packed neighbours is hashing all 16 children with that child replaced.
  lemma MerkleFromNeighbors(h: HashFn, b: byte, r: Hash32, roots: seq<Hash32>)
    requires b < 16 && |roots| == 16
    ensures Merkle16(h, b, r, BranchNeighbors(h, b, roots)) == Success(Merkle16Roots(h, roots[b := r]))
  {
    var all := roots[b := r];
    var b2, b4, b8 := BasesOf(b);
    NeighborsPacked(h, roots, b, b2, b4, b8);
    MerkleUnpacked(h, b, r, NeighborHashes(h, roots, b, b2, b4, b8), b2, b4, b8);
    QuadOf(h, roots, b, r, b2, b4, b8);
    OctetOf(h, roots, b, r, b2, b4, b8);
    if b8 == 0 {
      assert all[8..16] == roots[8..16];
    } else {
      assert all[0..8] == roots[0..8];
    }
  }

  lemma SparseIsFull(h: HashFn, b: byte, r: Hash32, j: byte, roots: seq<Hash32>)
    requires b < 16 && j < 16 && b != j && |roots| == 16
    requires forall i :: 0 <= i < 16 && i != b && i != j ==> roots[i] == EMPTY_ROOT
    ensures SparseMerkle16(h, b, r, j, roots[j]) == Merkle16Roots(h, roots[b := r])
  {
    assert seq(16, _ => EMPTY_ROOT)[b := r][j := roots[j]] == roots[b := r];
  }

  // ----- following the compressed prefixes -----

  ghost predicate Beside(m: LeafMap, path: Hash32, c: nat) {
    c <= 64 && forall p :: p in m ==> Agree(p, path, 0, c)
  }

  // Wherever a stored path `p` leaves `path`, at nibble `d`, either the trie branches there, or `p`
  // is the only stored path that got that far.  It fails exactly when `path` leaves the trie inside
  // a compressed prefix.
  ghost predicate Follows(m: LeafMap, path: Hash32) {
    forall p, d: nat :: p in m && d < 64 && LeavesAt(p, path, d) ==> BranchesAt(m, p, path, d) || AloneAt(m, p, path, d)
  }

  ghost predicate LeavesAt(p: Hash32, path: Hash32, d: nat)
    requires d < 64
  {
    Agree(p, path, 0, d) && NibbleAt(p, d) != NibbleAt(path, d)
  }

  ghost predicate BranchesAt(m: LeafMap, p: Hash32, path: Hash32, d: nat)
    requires d < 64
  {
    exists q :: q in m && Agree(q, path, 0, d) && NibbleAt(q, d) != NibbleAt(p, d)
  }

  ghost predicate AloneAt(m: LeafMap, p: Hash32, path: Hash32, d: nat)
    requires d < 64
  {
    forall q :: q in m && Agree(q, path, 0, d) ==> q == p
  }

  lemma StoredFollows(m: LeafMap, path: Hash32)
    requires path in m
    ensures Follows(m, path)
  {
    forall p, d: nat | p in m && d < 64 && LeavesAt(p, path, d)
      ensures BranchesAt(m, p, path, d)
    {
      assert Agree(path, path, 0, d);
    }
  }

  lemma {:induction false} FirstLeave(p: Hash32, path: Hash32, c: nat, k: nat) returns (d: nat)
    requires k <= 64 && c <= k && Agree(p, path, 0, c)
    ensures c <= d <= k && Agree(p, path, 0, d)
    ensures d < k ==> LeavesAt(p, path, d)
    decreases k - c
  {
    d := c;
    if c < k && NibbleAt(p, c) == NibbleAt(path, c) {
      d := FirstLeave(p, path, c + 1, k);
    }
  }

  // A path that leaves the trie above its split leaves it inside a compressed prefix.
  lemma InsidePrefix(m: LeafMap, path: Hash32, k: nat, p: Hash32, d: nat)
    requires IsSplit(m, k) && p in m && d < k && LeavesAt(p, path, d)
    ensures !Follows(m, path)
  {
    forall q | q in m
      ensures NibbleAt(q, d) == NibbleAt(p, d) && Agree(q, path, 0, d)
    {
      assert Agree(q, p, 0, k);
    }
    var x, y :| x in m && y in m && NibbleAt(x, k) != NibbleAt(y, k);
    assert !BranchesAt(m, p, path, d) && !AloneAt(m, p, path, d);
  }

  // A following path agrees with every stored path up to the split, and follows in its child.
  lemma FollowsDown(m: LeafMap, path: Hash32, c: nat, k: nat)
    requires IsSplit(m, k) && c <= k && Beside(m, path, c) && Follows(m, path)
    ensures Beside(m, path, k)
    ensures Beside(Child(m, k, NibbleAt(path, k)), path, k + 1)
    ensures Follows(Child(m, k, NibbleAt(path, k)), path)
  {
    forall p | p in m
      ensures Agree(p, path, 0, k)
    {
      var d := FirstLeave(p, path, c, k);
      if d < k { InsidePrefix(m, path, k, p, d); }
    }
    FollowsInChild(m, path, k);
  }

  lemma FollowsInChild(m: LeafMap, path: Hash32, k: nat)
    requires k < 64 && Beside(m, path, k) && Follows(m, path)
    ensures Beside(Child(m, k, NibbleAt(path, k)), path, k + 1)
    ensures Follows(Child(m, k, NibbleAt(path, k)), path)
  {
    var m' := Child(m, k, NibbleAt(path, k));
    forall p, d: nat | p in m' && d < 64 && LeavesAt(p, path, d)
      ensures BranchesAt(m', p, path, d) || AloneAt(m', p, path, d)
    {
      assert Agree(p, path, 0, k);
      assert d > k;
      if BranchesAt(m, p, path, d) {
        var q :| q in m && Agree(q, path, 0, d) && NibbleAt(q, d) != NibbleAt(p, d);
        assert q in m';
      }
    }
  }

  // ----- one generated step -----

  // The node at split `k` of a path from `c`, its 16 child roots given.
  ghost function NodeRoot(h: HashFn, path: Hash32, c: nat, k: nat, roots: seq<Hash32>): Hash32
    requires c <= k <= 64 && |roots| == 16
  {
    Combine(h, NibbleRange(path, c, k), Merkle16Roots(h, roots))
  }

  // The map `m` with the subtree on the path's branch at `k` replaced by one of root `r`.
  ghost function Replaced(h: HashFn, m: LeafMap, path: Hash32, c: nat, k: nat, r: Hash32): Hash32
    requires IsSplit(m, k) && c <= k
  {
    NodeRoot(h, path, c, k, RootsOf(h, m, k)[NibbleAt(path, k) := r])
  }

  lemma RootsReplaced(h: HashFn, m: LeafMap, m': LeafMap, k: nat, b: nat)
    requires IsSplit(m, k) && IsSplit(m', k) && b < 16
    requires forall i :: 0 <= i < 16 && i != b ==> Child(m', k, i) == Child(m, k, i)
    ensures Shares(Child(m', k, b), k + 1)
    ensures RootsOf(h, m', k) == RootsOf(h, m, k)[b := RootOf(h, Child(m', k, b), k + 1)]
  {
    var rs, rs' := RootsOf(h, m, k), RootsOf(h, m', k);
    forall i | 0 <= i < 16 && i != b
      ensures rs[i] == rs'[i]
    {
      assert Child(m', k, i) == Child(m, k, i);
    }
  }

  lemma RootReplaced(h: HashFn, m: LeafMap, m': LeafMap, path: Hash32, c: nat, k: nat)
    requires IsSplit(m, k) && IsSplit(m', k) && c <= k && Beside(m', path, k)
    requires forall i :: 0 <= i < 16 && i != NibbleAt(path, k) ==> Child(m', k, i) == Child(m, k, i)
    ensures Shares(m', c) && Shares(Child(m', k, NibbleAt(path, k)), k + 1)
    ensures RootOf(h, m', c) == Replaced(h, m, path, c, k, RootOf(h, Child(m', k, NibbleAt(path, k)), k + 1))
  {
    hide Merkle16Roots;
    var p := AnyPath(m');
    RootOfBranch(h, m', c, k, p);
    assert NibbleRange(p, c, k) == NibbleRange(path, c, k);
    RootsReplaced(h, m, m', k, NibbleAt(path, k));
  }

  // What the generator knows about one split of the leaves.
  ghost predicate AtSplit(leaves: seq<Leaf>, c: nat, k: nat) {
    && WellFormed(leaves, c) && Distinct(leaves) && |leaves| >= 2 && c <= k < 64 && SplitOf(leaves, c) == Success(k)
    && (forall i :: 0 <= i < 16 ==> WellFormed(Children(leaves, k)[i], k + 1))
    && IsSplit(Contents(leaves), k)
  }

  lemma SplitFacts(leaves: seq<Leaf>, c: nat) returns (k: nat)
    requires WellFormed(leaves, c) && |leaves| >= 2
    ensures AtSplit(leaves, c, k)
  {
    SplitExists(leaves, c);
    ContentsSplit(leaves, c);
    k := SplitOf(leaves, c).value;
  }

  lemma ChildOf(leaves: seq<Leaf>, c: nat, k: nat, i: nat)
    requires AtSplit(leaves, c, k) && i < 16
    ensures Contents(Children(leaves, k)[i]) == Child(Contents(leaves), k, i)
    ensures Children(leaves, k)[i] == [] <==> Child(Contents(leaves), k, i) == map[]
  {
    ContentsGroup(leaves, k, i);
    assert |Contents(Children(leaves, k)[i])| == |Children(leaves, k)[i]|;
  }

  lemma BranchStepFold(h: HashFn, path: Hash32, c: nat, k: nat, roots: seq<Hash32>, r: Hash32)
    requires c <= k < 64 && |roots| == 16
    ensures
      var b := NibbleAt(path, k);
      StepRoot(h, path, c, Branch(k - c, BranchNeighbors(h, b, roots)), r) ==
        Success(NodeRoot(h, path, c, k, roots[b := r]))
  {
    hide Merkle16Roots, Merkle16;
    MerkleFromNeighbors(h, NibbleAt(path, k), r, roots);
  }

  lemma ForkStepFold(h: HashFn, path: Hash32, c: nat, k: nat, roots: seq<Hash32>, r: Hash32, n: Neighbor)
    requires c <= k < 64 && |roots| == 16
    requires n.nibble < 16 && n.nibble != NibbleAt(path, k) && roots[n.nibble] == Combine(h, n.prefix, n.root)
    requires forall i :: 0 <= i < 16 && i != NibbleAt(path, k) && i != n.nibble ==> roots[i] == EMPTY_ROOT
    ensures ForkRoot(h, path, c, k, r, n) == Success(NodeRoot(h, path, c, k, roots[NibbleAt(path, k) := r]))
  {
    SparseIsFull(h, NibbleAt(path, k), r, n.nibble, roots);
  }

  // `j` is the only occupied branch beside the path's own.
  ghost predicate OnlyNeighbor(leaves: seq<Leaf>, path: Hash32, c: nat, k: nat, j: nat)
    requires AtSplit(leaves, c, k)
  {
    && j < 16 && j != NibbleAt(path, k) && Children(leaves, k)[j] != []
    && forall i :: 0 <= i < 16 && i != j && i != NibbleAt(path, k) ==> Children(leaves, k)[i] == []
  }

  // The neighbour a sparse step speaks of.
  ghost function StepNeighbor(step: ProofStep, next: nat): Neighbor
    requires !step.Branch? && next < 64
  {
    if step.Fork? then step.neighbor
    else Neighbor(NibbleAt(step.key, next), SuffixAt(step.key, next + 1), step.value)
  }

  // A sparse step carries the root of the neighbouring leaves.
  lemma SparseStepNeighbor(h: HashFn, g: seq<Leaf>, skip: nat, next: nat, j: byte) returns (step: ProofStep)
    requires next < 64 && g != [] && WellFormed(g, next + 1) && forall l :: l in g ==> NibbleAt(l.path, next) == j
    ensures SparseNeighborStep(h, skip, next + 1, j, g) == Success(step)
    ensures step.skip == skip && !step.Branch?
    ensures StepNeighbor(step, next).nibble == j
    ensures Combine(h, StepNeighbor(step, next).prefix, StepNeighbor(step, next).root) == RootFor(h, g, next + 1)
  {
    hide Merkle16Roots, WellFormed, Children, ChildRoots, Distinct, SplitOf, IsSplit, Contents, Agree, NibbleRange,
         SuffixAt;
    if |g| == 1 {
      assert g[0] in g;
      step := LeafStep(skip, g[0].path, g[0].valueHash);
    } else {
      var k2 := SplitFacts(g, next + 1);
      RootForUnfolds(h, g, next + 1, k2);
      step := SparseNeighborStep(h, skip, next + 1, j, g).value;
    }
  }

  lemma SparseStepFold(
    h: HashFn, leaves: seq<Leaf>, path: Hash32, c: nat, k: nat, j: nat, r: Hash32) returns (step: ProofStep)
    requires AtSplit(leaves, c, k) && OnlyNeighbor(leaves, path, c, k, j)
    ensures SparseNeighborStep(h, k - c, k + 1, j, Children(leaves, k)[j]) == Success(step)
    ensures step.skip == k - c && !step.Branch?
    ensures StepRoot(h, path, c, step, r) ==
      Success(NodeRoot(h, path, c, k, ChildRoots(h, Children(leaves, k), k + 1)[NibbleAt(path, k) := r]))
  {
    hide Merkle16Roots, SparseNeighborStep, ForkRoot, NodeRoot, WellFormed, Distinct, IsSplit, SplitOf, Contents, Agree,
         SuffixAt, Combine;
    var g := Children(leaves, k)[j];
    var roots := ChildRoots(h, Children(leaves, k), k + 1);
    step := SparseStepNeighbor(h, g, k - c, k, j);
    forall i | 0 <= i < 16 && i != NibbleAt(path, k) && i != j
      ensures roots[i] == EMPTY_ROOT
    {
      assert Children(leaves, k)[i] == [];
    }
    ForkStepFold(h, path, c, k, roots, r, StepNeighbor(step, k));
  }

  lemma OneOccupied(leaves: seq<Leaf>, path: Hash32, c: nat, k: nat, ns: seq<nat>)
    requires AtSplit(leaves, c, k) && |ns| == 1
    requires ns == OccupiedNeighbors(Children(leaves, k), NibbleAt(path, k), |Children(leaves, k)|)
    ensures OnlyNeighbor(leaves, path, c, k, ns[0])
  {
    hide WellFormed, Distinct, IsSplit, Group;
    assert ns[0] in ns;
    forall i | 0 <= i < 16 && i != ns[0] && i != NibbleAt(path, k)
      ensures Children(leaves, k)[i] == []
    {
      assert i !in ns;
    }
  }

  // The generated step, whatever its kind, recomputes the node with the path's branch replaced.
  lemma StepFold(h: HashFn, leaves: seq<Leaf>, path: Hash32, c: nat, k: nat, r: Hash32) returns (step: ProofStep)
    requires AtSplit(leaves, c, k)
    ensures ProofStepForBranch(h, path, c, k, NibbleAt(path, k), Children(leaves, k)) == Success(step)
    ensures step.skip == k - c && StepFits(c, step)
    ensures StepRoot(h, path, c, step, r) == Success(Replaced(h, Contents(leaves), path, c, k, r))
  {
    hide NodeRoot, SparseNeighborStep, WellFormed, Distinct, IsSplit, RootsOf, StepRoot, BranchNeighbors, RootFor;
    var b := NibbleAt(path, k);
    var roots := ChildRoots(h, Children(leaves, k), k + 1);
    assert roots == RootsOf(h, Contents(leaves), k) by { ChildRootsAreReference(h, leaves, k); }
    var ns := OccupiedNeighbors(Children(leaves, k), b, |Children(leaves, k)|);
    if |ns| == 1 {
      OneOccupied(leaves, path, c, k, ns);
      step := SparseStepFold(h, leaves, path, c, k, ns[0], r);
    } else {
      BranchStepFold(h, path, c, k, roots, r);
      step := Branch(k - c, BranchNeighbors(h, b, roots));
    }
  }

  // ----- generated proofs are exact -----

  // What a generated proof for `path` recomputes at cursor `c` over the contents `m`.
  ghost predicate Exact(h: HashFn, m: LeafMap, path: Hash32, c: nat, v: Hash32, proof: Proof) {
    && Shares(m[path := v], c) && Shares(m - {path}, c)
    && Including(h, path, v, c, proof) == Success(RootOf(h, m[path := v], c))
    && Excluding(h, path, c, proof) == Success(RootOf(h, m - {path}, c))
    && (proof == [] <==> m - {path} == map[])
  }

  lemma ExactAlone(h: HashFn, m: LeafMap, path: Hash32, c: nat, v: Hash32)
    requires c <= 64 && m - {path} == map[]
    ensures Exact(h, m, path, c, v, [])
  {
    assert m[path := v] == map[path := v];
    RootOfLeaf(h, path, v, c);
  }

  lemma TwoPathSplit(m: LeafMap, p: Hash32, q: Hash32, d: nat)
    requires d < 64 && LeavesAt(p, q, d) && m.Keys == {p, q}
    ensures IsSplit(m, d)
  {
    assert p in m && q in m;
  }

  lemma TwoPathChild(m: LeafMap, p: Hash32, q: Hash32, d: nat, i: nat)
    requires d < 64 && m.Keys == {p, q} && NibbleAt(p, d) != NibbleAt(q, d)
    ensures i == NibbleAt(p, d) ==> p in m && Child(m, d, i) == map[p := m[p]]
    ensures i == NibbleAt(q, d) ==> q in m && Child(m, d, i) == map[q := m[q]]
    ensures i != NibbleAt(p, d) && i != NibbleAt(q, d) ==> Child(m, d, i) == map[]
  {
    hide NibbleAt;
    assert p in m && q in m;
  }

  lemma TwoPathChildren(m: LeafMap, p: Hash32, q: Hash32, d: nat)
    requires d < 64 && LeavesAt(p, q, d) && m.Keys == {p, q}
    ensures IsSplit(m, d) && p in m && q in m
    ensures Child(m, d, NibbleAt(p, d)) == map[p := m[p]] && Child(m, d, NibbleAt(q, d)) == map[q := m[q]]
    ensures forall i :: 0 <= i < 16 && i != NibbleAt(p, d) && i != NibbleAt(q, d) ==> Child(m, d, i) == map[]
  {
    TwoPathSplit(m, p, q, d);
    hide Child, NibbleAt, IsSplit;
    TwoPathChild(m, p, q, d, NibbleAt(p, d));
    TwoPathChild(m, p, q, d, NibbleAt(q, d));
    forall i | 0 <= i < 16 && i != NibbleAt(p, d) && i != NibbleAt(q, d)
      ensures Child(m, d, i) == map[]
    {
      TwoPathChild(m, p, q, d, i);
    }
  }

  // The children of a two-path map at the nibble where the paths part.
  lemma TwoPathRoots(h: HashFn, m: LeafMap, p: Hash32, q: Hash32, d: nat)
    requires d < 64 && LeavesAt(p, q, d) && m.Keys == {p, q}
    ensures IsSplit(m, d)
    ensures RootsOf(h, m, d)[NibbleAt(p, d)] == Combine(h, SuffixAt(p, d + 1), m[p])
    ensures RootsOf(h, m, d)[NibbleAt(q, d)] == Combine(h, SuffixAt(q, d + 1), m[q])
    ensures forall i :: 0 <= i < 16 && i != NibbleAt(p, d) && i != NibbleAt(q, d) ==> RootsOf(h, m, d)[i] == EMPTY_ROOT
  {
    hide IsSplit, SuffixAt, Combine, Agree, Child;
    TwoPathChildren(m, p, q, d);
    assert p in m && q in m;
    RootOfLeaf(h, p, m[p], d + 1);
    RootOfLeaf(h, q, m[q], d + 1);
    EmptyRoot(h, d + 1);
  }

  lemma EmptyRoot(h: HashFn, c: nat)
    requires c <= 64
    ensures Shares(map[], c) && RootOf(h, map[], c) == EMPTY_ROOT
  {
  }

  lemma LeafStepFold(h: HashFn, path: Hash32, c: nat, d: nat, roots: seq<Hash32>, r: Hash32, key: Hash32, value: Hash32)
    requires c <= d < 64 && |roots| == 16 && NibbleAt(key, d) != NibbleAt(path, d)
    requires roots[NibbleAt(key, d)] == Combine(h, SuffixAt(key, d + 1), value)
    requires forall i :: 0 <= i < 16 && i != NibbleAt(path, d) && i != NibbleAt(key, d) ==> roots[i] == EMPTY_ROOT
    ensures StepRoot(h, path, c, LeafStep(d - c, key, value), r) ==
      Success(NodeRoot(h, path, c, d, roots[NibbleAt(path, d) := r]))
  {
    hide NodeRoot, ForkRoot;
    ForkStepFold(h, path, c, d, roots, r, Neighbor(NibbleAt(key, d), SuffixAt(key, d + 1), value));
  }

  lemma IncludingTwo(h: HashFn, key: Hash32, value: Hash32, path: Hash32, c: nat, d: nat, v: Hash32, m: LeafMap)
    requires c <= d < 64 && LeavesAt(key, path, d) && m == map[key := value, path := v]
    ensures Shares(m, c)
    ensures Including(h, path, v, c, [LeafStep(d - c, key, value)]) == Success(RootOf(h, m, c))
  {
    hide Merkle16Roots, RootOf, RootsOf, IsSplit, StepRoot, SuffixAt;
    var step := LeafStep(d - c, key, value);
    var r := Combine(h, SuffixAt(path, d + 1), v);
    TwoPathRoots(h, m, key, path, d);
    var roots := RootsOf(h, m, d);
    assert RootOf(h, m, c) == NodeRoot(h, path, c, d, roots) by { RootOfBranch(h, m, c, d, path); }
    assert StepRoot(h, path, c, step, r) == Success(NodeRoot(h, path, c, d, roots)) by {
      LeafStepFold(h, path, c, d, roots, r, key, value);
      assert roots[NibbleAt(path, d) := r] == roots;
    }
    IncludingStep(h, path, v, c, step, [], r);
    assert [step] + [] == [step];
  }

  lemma ExactTwo(h: HashFn, m: LeafMap, key: Hash32, path: Hash32, c: nat, d: nat, v: Hash32)
    requires c <= d < 64 && LeavesAt(key, path, d) && m.Keys == {key}
    ensures Exact(h, m, path, c, v, [LeafStep(d - c, key, m[key])])
  {
    hide RootOf, Including, SuffixAt;
    assert m - {path} == m == map[key := m[key]] && m != map[] by { assert key in m && path != key; }
    RootOfLeaf(h, key, m[key], c);
    assert m[path := v] == map[key := m[key], path := v];
    IncludingTwo(h, key, m[key], path, c, d, v, m[path := v]);
  }

  lemma WithPath(m: LeafMap, path: Hash32, k: nat, v: Hash32)
    requires IsSplit(m, k) && Beside(m, path, k)
    ensures IsSplit(m[path := v], k) && Beside(m[path := v], path, k)
    ensures forall i :: 0 <= i < 16 && i != NibbleAt(path, k) ==> Child(m[path := v], k, i) == Child(m, k, i)
    ensures Child(m[path := v], k, NibbleAt(path, k)) == Child(m, k, NibbleAt(path, k))[path := v]
  {
    var m' := m[path := v];
    forall p | p in m'
      ensures Agree(p, path, 0, k)
    {
    }
    assert Shares(m', k);
    var x, y :| x in m && y in m && NibbleAt(x, k) != NibbleAt(y, k);
    assert x in m' && y in m';
  }

  lemma WithoutPath(m: LeafMap, path: Hash32, k: nat)
    requires IsSplit(m, k)
    ensures Shares(m - {path}, k)
    ensures forall i :: 0 <= i < 16 && i != NibbleAt(path, k) ==> Child(m - {path}, k, i) == Child(m, k, i)
    ensures Child(m - {path}, k, NibbleAt(path, k)) == Child(m, k, NibbleAt(path, k)) - {path}
  {
  }

  // Removing the path keeps the node when its child keeps a path, or when two other branches are occupied.
  lemma StillSplit(m: LeafMap, path: Hash32, k: nat, i: nat, j: nat)
    requires IsSplit(m, k) && i != j && i < 16 && j < 16
    requires Child(m - {path}, k, i) != map[] && Child(m - {path}, k, j) != map[]
    ensures IsSplit(m - {path}, k)
  {
    WithoutPath(m, path, k);
    var x, y := AnyPath(Child(m - {path}, k, i)), AnyPath(Child(m - {path}, k, j));
    assert x in m - {path} && y in m - {path} && NibbleAt(x, k) != NibbleAt(y, k);
  }

  lemma IncludingNode(
    h: HashFn, leaves: seq<Leaf>, path: Hash32, c: nat, k: nat, v: Hash32, rest: Proof,
    r: Hash32) returns (step: ProofStep)
    requires AtSplit(leaves, c, k) && Beside(Contents(leaves), path, k)
    requires Shares(Child(Contents(leaves), k, NibbleAt(path, k))[path := v], k + 1)
    requires r == RootOf(h, Child(Contents(leaves), k, NibbleAt(path, k))[path := v], k + 1)
    requires Including(h, path, v, k + 1, rest) == Success(r)
    ensures ProofStepForBranch(h, path, c, k, NibbleAt(path, k), Children(leaves, k)) == Success(step)
    ensures Shares(Contents(leaves)[path := v], c)
    ensures Including(h, path, v, c, [step] + rest) == Success(RootOf(h, Contents(leaves)[path := v], c))
  {
    hide RootOf, RootsOf, Including, StepRoot, ProofStepForBranch, NodeRoot, WellFormed, Distinct, Contents, Children;
    var m := Contents(leaves);
    step := StepFold(h, leaves, path, c, k, r);
    WithPath(m, path, k, v);
    RootReplaced(h, m, m[path := v], path, c, k);
    IncludingStep(h, path, v, c, step, rest, r);
  }

  lemma ExcludingNode(
    h: HashFn, leaves: seq<Leaf>, path: Hash32, c: nat, k: nat, rest: Proof, r: Hash32) returns (step: ProofStep)
    requires AtSplit(leaves, c, k) && Beside(Contents(leaves), path, k) && IsSplit(Contents(leaves) - {path}, k)
    requires Shares(Child(Contents(leaves), k, NibbleAt(path, k)) - {path}, k + 1)
    requires r == RootOf(h, Child(Contents(leaves), k, NibbleAt(path, k)) - {path}, k + 1)
    requires Excluding(h, path, k + 1, rest) == Success(r)
    ensures ProofStepForBranch(h, path, c, k, NibbleAt(path, k), Children(leaves, k)) == Success(step)
    ensures Shares(Contents(leaves) - {path}, c)
    ensures rest != [] || step.Branch? ==>
      Excluding(h, path, c, [step] + rest) == Success(RootOf(h, Contents(leaves) - {path}, c))
  {
    hide RootOf, RootsOf, Excluding, StepRoot, ProofStepForBranch, NodeRoot, WellFormed, Distinct, Contents, Children;
    var m := Contents(leaves);
    step := StepFold(h, leaves, path, c, k, r);
    WithoutPath(m, path, k);
    RootReplaced(h, m, m - {path}, path, c, k);
    if rest != [] || step.Branch? { ExcludingStep(h, path, c, step, rest, r); }
  }

  // A sparse step at the end of a proof: the neighbour is all that is left, and takes over the prefix.
  lemma ExcludingCollapse(h: HashFn, leaves: seq<Leaf>, path: Hash32, c: nat, k: nat, j: nat, step: ProofStep)
    requires AtSplit(leaves, c, k) && Beside(Contents(leaves), path, k) && OnlyNeighbor(leaves, path, c, k, j)
    requires SparseNeighborStep(h, k - c, k + 1, j, Children(leaves, k)[j]) == Success(step)
    ensures Shares(Child(Contents(leaves), k, j), c)
    ensures Excluding(h, path, c, [step]) == Success(RootOf(h, Child(Contents(leaves), k, j), c))
  {
    NeighborGroup(leaves, path, c, k, j);
    hide RootOf, Excluding, SparseNeighborStep, Children, Contents, Child, Shares, AtSplit, OnlyNeighbor, Beside,
         WellFormed, Agree, NibbleAt;
    CollapseGroup(h, Children(leaves, k)[j], path, c, k, j, step);
  }

  // The only occupied branch beside the path: leaves that agree with the path up to the split.
  lemma NeighborGroup(leaves: seq<Leaf>, path: Hash32, c: nat, k: nat, j: nat)
    requires AtSplit(leaves, c, k) && Beside(Contents(leaves), path, k) && OnlyNeighbor(leaves, path, c, k, j)
    ensures var g := Children(leaves, k)[j];
      && g != [] && WellFormed(g, k + 1) && Contents(g) == Child(Contents(leaves), k, j)
      && forall l :: l in g ==> NibbleAt(l.path, k) == j && Agree(l.path, path, 0, k)
  {
    hide SplitOf, IsSplit, NibbleAt;
    ChildOf(leaves, c, k, j);
  }

  lemma PrefixJoin(path: Hash32, p: Hash32, c: nat, k: nat, k2: nat)
    requires c <= k < k2 <= 64 && Agree(p, path, 0, k)
    ensures NibbleRange(path, c, k) + [NibbleAt(p, k)] + NibbleRange(p, k + 1, k2) == NibbleRange(p, c, k2)
  {
    var s := NibbleRange(path, c, k) + [NibbleAt(p, k)] + NibbleRange(p, k + 1, k2);
    forall i | 0 <= i < k2 - c
      ensures s[i] == NibbleAt(p, c + i)
    {
    }
  }

  lemma ExcludingLast(h: HashFn, path: Hash32, c: nat, step: ProofStep)
    requires c <= 64 && !step.Branch?
    ensures Excluding(h, path, c, [step]) ==
      if step.Fork? then CollapsedFork(h, path, c, step.skip, step.neighbor)
      else CollapsedLeaf(h, c, step.key, step.value)
  {
    hide CollapsedFork, CollapsedLeaf;
  }

  lemma CollapsedForkValue(h: HashFn, path: Hash32, p: Hash32, c: nat, k: nat, k2: nat, sub: Hash32)
    requires c <= k < k2 <= 64 && Agree(p, path, 0, k)
    ensures CollapsedFork(h, path, c, k - c, Neighbor(NibbleAt(p, k), NibbleRange(p, k + 1, k2), sub)) ==
      Success(Combine(h, NibbleRange(p, c, k2), sub))
  {
    PrefixJoin(path, p, c, k, k2);
  }

  lemma CollapseMap(h: HashFn, m: LeafMap, path: Hash32, p: Hash32, c: nat, k: nat, k2: nat)
    requires c <= k < k2 && IsSplit(m, k2) && p in m && Agree(p, path, 0, k)
    ensures Shares(m, c)
    ensures Excluding(h, path, c,
      [Fork(k - c, Neighbor(NibbleAt(p, k), NibbleRange(p, k + 1, k2), Merkle16Roots(h, RootsOf(h, m, k2))))])
      == Success(RootOf(h, m, c))
  {
    hide RootOf, RootsOf, Merkle16Roots, Excluding, CollapsedFork, NibbleRange;
    var sub := Merkle16Roots(h, RootsOf(h, m, k2));
    ExcludingLast(h, path, c, Fork(k - c, Neighbor(NibbleAt(p, k), NibbleRange(p, k + 1, k2), sub)));
    CollapsedForkValue(h, path, p, c, k, k2, sub);
    RootOfBranch(h, m, c, k2, p);
  }

  lemma ForkShape(h: HashFn, g: seq<Leaf>, skip: nat, c: nat, k: nat, j: byte)
    requires AtSplit(g, c, k)
    ensures SparseNeighborStep(h, skip, c, j, g) ==
      Success(Fork(skip, Neighbor(j, NibbleRange(g[0].path, c, k), Merkle16Roots(h, RootsOf(h, Contents(g), k)))))
  {
    hide RootOf, RootsOf, Merkle16Roots, WellFormed, Distinct, Children, IsSplit, NibbleRange, SplitOf, SplitFrom,
         AgreeAt, Contents;
    ChildRootsAreReference(h, g, k);
  }

  lemma CollapseMany(h: HashFn, g: seq<Leaf>, path: Hash32, c: nat, k: nat, k2: nat, step: ProofStep)
    requires c <= k < 64 && AtSplit(g, k + 1, k2) && Agree(g[0].path, path, 0, k)
    requires SparseNeighborStep(h, k - c, k + 1, NibbleAt(g[0].path, k), g) == Success(step)
    ensures Shares(Contents(g), c)
    ensures Excluding(h, path, c, [step]) == Success(RootOf(h, Contents(g), c))
  {
    hide RootOf, RootsOf, Merkle16Roots, Excluding, SparseNeighborStep, WellFormed, Distinct, IsSplit, NibbleRange,
         Agree, Shares, SplitOf, Children, Contents;
    ForkShape(h, g, k - c, k + 1, k2, NibbleAt(g[0].path, k));
    assert g[0] in g;
    CollapseMap(h, Contents(g), path, g[0].path, c, k, k2);
  }

  lemma CollapseGroup(h: HashFn, g: seq<Leaf>, path: Hash32, c: nat, k: nat, j: byte, step: ProofStep)
    requires c <= k < 64 && g != [] && WellFormed(g, k + 1) && j < 16
    requires forall l :: l in g ==> NibbleAt(l.path, k) == j && Agree(l.path, path, 0, k)
    requires SparseNeighborStep(h, k - c, k + 1, j, g) == Success(step)
    ensures Shares(Contents(g), c)
    ensures Excluding(h, path, c, [step]) == Success(RootOf(h, Contents(g), c))
  {
    hide RootOf, Excluding;
    assert g[0] in g;
    if |g| == 1 {
      ExcludingLast(h, path, c, step);
      assert Contents(g) == map[g[0].path := g[0].valueHash];
      RootOfLeaf(h, g[0].path, g[0].valueHash, c);
    } else {
      var k2 := SplitFacts(g, k + 1);
      CollapseMany(h, g, path, c, k, k2, step);
    }
  }

  // The generated proof at a split is one step and the proof in the path's child.
  lemma ProofUnfolds(h: HashFn, leaves: seq<Leaf>, path: Hash32, c: nat, k: nat, step: ProofStep, rest: Proof)
    requires AtSplit(leaves, c, k)
    requires ProofStepForBranch(h, path, c, k, NibbleAt(path, k), Children(leaves, k)) == Success(step)
    requires ProofForPath(h, Children(leaves, k)[NibbleAt(path, k)], path, k + 1) == Success(rest)
    ensures ProofForPath(h, leaves, path, c) == Success([step] + rest)
  {
    hide ProofStepForBranch, WellFormed, Distinct, IsSplit, SplitOf, Contents, Group, NibbleAt, Children;
    if Children(leaves, k)[NibbleAt(path, k)] == [] { assert [step] + rest == [step]; }
  }

  lemma SomeNeighbor(leaves: seq<Leaf>, path: Hash32, c: nat, k: nat, ns: seq<nat>)
    requires AtSplit(leaves, c, k)
    requires ns == OccupiedNeighbors(Children(leaves, k), NibbleAt(path, k), |Children(leaves, k)|)
    ensures ns != []
    ensures forall j :: j in ns ==> j < 16 && j != NibbleAt(path, k) && Child(Contents(leaves), k, j) != map[]
  {
    hide WellFormed, Distinct, SplitOf, Group;
    var m := Contents(leaves);
    var x, y :| x in m && y in m && NibbleAt(x, k) != NibbleAt(y, k);
    var p := if NibbleAt(x, k) != NibbleAt(path, k) then x else y;
    ChildOf(leaves, c, k, NibbleAt(p, k));
    assert p in Child(m, k, NibbleAt(p, k));
    assert NibbleAt(p, k) in ns;
    forall j | j in ns
      ensures j < 16 && j != NibbleAt(path, k) && Child(m, k, j) != map[]
    {
      ChildOf(leaves, c, k, j);
    }
  }

  lemma StepOfNeighbors(h: HashFn, leaves: seq<Leaf>, path: Hash32, c: nat, k: nat, ns: seq<nat>, step: ProofStep)
    requires AtSplit(leaves, c, k)
    requires ns == OccupiedNeighbors(Children(leaves, k), NibbleAt(path, k), |Children(leaves, k)|)
    requires ProofStepForBranch(h, path, c, k, NibbleAt(path, k), Children(leaves, k)) == Success(step)
    ensures step.Branch? <==> |ns| != 1
    ensures |ns| == 1 ==> ns[0] in ns && OnlyNeighbor(leaves, path, c, k, ns[0])
    ensures |ns| == 1 ==> SparseNeighborStep(h, k - c, k + 1, ns[0], Children(leaves, k)[ns[0]]) == Success(step)
  {
    hide WellFormed, Distinct, SparseNeighborStep, BranchNeighbors, ChildRoots, SplitOf, Agree, Group, IsSplit,
         Contents;
    if |ns| == 1 {
      OneOccupied(leaves, path, c, k, ns);
      SparseIsSparse(h, k - c, k + 1, ns[0], Children(leaves, k)[ns[0]]);
    }
  }

  // What is left of the node without the path: a split again, or the only neighbour.
  lemma Remaining(h: HashFn, leaves: seq<Leaf>, path: Hash32, c: nat, k: nat, step: ProofStep) returns (j: nat)
    requires AtSplit(leaves, c, k)
    requires ProofStepForBranch(h, path, c, k, NibbleAt(path, k), Children(leaves, k)) == Success(step)
    ensures step.Branch? || Child(Contents(leaves), k, NibbleAt(path, k)) - {path} != map[] ==>
      IsSplit(Contents(leaves) - {path}, k)
    ensures !step.Branch? ==> OnlyNeighbor(leaves, path, c, k, j)
    ensures !step.Branch? ==> SparseNeighborStep(h, k - c, k + 1, j, Children(leaves, k)[j]) == Success(step)
    ensures j < 16
  {
    hide WellFormed, Distinct, SplitOf, Group, OccupiedNeighbors, ProofStepForBranch, SparseNeighborStep, IsSplit,
         Child, NibbleAt, Contents, Children, OnlyNeighbor;
    var m := Contents(leaves);
    var ns := OccupiedNeighbors(Children(leaves, k), NibbleAt(path, k), |Children(leaves, k)|);
    SomeNeighbor(leaves, path, c, k, ns);
    StepOfNeighbors(h, leaves, path, c, k, ns, step);
    WithoutPath(m, path, k);
    j := ns[0];
    assert j in ns;
    if step.Branch? {
      assert ns[1] in ns;
      StillSplit(m, path, k, j, ns[1]);
    }
    if Child(m, k, NibbleAt(path, k)) - {path} != map[] { StillSplit(m, path, k, j, NibbleAt(path, k)); }
  }

  lemma SparseIsSparse(h: HashFn, skip: nat, c: nat, j: byte, g: seq<Leaf>)
    requires g != [] && WellFormed(g, c)
    ensures SparseNeighborStep(h, skip, c, j, g).Success? ==> !SparseNeighborStep(h, skip, c, j, g).value.Branch?
  {
    hide Merkle16Roots, Children, ChildRoots;
  }

  lemma ExactNode(
    h: HashFn, leaves: seq<Leaf>, path: Hash32, c: nat, k: nat, v: Hash32, rest: Proof) returns (step: ProofStep)
    requires AtSplit(leaves, c, k) && Beside(Contents(leaves), path, k)
    requires Exact(h, Child(Contents(leaves), k, NibbleAt(path, k)), path, k + 1, v, rest)
    ensures ProofStepForBranch(h, path, c, k, NibbleAt(path, k), Children(leaves, k)) == Success(step)
    ensures Exact(h, Contents(leaves), path, c, v, [step] + rest)
  {
    hide WellFormed, Distinct, SplitOf, Group, ProofStepForBranch, SparseNeighborStep, NibbleAt, Contents, Children,
         RootOf, Including, Excluding, Shares, Beside, OnlyNeighbor, IsSplit, Child;
    var m := Contents(leaves);
    var mb := Child(m, k, NibbleAt(path, k));
    step := IncludingNode(h, leaves, path, c, k, v, rest, RootOf(h, mb[path := v], k + 1));
    var j := Remaining(h, leaves, path, c, k, step);
    WithoutPath(m, path, k);
    if step.Branch? || rest != [] {
      var step' := ExcludingNode(h, leaves, path, c, k, rest, RootOf(h, mb - {path}, k + 1));
      NonEmptySplit(m - {path}, k);
    } else {
      OnlyNeighborLeft(leaves, path, c, k, j);
      ExcludingCollapse(h, leaves, path, c, k, j, step);
      assert [step] + rest == [step];
    }
  }

  lemma NonEmptySplit(m: LeafMap, k: nat)
    requires IsSplit(m, k)
    ensures m != map[]
  {
  }

  lemma OnlyNeighborLeft(leaves: seq<Leaf>, path: Hash32, c: nat, k: nat, j: nat)
    requires AtSplit(leaves, c, k) && OnlyNeighbor(leaves, path, c, k, j)
    requires Child(Contents(leaves), k, NibbleAt(path, k)) - {path} == map[]
    ensures Contents(leaves) - {path} == Child(Contents(leaves), k, j)
    ensures Child(Contents(leaves), k, j) != map[]
  {
    hide WellFormed, Distinct, SplitOf, Group, IsSplit, Child, Contents, Children, Agree;
    var m := Contents(leaves);
    ChildOf(leaves, c, k, j);
    forall i: nat | i < 16 && i != j
      ensures Child(m, k, i) - {path} == map[]
    {
      ChildOf(leaves, c, k, i);
    }
    OneChildLeft(m, path, k, j);
  }

  lemma OneChildLeft(m: LeafMap, path: Hash32, k: nat, j: nat)
    requires k < 64 && j < 16 && j != NibbleAt(path, k)
    requires forall i: nat :: i < 16 && i != j ==> Child(m, k, i) - {path} == map[]
    ensures m - {path} == Child(m, k, j)
  {
    forall p | p in m - {path}
      ensures NibbleAt(p, k) == j
    {
      assert p in Child(m, k, NibbleAt(p, k)) - {path};
    }
  }

  // Completeness: for every hash, every list of leaves with distinct paths, and every path that
  // follows the compressed prefixes (so every stored path, and every insertable one), the generated
  // proof recomputes the root of the contents with the path set to any value hash, and the root of
  // the contents without the path.
  lemma {:induction false} GeneratedProof(
    h: HashFn, leaves: seq<Leaf>, path: Hash32, c: nat, v: Hash32) returns (proof: Proof)
    requires WellFormed(leaves, c) && Beside(Contents(leaves), path, c) && Follows(Contents(leaves), path)
    ensures ProofForPath(h, leaves, path, c) == Success(proof)
    ensures Exact(h, Contents(leaves), path, c, v, proof)
    decreases 64 - c, 0
  {
    var m := Contents(leaves);
    if |leaves| == 0 {
      proof := [];
      ExactAlone(h, m, path, c, v);
    } else if |leaves| == 1 {
      proof := GeneratedForOne(h, leaves, path, c, v);
    } else {
      var k := SplitFacts(leaves, c);
      FollowsDown(m, path, c, k);
      proof := GeneratedForMany(h, leaves, path, c, k, v);
    }
  }

  lemma GeneratedForOne(h: HashFn, leaves: seq<Leaf>, path: Hash32, c: nat, v: Hash32) returns (proof: Proof)
    requires WellFormed(leaves, c) && |leaves| == 1 && Beside(Contents(leaves), path, c)
    ensures ProofForPath(h, leaves, path, c) == Success(proof)
    ensures Exact(h, Contents(leaves), path, c, v, proof)
  {
    hide Exact;
    var m := Contents(leaves);
    var key := leaves[0].path;
    assert leaves[0] in leaves;
    assert m.Keys == {key};
    if key == path {
      proof := [];
      ExactAlone(h, m, path, c, v);
    } else {
      var r := FirstDivergence(path, key, c);
      var d := if r.Success? then r.value else 64;
      assert Agree(key, path, 0, c);
      assert Agree(key, path, 0, d);
      if r.Failure? { PathsEqual(key, path); }
      proof := [LeafStep(d - c, key, m[key])];
      ExactTwo(h, m, key, path, c, d, v);
    }
  }

  lemma {:induction false} GeneratedForMany(
    h: HashFn, leaves: seq<Leaf>, path: Hash32, c: nat, k: nat, v: Hash32) returns (proof: Proof)
    requires AtSplit(leaves, c, k) && Beside(Contents(leaves), path, k)
    requires Beside(Child(Contents(leaves), k, NibbleAt(path, k)), path, k + 1)
    requires Follows(Child(Contents(leaves), k, NibbleAt(path, k)), path)
    ensures ProofForPath(h, leaves, path, c) == Success(proof)
    ensures Exact(h, Contents(leaves), path, c, v, proof)
    decreases 64 - k - 1, 1
  {
    hide WellFormed, Distinct, SplitOf, Group, ProofStepForBranch, NibbleAt, Contents, Children, ProofForPath, Beside,
         Follows, IsSplit, Child, Exact;
    ChildOf(leaves, c, k, NibbleAt(path, k));
    var rest := GeneratedProof(h, Children(leaves, k)[NibbleAt(path, k)], path, k + 1, v);
    var step := ExactNode(h, leaves, path, c, k, v, rest);
    ProofUnfolds(h, leaves, path, c, k, step, rest);
    proof := [step] + rest;
  }
}
