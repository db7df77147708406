/**
 The 16-ary, prefix-compressed Merkle Patricia trie: root computation from leaves, proof
 generation, and recomputation of roots from a proof with (`Including`) or without (`Excluding`)
 the proven key.
 */
module Mpf {
  import opened Bytes

  function Zeros(n: nat): (r: Bytes)
    ensures |r| == n
  {
    seq(n, _ => 0)
  }

  const EMPTY_ROOT: Hash32 := Zeros(32)

  datatype Neighbor = Neighbor(nibble: byte, prefix: Bytes, root: Hash32)

  datatype ProofStep =
    | Branch(skip: nat, neighbors: Bytes)
    | Fork(skip: nat, neighbor: Neighbor)
    | LeafStep(skip: nat, key: Hash32, value: Hash32)

  type Proof = seq<ProofStep>

  datatype MpfError =
    | InvalidBranchNeighbors(actual: nat)
    | InvalidProof
    | ExistingKey
    | MissingKey
    | PathExhausted

  type MpfResult<T> = Result<T, MpfError>

  datatype Leaf = Leaf(key: Bytes, path: Hash32, value: Bytes, valueHash: Hash32)

  // ----- nibbles -----

  // The i-th half byte of a path.
  function NibbleAt(path: Hash32, i: nat): (n: byte)
    requires i < 64
    ensures n < 16
  {
    if i % 2 == 0 then path[i / 2] / 16 else path[i / 2] % 16
  }

  // The two half bytes of every byte, the high one first.
  lemma NibblesSpell(path: Hash32, i: nat)
    requires i < 32
    ensures path[i] == 16 * NibbleAt(path, 2 * i) + NibbleAt(path, 2 * i + 1)
  {
    assert 2 * i / 2 == i && (2 * i + 1) / 2 == i;
  }

  function Nibble(path: Hash32, index: nat): MpfResult<byte> {
    if index >= 64 then Failure(PathExhausted) else Success(NibbleAt(path, index))
  }

  function NibbleRange(path: Hash32, start: nat, end: nat): (r: Bytes)
    requires start <= end <= 64
    ensures |r| == end - start
    ensures forall i :: 0 <= i < |r| ==> r[i] == NibbleAt(path, start + i)
  {
    seq<byte>(end - start, i requires 0 <= i < end - start => NibbleAt(path, start + i))
  }

  function Nibbles(path: Hash32, start: nat, end: nat): MpfResult<Bytes> {
    if start > end || end > 64 then Failure(PathExhausted) else Success(NibbleRange(path, start, end))
  }

  function EnsureCursor(cursor: nat): MpfResult<()> {
    if cursor > 64 then Failure(PathExhausted) else Success(())
  }

  // What a leaf hashes in front of its value: a parity tag and the rest of its path.
  function SuffixAt(path: Hash32, cursor: nat): Bytes
    requires cursor <= 64
  {
    if cursor % 2 == 0 then [0xff] + path[cursor / 2..]
    else [0, NibbleAt(path, cursor)] + path[(cursor + 1) / 2..]
  }

  function Suffix(path: Hash32, cursor: nat): MpfResult<Bytes> {
    var _ :- EnsureCursor(cursor);
    Success(SuffixAt(path, cursor))
  }

  // ----- hashing -----

  function Combine(h: HashFn, left: Bytes, right: Bytes): Hash32 {
    h(left + right)
  }

  function Merkle2Roots(h: HashFn, roots: seq<Hash32>): Hash32
    requires |roots| == 2
  {
    Combine(h, roots[0], roots[1])
  }

  function Merkle4Roots(h: HashFn, roots: seq<Hash32>): Hash32
    requires |roots| == 4
  {
    Combine(h, Merkle2Roots(h, roots[0..2]), Merkle2Roots(h, roots[2..4]))
  }

  function Merkle8Roots(h: HashFn, roots: seq<Hash32>): Hash32
    requires |roots| == 8
  {
    Combine(h, Merkle4Roots(h, roots[0..4]), Merkle4Roots(h, roots[4..8]))
  }

  function Merkle16Roots(h: HashFn, roots: seq<Hash32>): Hash32
    requires |roots| == 16
  {
    Combine(h, Merkle8Roots(h, roots[0..8]), Merkle8Roots(h, roots[8..16]))
  }

  function SparseMerkle16(h: HashFn, me: byte, meHash: Hash32, neighbor: byte, neighborHash: Hash32): Hash32
    requires me < 16 && neighbor < 16
  {
    Merkle16Roots(h, seq(16, _ => EMPTY_ROOT)[me := meHash][neighbor := neighborHash])
  }

  function ValidateNeighbors(neighbors: Bytes): MpfResult<()> {
    if |neighbors| != 128 then Failure(InvalidBranchNeighbors(|neighbors|)) else Success(())
  }

  function Merkle16(h: HashFn, branch: byte, root: Hash32, neighbors: Bytes): MpfResult<Hash32>
    requires branch < 16
  {
    var _ :- ValidateNeighbors(neighbors);
    var n8, n4, n2, n1 := neighbors[0..32], neighbors[32..64], neighbors[64..96], neighbors[96..128];
    var pair := if branch % 2 == 0 then Combine(h, root, n1) else Combine(h, n1, root);
    var group4 := if branch % 4 < 2 then Combine(h, pair, n2) else Combine(h, n2, pair);
    var group8 := if branch % 8 < 4 then Combine(h, group4, n4) else Combine(h, n4, group4);
    Success(if branch < 8 then Combine(h, group8, n8) else Combine(h, n8, group8))
  }

  function BranchNeighbors(h: HashFn, branch: byte, roots: seq<Hash32>): (r: Bytes)
    requires branch < 16 && |roots| == 16
    ensures |r| == 128
  {
    var n8 := if branch < 8 then Merkle8Roots(h, roots[8..16]) else Merkle8Roots(h, roots[0..8]);
    var n4Base := branch / 8 * 8 + (if branch % 8 < 4 then 4 else 0);
    var n4 := Merkle4Roots(h, roots[n4Base..n4Base + 4]);
    var n2Base := branch / 4 * 4 + (if branch % 4 < 2 then 2 else 0);
    var n2 := Merkle2Roots(h, roots[n2Base..n2Base + 2]);
    var n1 := roots[if branch % 2 == 0 then branch + 1 else branch - 1];
    n8 + n4 + n2 + n1
  }

  function BranchRoot(
    h: HashFn, path: Hash32, cursor: nat, next: nat, root: Hash32, neighbors: Bytes): MpfResult<Hash32> {
    var _ :- ValidateNeighbors(neighbors);
    var branch :- Nibble(path, next);
    var prefix :- Nibbles(path, cursor, next);
    var merkle :- Merkle16(h, branch, root, neighbors);
    Success(Combine(h, prefix, merkle))
  }

  function ForkRoot(
    h: HashFn, path: Hash32, cursor: nat, next: nat, root: Hash32, neighbor: Neighbor): MpfResult<Hash32> {
    var branch :- Nibble(path, next);
    if branch == neighbor.nibble || neighbor.nibble > 15 then Failure(InvalidProof)
    else
      var prefix :- Nibbles(path, cursor, next);
      var neighborRoot := Combine(h, neighbor.prefix, neighbor.root);
      Success(Combine(h, prefix, SparseMerkle16(h, branch, root, neighbor.nibble, neighborRoot)))
  }

  // A leaf step read as the fork neighbour it stands for.
  function LeafNeighbor(key: Hash32, value: Hash32, next: nat): MpfResult<Neighbor> {
    var prefix :- Suffix(key, next + 1);
    var nibble :- Nibble(key, next);
    Success(Neighbor(nibble, prefix, value))
  }

  // ----- recomputing a root from a proof -----

  // `skip` is machine-sized in the source: an overflowing cursor + skip fails like one past 64.
  function Advance(cursor: nat, skip: nat): MpfResult<nat> {
    var _ :- EnsureCursor(cursor + skip);
    Success(cursor + skip)
  }

  function Including(h: HashFn, path: Hash32, valueHash: Hash32, cursor: nat, proof: Proof): MpfResult<Hash32>
    decreases |proof|
  {
    var _ :- EnsureCursor(cursor);
    if proof == [] then
      var suffix :- Suffix(path, cursor);
      Success(Combine(h, suffix, valueHash))
    else
      match proof[0]
      case Branch(skip, neighbors) =>
        var _ :- ValidateNeighbors(neighbors);
        var next :- Advance(cursor, skip);
        var root :- Including(h, path, valueHash, next + 1, proof[1..]);
        BranchRoot(h, path, cursor, next, root, neighbors)
      case Fork(skip, neighbor) =>
        var next :- Advance(cursor, skip);
        var root :- Including(h, path, valueHash, next + 1, proof[1..]);
        ForkRoot(h, path, cursor, next, root, neighbor)
      case LeafStep(skip, key, value) =>
        var next :- Advance(cursor, skip);
        var root :- Including(h, path, valueHash, next + 1, proof[1..]);
        var neighbor :- LeafNeighbor(key, value, next);
        ForkRoot(h, path, cursor, next, root, neighbor)
  }

  // A terminal fork without its key: the neighbour takes over the whole prefix.
  function CollapsedFork(h: HashFn, path: Hash32, cursor: nat, skip: nat, neighbor: Neighbor): MpfResult<Hash32> {
    if neighbor.nibble > 15 then Failure(InvalidProof)
    else
      var prefix :- Nibbles(path, cursor, cursor + skip);
      Success(Combine(h, prefix + [neighbor.nibble] + neighbor.prefix, neighbor.root))
  }

  // A terminal leaf neighbour without the key: a single leaf again.
  function CollapsedLeaf(h: HashFn, cursor: nat, key: Hash32, value: Hash32): MpfResult<Hash32> {
    var suffix :- Suffix(key, cursor);
    Success(Combine(h, suffix, value))
  }

  function Excluding(h: HashFn, path: Hash32, cursor: nat, proof: Proof): MpfResult<Hash32>
    decreases |proof|
  {
    var _ :- EnsureCursor(cursor);
    if proof == [] then Success(EMPTY_ROOT)
    else if |proof| == 1 && proof[0].Fork? then CollapsedFork(h, path, cursor, proof[0].skip, proof[0].neighbor)
    else if |proof| == 1 && proof[0].LeafStep? then CollapsedLeaf(h, cursor, proof[0].key, proof[0].value)
    else
      match proof[0]
      case Branch(skip, neighbors) =>
        var _ :- ValidateNeighbors(neighbors);
        var next :- Advance(cursor, skip);
        var root :- Excluding(h, path, next + 1, proof[1..]);
        BranchRoot(h, path, cursor, next, root, neighbors)
      case Fork(skip, neighbor) =>
        var next :- Advance(cursor, skip);
        var root :- Excluding(h, path, next + 1, proof[1..]);
        ForkRoot(h, path, cursor, next, root, neighbor)
      case LeafStep(skip, key, value) =>
        var next :- Advance(cursor, skip);
        var root :- Excluding(h, path, next + 1, proof[1..]);
        var neighbor :- LeafNeighbor(key, value, next);
        ForkRoot(h, path, cursor, next, root, neighbor)
  }

  // ----- checks and transitions on a root -----

  predicate Has(h: HashFn, root: Hash32, key: Bytes, value: Bytes, proof: Proof) {
    Including(h, h(key), h(value), 0, proof) == Success(root)
  }

  predicate Miss(h: HashFn, root: Hash32, key: Bytes, proof: Proof) {
    Excluding(h, h(key), 0, proof) == Success(root)
  }

  function Insert(h: HashFn, root: Hash32, key: Bytes, value: Bytes, proof: Proof): MpfResult<Hash32> {
    var excluded :- Excluding(h, h(key), 0, proof);
    if excluded != root then Failure(InvalidProof)
    else Including(h, h(key), h(value), 0, proof)
  }

  function Update(
    h: HashFn, root: Hash32, key: Bytes, proof: Proof, oldValue: Bytes, newValue: Bytes): MpfResult<Hash32> {
    var included :- Including(h, h(key), h(oldValue), 0, proof);
    if included != root then Failure(InvalidProof)
    else Including(h, h(key), h(newValue), 0, proof)
  }

  function Delete(h: HashFn, root: Hash32, key: Bytes, value: Bytes, proof: Proof): MpfResult<Hash32> {
    var included :- Including(h, h(key), h(value), 0, proof);
    if included != root then Failure(InvalidProof)
    else Excluding(h, h(key), 0, proof)
  }

  // ----- leaves -----

  predicate Agree(p: Hash32, q: Hash32, lo: nat, hi: nat)
    requires hi <= 64
  {
    forall i :: lo <= i < hi ==> NibbleAt(p, i) == NibbleAt(q, i)
  }

  predicate Distinct(leaves: seq<Leaf>) {
    forall i, j :: 0 <= i < j < |leaves| ==> leaves[i].path != leaves[j].path
  }

  // Leaves that can stand under one node at `cursor`: distinct paths, equal up to the cursor.
  predicate WellFormed(leaves: seq<Leaf>, cursor: nat) {
    && cursor <= 64
    && Distinct(leaves)
    && forall i, j :: 0 <= i < |leaves| && 0 <= j < |leaves| ==> Agree(leaves[i].path, leaves[j].path, 0, cursor)
  }

  // The leaves whose nibble at `split` is `nib`, in order.
  function Group(leaves: seq<Leaf>, split: nat, nib: nat): (r: seq<Leaf>)
    requires split < 64
    ensures forall l :: l in r <==> l in leaves && NibbleAt(l.path, split) == nib
    ensures |r| <= |leaves|
    ensures Distinct(leaves) ==> Distinct(r)
  {
    if leaves == [] then []
    else
      var last := leaves[|leaves| - 1];
      Group(leaves[..|leaves| - 1], split, nib) + (if NibbleAt(last.path, split) == nib then [last] else [])
  }

  predicate AgreeAt(leaves: seq<Leaf>, ix: nat)
    requires ix < 64
  {
    forall i :: 0 <= i < |leaves| ==> NibbleAt(leaves[i].path, ix) == NibbleAt(leaves[0].path, ix)
  }

  // The first position from `ix` on at which the leaves do not all agree.
  function SplitFrom(leaves: seq<Leaf>, ix: nat): (r: MpfResult<nat>)
    ensures r.Success? ==> ix <= r.value < 64 && !AgreeAt(leaves, r.value)
    ensures forall j :: ix <= j < (if r.Success? then r.value else 64) ==> AgreeAt(leaves, j)
    decreases 64 - ix
  {
    if ix >= 64 then Failure(PathExhausted)
    else if !AgreeAt(leaves, ix) then Success(ix)
    else SplitFrom(leaves, ix + 1)
  }

  function SplitOf(leaves: seq<Leaf>, cursor: nat): MpfResult<nat> {
    if leaves == [] then Failure(InvalidProof) else SplitFrom(leaves, cursor)
  }

  method CommonSplit(leaves: seq<Leaf>, cursor: nat) returns (r: MpfResult<nat>)
    ensures r == SplitOf(leaves, cursor)
  {
    if leaves == [] {
      return Failure(InvalidProof);
    }
    var ix := cursor;
    while ix < 64
      invariant SplitFrom(leaves, ix) == SplitFrom(leaves, cursor)
    {
      var nib := NibbleAt(leaves[0].path, ix);
      var i := 0;
      while i < |leaves|
        invariant 0 <= i <= |leaves|
        invariant forall j :: 0 <= j < i ==> NibbleAt(leaves[j].path, ix) == nib
      {
        if NibbleAt(leaves[i].path, ix) != nib {
          return Success(ix);
        }
        i := i + 1;
      }
      ix := ix + 1;
    }
    r := Failure(PathExhausted);
  }

  function Children(leaves: seq<Leaf>, split: nat): (r: seq<seq<Leaf>>)
    requires split < 64
    ensures |r| == 16
    ensures forall i :: 0 <= i < 16 ==> r[i] == Group(leaves, split, i)
  {
    seq(16, i requires 0 <= i < 16 => Group(leaves, split, i))
  }

  method ChildGroups(leaves: seq<Leaf>, split: nat) returns (r: MpfResult<seq<seq<Leaf>>>)
    ensures r.Failure? <==> split >= 64 && leaves != []
    ensures r.Failure? ==> r.error == PathExhausted
    ensures r.Success? ==> r.value == if split < 64 then Children(leaves, split) else seq(16, _ => [])
  {
    if split < 64 {
      var children := FillGroups(leaves, split);
      r := Success(children);
    } else if leaves != [] {
      r := Failure(PathExhausted);
    } else {
      r := Success(seq(16, _ => []));
    }
  }

  method FillGroups(leaves: seq<Leaf>, split: nat) returns (r: seq<seq<Leaf>>)
    requires split < 64
    ensures r == Children(leaves, split)
  {
    hide Group, NibbleAt;
    var children := new seq<Leaf>[16](_ => []);
    GroupNothing(split);
    var n := 0;
    while n < |leaves|
      invariant 0 <= n <= |leaves|
      invariant forall i :: 0 <= i < 16 ==> children[i] == Group(leaves[..n], split, i)
    {
      GroupStep(leaves, split, n);
      var nib := NibbleAt(leaves[n].path, split);
      children[nib] := children[nib] + [leaves[n]];
      n := n + 1;
    }
    assert leaves[..|leaves|] == leaves;
    r := children[..];
  }

  lemma GroupNothing(split: nat)
    requires split < 64
    ensures forall i :: Group([], split, i) == []
  {
  }

  lemma GroupStep(leaves: seq<Leaf>, split: nat, n: nat)
    requires n < |leaves| && split < 64
    ensures forall i ::
      Group(leaves[..n + 1], split, i) ==
        Group(leaves[..n], split, i) + (if NibbleAt(leaves[n].path, split) == i then [leaves[n]] else [])
  {
    assert leaves[..n + 1][..n] == leaves[..n];
  }

  function FirstDivergence(lhs: Hash32, rhs: Hash32, cursor: nat): (r: MpfResult<nat>)
    ensures r.Success? ==> cursor <= r.value < 64 && NibbleAt(lhs, r.value) != NibbleAt(rhs, r.value)
    ensures Agree(lhs, rhs, cursor, if r.Success? then r.value else 64)
    decreases 64 - cursor
  {
    if cursor >= 64 then Failure(PathExhausted)
    else if NibbleAt(lhs, cursor) != NibbleAt(rhs, cursor) then Success(cursor)
    else FirstDivergence(lhs, rhs, cursor + 1)
  }

  // ----- paths, splits and groups -----

  lemma PathsEqual(p: Hash32, q: Hash32)
    requires Agree(p, q, 0, 64)
    ensures p == q
  {
    forall k | 0 <= k < 32
      ensures p[k] == q[k]
    {
      assert NibbleAt(p, 2 * k) == NibbleAt(q, 2 * k);
      assert NibbleAt(p, 2 * k + 1) == NibbleAt(q, 2 * k + 1);
    }
  }

  // Two or more well-formed leaves always diverge before the path ends, and each child group is
  // well formed one nibble further: the `expect`s of root computation cannot fire.
  lemma SplitExists(leaves: seq<Leaf>, cursor: nat)
    requires WellFormed(leaves, cursor) && |leaves| >= 2
    ensures SplitOf(leaves, cursor).Success?
    ensures cursor <= SplitOf(leaves, cursor).value < 64
    ensures WellFormed(leaves, SplitOf(leaves, cursor).value)
    ensures forall nib ::
      WellFormed(Group(leaves, SplitOf(leaves, cursor).value, nib), SplitOf(leaves, cursor).value + 1)
  {
    var r := SplitFrom(leaves, cursor);
    var k := if r.Success? then r.value else 64;
    forall i, j | 0 <= i < |leaves| && 0 <= j < |leaves|
      ensures Agree(leaves[i].path, leaves[j].path, 0, k)
    {
      forall x | 0 <= x < k
        ensures NibbleAt(leaves[i].path, x) == NibbleAt(leaves[j].path, x)
      {
        if x >= cursor { assert AgreeAt(leaves, x); }
      }
    }
    if r.Failure? {
      PathsEqual(leaves[0].path, leaves[1].path);
    }
    forall nib
      ensures WellFormed(Group(leaves, k, nib), k + 1)
    {
      GroupWellFormed(leaves, k, nib);
    }
  }

  lemma MembersAgree(leaves: seq<Leaf>, cursor: nat, a: Leaf, b: Leaf)
    requires WellFormed(leaves, cursor) && a in leaves && b in leaves
    ensures Agree(a.path, b.path, 0, cursor)
  {
  }

  lemma GroupWellFormed(leaves: seq<Leaf>, split: nat, nib: nat)
    requires split < 64 && WellFormed(leaves, split)
    ensures WellFormed(Group(leaves, split, nib), split + 1)
  {
    var g := Group(leaves, split, nib);
    assert Distinct(leaves);
    hide Group, Distinct, NibbleAt;
    forall i, j | 0 <= i < |g| && 0 <= j < |g|
      ensures Agree(g[i].path, g[j].path, 0, split + 1)
    {
      assert g[i] in g && g[j] in g;
      MembersAgree(leaves, split, g[i], g[j]);
    }
  }

  // ----- root and proof from leaves -----

  function RootFor(h: HashFn, leaves: seq<Leaf>, cursor: nat): Hash32
    requires WellFormed(leaves, cursor)
    decreases 64 - cursor, 0
  {
    if leaves == [] then EMPTY_ROOT
    else if |leaves| == 1 then Combine(h, SuffixAt(leaves[0].path, cursor), leaves[0].valueHash)
    else
      SplitExists(leaves, cursor);
      var split := SplitOf(leaves, cursor).value;
      var subtree := Merkle16Roots(h, ChildRoots(h, Children(leaves, split), split + 1));
      Combine(h, NibbleRange(leaves[0].path, cursor, split), subtree)
  }

  function ChildRoots(h: HashFn, children: seq<seq<Leaf>>, cursor: nat): (r: seq<Hash32>)
    requires |children| == 16 && cursor <= 64
    requires forall i :: 0 <= i < 16 ==> WellFormed(children[i], cursor)
    ensures |r| == 16
    ensures forall i :: 0 <= i < 16 ==> r[i] == RootFor(h, children[i], cursor)
    decreases 64 - cursor, 1
  {
    seq<Hash32>(16, i requires 0 <= i < 16 => RootFor(h, children[i], cursor))
  }

  // Indices below `n`, other than `branch`, that hold leaves.
  function OccupiedNeighbors(children: seq<seq<Leaf>>, branch: nat, n: nat): (r: seq<nat>)
    requires n <= |children|
    ensures forall i :: i in r <==> 0 <= i < n && i != branch && children[i] != []
    ensures forall i, j :: 0 <= i < j < |r| ==> r[i] != r[j]
  {
    if n == 0 then []
    else OccupiedNeighbors(children, branch, n - 1) + (if n - 1 != branch && children[n - 1] != [] then [n - 1] else [])
  }

  function SparseNeighborStep(h: HashFn, skip: nat, cursor: nat, nibble: byte, leaves: seq<Leaf>): MpfResult<ProofStep>
    requires leaves != [] && WellFormed(leaves, cursor)
  {
    if |leaves| == 1 then Success(LeafStep(skip, leaves[0].path, leaves[0].valueHash))
    else
      SplitExists(leaves, cursor);
      var split :- SplitOf(leaves, cursor);
      var roots := ChildRoots(h, Children(leaves, split), split + 1);
      var prefix :- Nibbles(leaves[0].path, cursor, split);
      Success(Fork(skip, Neighbor(nibble, prefix, Merkle16Roots(h, roots))))
  }

  function ProofStepForBranch(
    h: HashFn, path: Hash32, cursor: nat, split: nat, branch: nat, children: seq<seq<Leaf>>): MpfResult<ProofStep>
    requires cursor <= split < 64 && |children| == 16
    requires forall i :: 0 <= i < 16 ==> WellFormed(children[i], split + 1)
  {
    var neighbors := OccupiedNeighbors(children, branch, |children|);
    if |neighbors| == 1 then
      assert neighbors[0] in neighbors;
      SparseNeighborStep(h, split - cursor, split + 1, neighbors[0], children[neighbors[0]])
    else
      var nib :- Nibble(path, split);
      Success(Branch(split - cursor, BranchNeighbors(h, nib, ChildRoots(h, children, split + 1))))
  }

  function ProofForPath(h: HashFn, leaves: seq<Leaf>, path: Hash32, cursor: nat): MpfResult<Proof>
    requires WellFormed(leaves, cursor)
    decreases 64 - cursor
  {
    if leaves == [] then Success([])
    else if |leaves| == 1 then
      if leaves[0].path == path then Success([])
      else
        var split :- FirstDivergence(path, leaves[0].path, cursor);
        Success([LeafStep(split - cursor, leaves[0].path, leaves[0].valueHash)])
    else
      SplitExists(leaves, cursor);
      var split :- SplitOf(leaves, cursor);
      var branch :- Nibble(path, split);
      var children := Children(leaves, split);
      var step :- ProofStepForBranch(h, path, cursor, split, branch, children);
      if children[branch] == [] then Success([step])
      else
        var rest :- ProofForPath(h, children[branch], path, split + 1);
        Success([step] + rest)
  }
}
