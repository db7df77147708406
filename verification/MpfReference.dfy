/**
 The reference root: a fold of the trie over a plain map from path to value hash, with no leaf
 order, no slices and no proof.  The list-based code computes exactly this root.
 */
module MpfReference {
  import opened Bytes
  import opened Mpf

  type LeafMap = map<Hash32, Hash32>

  // All paths of the map agree on their first `c` nibbles.
  ghost predicate Shares(m: LeafMap, c: nat) {
    c <= 64 && forall p, q :: p in m && q in m ==> Agree(p, q, 0, c)
  }

  // `k` is the first position at which the paths of `m` diverge.
  ghost predicate IsSplit(m: LeafMap, k: nat) {
    && k < 64
    && Shares(m, k)
    && exists p, q :: p in m && q in m && NibbleAt(p, k) != NibbleAt(q, k)
  }

  ghost function Child(m: LeafMap, k: nat, nib: nat): LeafMap
    requires k < 64
  {
    map p | p in m && NibbleAt(p, k) == nib :: m[p]
  }

  lemma {:induction false} SplitOfMap(m: LeafMap, c: nat, p: Hash32, q: Hash32) returns (k: nat)
    requires Shares(m, c) && p in m && q in m && p != q
    ensures c <= k && IsSplit(m, k)
    decreases 64 - c
  {
    if c == 64 {
      PathsEqual(p, q);
    } else if x, y :| x in m && y in m && NibbleAt(x, c) != NibbleAt(y, c) {
      k := c;
    } else {
      k := SplitOfMap(m, c + 1, p, q);
    }
  }

  lemma SplitUnique(m: LeafMap, k: nat, k': nat)
    requires IsSplit(m, k) && IsSplit(m, k')
    ensures k == k'
  {
    var p, q :| p in m && q in m && NibbleAt(p, k) != NibbleAt(q, k);
    var p', q' :| p' in m && q' in m && NibbleAt(p', k') != NibbleAt(q', k');
    assert Agree(p, q, 0, k') && Agree(p', q', 0, k);
  }

  ghost function SplitPoint(m: LeafMap, c: nat): (k: nat)
    requires Shares(m, c) && exists p, q :: p in m && q in m && p != q
    ensures c <= k && IsSplit(m, k)
  {
    assert exists k: nat :: c <= k && IsSplit(m, k) by {
      var p, q :| p in m && q in m && p != q;
      var k := SplitOfMap(m, c, p, q);
    }
    var k: nat :| c <= k && IsSplit(m, k);
    k
  }

  ghost function AnyPath(m: LeafMap): (p: Hash32)
    requires m != map[]
    ensures p in m
  {
    assert m.Keys != {};
    var p :| p in m;
    p
  }

  ghost function RootOf(h: HashFn, m: LeafMap, c: nat): Hash32
    requires Shares(m, c)
    decreases 64 - c, 0
  {
    if m == map[] then EMPTY_ROOT
    else
      var p := AnyPath(m);
      if forall q :: q in m ==> q == p then Combine(h, SuffixAt(p, c), m[p])
      else
        var k := SplitPoint(m, c);
        Combine(h, NibbleRange(p, c, k), Merkle16Roots(h, RootsOf(h, m, k)))
  }

  ghost function RootsOf(h: HashFn, m: LeafMap, k: nat): (r: seq<Hash32>)
    requires IsSplit(m, k)
    ensures |r| == 16
    ensures forall i :: 0 <= i < 16 ==> Shares(Child(m, k, i), k + 1) && r[i] == RootOf(h, Child(m, k, i), k + 1)
    decreases 64 - k - 1, 1
  {
    assert forall i :: Shares(Child(m, k, i), k + 1);
    seq<Hash32>(16, i requires 0 <= i < 16 => RootOf(h, Child(m, k, i), k + 1))
  }

  lemma RootOfLeaf(h: HashFn, p: Hash32, v: Hash32, c: nat)
    requires c <= 64
    ensures Shares(map[p := v], c)
    ensures RootOf(h, map[p := v], c) == Combine(h, SuffixAt(p, c), v)
  {
    var m: LeafMap := map[p := v];
    assert p in m;
    assert AnyPath(m) == p;
  }

  lemma RootOfBranch(h: HashFn, m: LeafMap, c: nat, k: nat, p: Hash32)
    requires IsSplit(m, k) && c <= k && p in m
    ensures Shares(m, c)
    ensures RootOf(h, m, c) == Combine(h, NibbleRange(p, c, k), Merkle16Roots(h, RootsOf(h, m, k)))
  {
    var q := AnyPath(m);
    var x, y :| x in m && y in m && NibbleAt(x, k) != NibbleAt(y, k);
    SplitUnique(m, k, SplitPoint(m, c));
    assert Agree(p, q, 0, k);
    assert NibbleRange(p, c, k) == NibbleRange(q, c, k);
  }

  // ----- lists of leaves and their contents -----

  ghost function Contents(leaves: seq<Leaf>): (m: LeafMap)
    requires Distinct(leaves)
    ensures forall l :: l in leaves ==> l.path in m && m[l.path] == l.valueHash
    ensures forall p :: p in m ==> exists l :: l in leaves && l.path == p
    ensures |m| == |leaves|
  {
    if leaves == [] then map[]
    else
      var last := leaves[|leaves| - 1];
      var rest := leaves[..|leaves| - 1];
      assert leaves == rest + [last];
      Contents(rest)[last.path := last.valueHash]
  }

  lemma ContentsGroup(leaves: seq<Leaf>, k: nat, nib: nat)
    requires Distinct(leaves) && k < 64
    ensures Contents(Group(leaves, k, nib)) == Child(Contents(leaves), k, nib)
  {
    var g := Group(leaves, k, nib);
    forall p | p in Child(Contents(leaves), k, nib)
      ensures p in Contents(g) && Contents(g)[p] == Contents(leaves)[p]
    {
      var l :| l in leaves && l.path == p;
      assert l in g;
    }
  }

  lemma ContentsShares(leaves: seq<Leaf>, c: nat)
    requires WellFormed(leaves, c)
    ensures Shares(Contents(leaves), c)
  {
    forall p, q | p in Contents(leaves) && q in Contents(leaves)
      ensures Agree(p, q, 0, c)
    {
      var a :| a in leaves && a.path == p;
      var b :| b in leaves && b.path == q;
    }
  }

  // The split found in the list is the split of its contents.
  lemma ContentsSplit(leaves: seq<Leaf>, c: nat)
    requires WellFormed(leaves, c) && |leaves| >= 2
    ensures SplitOf(leaves, c).Success? && IsSplit(Contents(leaves), SplitOf(leaves, c).value)
  {
    SplitExists(leaves, c);
    var k := SplitOf(leaves, c).value;
    ContentsShares(leaves, k);
    var i :| 0 <= i < |leaves| && NibbleAt(leaves[i].path, k) != NibbleAt(leaves[0].path, k);
    assert leaves[i] in leaves && leaves[0] in leaves;
  }

  lemma RootForUnfolds(h: HashFn, leaves: seq<Leaf>, c: nat, k: nat)
    requires WellFormed(leaves, c) && |leaves| >= 2 && SplitOf(leaves, c) == Success(k)
    ensures c <= k < 64
    ensures forall i :: 0 <= i < 16 ==> WellFormed(Children(leaves, k)[i], k + 1)
    ensures RootFor(h, leaves, c) ==
      Combine(h, NibbleRange(leaves[0].path, c, k), Merkle16Roots(h, ChildRoots(h, Children(leaves, k), k + 1)))
  {
    hide Merkle16Roots, WellFormed, Distinct, SplitOf, Group, NibbleRange, NibbleAt, Agree;
    SplitExists(leaves, c);
  }

  // The list-based root is the reference root of the contents: leaf order does not matter.
  lemma {:induction false} RootForIsReference(h: HashFn, leaves: seq<Leaf>, c: nat)
    requires WellFormed(leaves, c)
    ensures Shares(Contents(leaves), c)
    ensures RootFor(h, leaves, c) == RootOf(h, Contents(leaves), c)
    decreases 64 - c, 0
  {
    ContentsShares(leaves, c);
    var m := Contents(leaves);
    if |leaves| == 0 {
    } else if |leaves| == 1 {
      RootOfLeaf(h, leaves[0].path, leaves[0].valueHash, c);
      assert leaves[0] in leaves;
      assert m == map[leaves[0].path := leaves[0].valueHash];
    } else {
      ContentsSplit(leaves, c);
      var k := SplitOf(leaves, c).value;
      RootForUnfolds(h, leaves, c, k);
      assert leaves[0] in leaves;
      RootOfBranch(h, m, c, k, leaves[0].path);
      ChildRootsAreReference(h, leaves, k);
    }
  }

  lemma {:induction false} ChildRootsAreReference(h: HashFn, leaves: seq<Leaf>, k: nat)
    requires Distinct(leaves) && IsSplit(Contents(leaves), k)
    requires forall i :: 0 <= i < 16 ==> WellFormed(Children(leaves, k)[i], k + 1)
    ensures ChildRoots(h, Children(leaves, k), k + 1) == RootsOf(h, Contents(leaves), k)
    decreases 64 - k - 1, 1
  {
    var roots, roots' := ChildRoots(h, Children(leaves, k), k + 1), RootsOf(h, Contents(leaves), k);
    forall i | 0 <= i < 16
      ensures roots[i] == roots'[i]
    {
      RootForIsReference(h, Children(leaves, k)[i], k + 1);
      ContentsGroup(leaves, k, i);
    }
  }
}
