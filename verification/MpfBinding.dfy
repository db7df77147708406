/**
 Roots bind.  For a hash that is injective on the strings the compared evaluations hash, and that
 never yields the empty root on them, a root commits to the contents it was computed from: two
 contents with one root are equal, and any proof at all, generated or not, that recomputes the root
 of some contents for a key and a value shows that those contents hold that value under that key.
 */
module MpfBinding {
  import opened Bytes
  import opened Mpf
  import opened MpfReference
  import opened MpfCompleteness

  // ----- the strings a 16-way node hashes -----

  ghost function Joined(a: Bytes, b: Bytes): Bytes {
    a + b
  }

  ghost function Strings2(h: HashFn, roots: seq<Hash32>): set<Bytes>
    requires |roots| == 2
  {
    {Joined(roots[0], roots[1])}
  }

  ghost function Strings4(h: HashFn, roots: seq<Hash32>): set<Bytes>
    requires |roots| == 4
  {
    {Joined(Merkle2Roots(h, roots[0..2]), Merkle2Roots(h, roots[2..4]))} +
    Strings2(h, roots[0..2]) + Strings2(h, roots[2..4])
  }

  ghost function Strings8(h: HashFn, roots: seq<Hash32>): set<Bytes>
    requires |roots| == 8
  {
    {Joined(Merkle4Roots(h, roots[0..4]), Merkle4Roots(h, roots[4..8]))} +
    Strings4(h, roots[0..4]) + Strings4(h, roots[4..8])
  }

  ghost function Strings16(h: HashFn, roots: seq<Hash32>): set<Bytes>
    requires |roots| == 16
  {
    {Joined(Merkle8Roots(h, roots[0..8]), Merkle8Roots(h, roots[8..16]))} +
    Strings8(h, roots[0..8]) + Strings8(h, roots[8..16])
  }

  lemma PairsEqual(a: Hash32, b: Hash32, c: Hash32, d: Hash32)
    requires Joined(a, b) == Joined(c, d)
    ensures a == c && b == d
  {
    assert Joined(a, b)[..32] == a && Joined(c, d)[..32] == c;
    assert Joined(a, b)[32..] == b && Joined(c, d)[32..] == d;
  }

  lemma Merkle2Binds(h: HashFn, s: set<Bytes>, a: seq<Hash32>, b: seq<Hash32>)
    requires |a| == 2 && |b| == 2 && Strings2(h, a) + Strings2(h, b) <= s && InjectiveOn(h, s)
    requires Merkle2Roots(h, a) == Merkle2Roots(h, b)
    ensures a == b
  {
    assert Joined(a[0], a[1]) in s && Joined(b[0], b[1]) in s;
    PairsEqual(a[0], a[1], b[0], b[1]);
  }

  lemma Merkle4Binds(h: HashFn, s: set<Bytes>, a: seq<Hash32>, b: seq<Hash32>)
    requires |a| == 4 && |b| == 4 && Strings4(h, a) + Strings4(h, b) <= s && InjectiveOn(h, s)
    requires Merkle4Roots(h, a) == Merkle4Roots(h, b)
    ensures a == b
  {
    var (x, y, z, w) :=
      (Merkle2Roots(h, a[0..2]), Merkle2Roots(h, a[2..4]), Merkle2Roots(h, b[0..2]), Merkle2Roots(h, b[2..4]));
    assert Joined(x, y) in s && Joined(z, w) in s;
    PairsEqual(x, y, z, w);
    Merkle2Binds(h, s, a[0..2], b[0..2]);
    Merkle2Binds(h, s, a[2..4], b[2..4]);
    assert a == a[0..2] + a[2..4] && b == b[0..2] + b[2..4];
  }

  lemma Merkle8Binds(h: HashFn, s: set<Bytes>, a: seq<Hash32>, b: seq<Hash32>)
    requires |a| == 8 && |b| == 8 && Strings8(h, a) + Strings8(h, b) <= s && InjectiveOn(h, s)
    requires Merkle8Roots(h, a) == Merkle8Roots(h, b)
    ensures a == b
  {
    hide Merkle4Roots, Strings4;
    var (x, y, z, w) :=
      (Merkle4Roots(h, a[0..4]), Merkle4Roots(h, a[4..8]), Merkle4Roots(h, b[0..4]), Merkle4Roots(h, b[4..8]));
    assert Joined(x, y) in s && Joined(z, w) in s;
    PairsEqual(x, y, z, w);
    Merkle4Binds(h, s, a[0..4], b[0..4]);
    Merkle4Binds(h, s, a[4..8], b[4..8]);
    assert a == a[0..4] + a[4..8] && b == b[0..4] + b[4..8];
  }

  // The digest of a 16-way node binds its 16 children.
  lemma Merkle16Binds(h: HashFn, s: set<Bytes>, a: seq<Hash32>, b: seq<Hash32>)
    requires |a| == 16 && |b| == 16 && Strings16(h, a) + Strings16(h, b) <= s && InjectiveOn(h, s)
    requires Merkle16Roots(h, a) == Merkle16Roots(h, b)
    ensures a == b
  {
    hide Merkle8Roots, Strings8;
    var (x, y, z, w) :=
      (Merkle8Roots(h, a[0..8]), Merkle8Roots(h, a[8..16]), Merkle8Roots(h, b[0..8]), Merkle8Roots(h, b[8..16]));
    assert Joined(x, y) in s && Joined(z, w) in s;
    PairsEqual(x, y, z, w);
    Merkle8Binds(h, s, a[0..8], b[0..8]);
    Merkle8Binds(h, s, a[8..16], b[8..16]);
    assert a == a[0..8] + a[8..16] && b == b[0..8] + b[8..16];
  }

  // ----- the strings one branch of a 16-way node hashes -----

  // A child digest and its sibling, in the order their positions demand.
  ghost function Ordered(first: bool, x: Hash32, sibling: Hash32): Bytes {
    if first then Joined(x, sibling) else Joined(sibling, x)
  }

  lemma OrderedBinds(h: HashFn, s: set<Bytes>, first: bool, x: Hash32, m: Hash32, y: Hash32, n: Hash32)
    requires Ordered(first, x, m) in s && Ordered(first, y, n) in s && InjectiveOn(h, s)
    requires h(Ordered(first, x, m)) == h(Ordered(first, y, n))
    ensures x == y && m == n
  {
    if first { PairsEqual(x, m, y, n); } else { PairsEqual(m, x, n, y); }
  }

  ghost function PathPair(b: byte, r: Hash32, ns: Bytes): Bytes
    requires |ns| == 128
  {
    Ordered(b % 2 == 0, r, ns[96..128])
  }

  ghost function PathQuad(h: HashFn, b: byte, r: Hash32, ns: Bytes): Bytes
    requires |ns| == 128
  {
    Ordered(b % 4 < 2, h(PathPair(b, r, ns)), ns[64..96])
  }

  ghost function PathOctet(h: HashFn, b: byte, r: Hash32, ns: Bytes): Bytes
    requires |ns| == 128
  {
    Ordered(b % 8 < 4, h(PathQuad(h, b, r, ns)), ns[32..64])
  }

  ghost function PathTop(h: HashFn, b: byte, r: Hash32, ns: Bytes): Bytes
    requires |ns| == 128
  {
    Ordered(b < 8, h(PathOctet(h, b, r, ns)), ns[0..32])
  }

  ghost function PathStrings(h: HashFn, b: byte, r: Hash32, ns: Bytes): set<Bytes>
    requires |ns| == 128
  {
    {PathPair(b, r, ns), PathQuad(h, b, r, ns), PathOctet(h, b, r, ns), PathTop(h, b, r, ns)}
  }

  lemma Merkle16IsTop(h: HashFn, b: byte, r: Hash32, ns: Bytes)
    requires |ns| == 128 && b < 16
    ensures Merkle16(h, b, r, ns) == Success(h(PathTop(h, b, r, ns)))
  {
  }

  // The ordered strings of the node along branch `b`, and that the node hashes them.
  lemma NodeTop(h: HashFn, roots: seq<Hash32>, b: byte, b2: nat, b4: nat, b8: nat)
    requires |roots| == 16 && b < 16 && Bases(b, b2, b4, b8)
    ensures
      var beside := if b8 == 0 then roots[8..16] else roots[0..8];
      var top := Ordered(b8 == 0, Merkle8Roots(h, roots[b8..b8 + 8]), Merkle8Roots(h, beside));
      top in Strings16(h, roots) && Merkle16Roots(h, roots) == h(top)
    ensures Strings8(h, roots[b8..b8 + 8]) <= Strings16(h, roots)
  {
    hide Merkle8Roots, Strings8;
  }

  lemma SubSlice(roots: seq<Hash32>, lo: nat, hi: nat, a: nat, b: nat)
    requires a <= b && lo + b <= hi <= |roots|
    ensures roots[lo..hi][a..b] == roots[lo + a..lo + b]
  {
    var left, right := roots[lo..hi][a..b], roots[lo + a..lo + b];
    assert |left| == |right|;
    assert forall i :: 0 <= i < |left| ==> left[i] == right[i];
  }

  lemma EightSplits(h: HashFn, half: seq<Hash32>, x: Hash32, y: Hash32)
    requires |half| == 8 && x == Merkle4Roots(h, half[0..4]) && y == Merkle4Roots(h, half[4..8])
    ensures Joined(x, y) in Strings8(h, half) && Merkle8Roots(h, half) == h(Joined(x, y))
    ensures Strings4(h, half[0..4]) <= Strings8(h, half) && Strings4(h, half[4..8]) <= Strings8(h, half)
  {
    hide Merkle4Roots, Strings4;
  }

  lemma FourSplits(h: HashFn, half: seq<Hash32>, x: Hash32, y: Hash32)
    requires |half| == 4 && x == Merkle2Roots(h, half[0..2]) && y == Merkle2Roots(h, half[2..4])
    ensures Joined(x, y) in Strings4(h, half) && Merkle4Roots(h, half) == h(Joined(x, y))
    ensures Strings2(h, half[0..2]) <= Strings4(h, half) && Strings2(h, half[2..4]) <= Strings4(h, half)
  {
    hide Merkle2Roots, Strings2;
  }

  lemma NodeOctet(h: HashFn, roots: seq<Hash32>, b: byte, b2: nat, b4: nat, b8: nat)
    requires |roots| == 16 && b < 16 && Bases(b, b2, b4, b8)
    ensures
      var beside := if b4 == b8 then roots[b4 + 4..b4 + 8] else roots[b4 - 4..b4];
      var octet := Ordered(b4 == b8, Merkle4Roots(h, roots[b4..b4 + 4]), Merkle4Roots(h, beside));
      octet in Strings8(h, roots[b8..b8 + 8]) && Merkle8Roots(h, roots[b8..b8 + 8]) == h(octet)
    ensures Strings4(h, roots[b4..b4 + 4]) <= Strings8(h, roots[b8..b8 + 8])
  {
    hide Merkle8Roots, Strings8, Merkle4Roots, Strings4;
    SubSlice(roots, b8, b8 + 8, 0, 4);
    SubSlice(roots, b8, b8 + 8, 4, 8);
    EightSplits(h, roots[b8..b8 + 8], Merkle4Roots(h, roots[b8..b8 + 4]), Merkle4Roots(h, roots[b8 + 4..b8 + 8]));
  }

  lemma NodeQuad(h: HashFn, roots: seq<Hash32>, b: byte, b2: nat, b4: nat, b8: nat)
    requires |roots| == 16 && b < 16 && Bases(b, b2, b4, b8)
    ensures
      var beside := if b2 == b4 then roots[b2 + 2..b2 + 4] else roots[b2 - 2..b2];
      var quad := Ordered(b2 == b4, Merkle2Roots(h, roots[b2..b2 + 2]), Merkle2Roots(h, beside));
      quad in Strings4(h, roots[b4..b4 + 4]) && Merkle4Roots(h, roots[b4..b4 + 4]) == h(quad)
    ensures Strings2(h, roots[b2..b2 + 2]) <= Strings4(h, roots[b4..b4 + 4])
  {
    hide Merkle4Roots, Strings4, Merkle2Roots, Strings2;
    SubSlice(roots, b4, b4 + 4, 0, 2);
    SubSlice(roots, b4, b4 + 4, 2, 4);
    FourSplits(h, roots[b4..b4 + 4], Merkle2Roots(h, roots[b4..b4 + 2]), Merkle2Roots(h, roots[b4 + 2..b4 + 4]));
  }

  lemma NodePair(h: HashFn, roots: seq<Hash32>, b: byte, b2: nat, b4: nat, b8: nat)
    requires |roots| == 16 && b < 16 && Bases(b, b2, b4, b8)
    ensures
      var pair := Ordered(b == b2, roots[b], roots[if b == b2 then b + 1 else b - 1]);
      pair in Strings2(h, roots[b2..b2 + 2]) && Merkle2Roots(h, roots[b2..b2 + 2]) == h(pair)
  {
  }

  // A branch step that recomputes a node's digest carries exactly that node's child and neighbours.
  lemma PathBinds(h: HashFn, s: set<Bytes>, b: byte, r: Hash32, ns: Bytes, roots: seq<Hash32>)
    requires |ns| == 128 && b < 16 && |roots| == 16
    requires PathStrings(h, b, r, ns) <= s && Strings16(h, roots) <= s && InjectiveOn(h, s)
    requires Merkle16(h, b, r, ns) == Success(Merkle16Roots(h, roots))
    ensures r == roots[b] && ns == BranchNeighbors(h, b, roots)
  {
    hide Merkle16, Merkle16Roots, Merkle8Roots, Merkle4Roots, Merkle2Roots, Strings16, Strings8, Strings4, Strings2,
         Ordered, InjectiveOn, BranchNeighbors;
    var b2, b4, b8 := BasesOf(b);
    Merkle16IsTop(h, b, r, ns);
    NodeTop(h, roots, b, b2, b4, b8);
    NodeOctet(h, roots, b, b2, b4, b8);
    NodeQuad(h, roots, b, b2, b4, b8);
    NodePair(h, roots, b, b2, b4, b8);
    NeighborsPacked(h, roots, b, b2, b4, b8);
    var (n8, n4, n2, n1) := NeighborHashes(h, roots, b, b2, b4, b8);
    OrderedBinds(h, s, b8 == 0, h(PathOctet(h, b, r, ns)), ns[0..32], Merkle8Roots(h, roots[b8..b8 + 8]), n8);
    OrderedBinds(h, s, b4 == b8, h(PathQuad(h, b, r, ns)), ns[32..64], Merkle4Roots(h, roots[b4..b4 + 4]), n4);
    OrderedBinds(h, s, b2 == b4, h(PathPair(b, r, ns)), ns[64..96], Merkle2Roots(h, roots[b2..b2 + 2]), n2);
    OrderedBinds(h, s, b == b2, r, ns[96..128], roots[b], n1);
    assert ns == ns[0..32] + ns[32..64] + ns[64..96] + ns[96..128];
  }

  // ----- the strings a whole root hashes -----

  ghost function LeafString(p: Hash32, c: nat, v: Hash32): Bytes
    requires c <= 64
  {
    Joined(SuffixAt(p, c), v)
  }

  ghost function NodeString(p: Hash32, c: nat, k: nat, digest: Hash32): Bytes
    requires c <= k <= 64
  {
    Joined(NibbleRange(p, c, k), digest)
  }

  ghost function RootStrings(h: HashFn, m: LeafMap, c: nat): set<Bytes>
    requires Shares(m, c)
    decreases 64 - c, 0
  {
    if m == map[] then {}
    else
      var p := AnyPath(m);
      if forall q :: q in m ==> q == p then {LeafString(p, c, m[p])}
      else
        var k := SplitPoint(m, c);
        {NodeString(p, c, k, Merkle16Roots(h, RootsOf(h, m, k)))} + Strings16(h, RootsOf(h, m, k)) +
        ChildStrings(h, m, k, |RootsOf(h, m, k)|)
  }

  ghost function ChildStrings(h: HashFn, m: LeafMap, k: nat, n: nat): set<Bytes>
    requires IsSplit(m, k)
    decreases 64 - k - 1, n
  {
    if n == 0 then {}
    else ChildShares(m, k, n - 1); ChildStrings(h, m, k, n - 1) + RootStrings(h, Child(m, k, n - 1), k + 1)
  }

  lemma ChildShares(m: LeafMap, k: nat, i: nat)
    requires IsSplit(m, k)
    ensures Shares(Child(m, k, i), k + 1)
  {
  }

  lemma {:induction false} ChildStringsHold(h: HashFn, m: LeafMap, k: nat, n: nat, i: nat)
    requires IsSplit(m, k) && i < n
    ensures Shares(Child(m, k, i), k + 1)
    ensures RootStrings(h, Child(m, k, i), k + 1) <= ChildStrings(h, m, k, n)
  {
    hide RootStrings;
    ChildShares(m, k, i);
    if i < n - 1 { ChildStringsHold(h, m, k, n - 1, i); }
  }

  lemma RootStringsOfLeaf(h: HashFn, m: LeafMap, c: nat, p: Hash32)
    requires c <= 64 && m.Keys == {p}
    ensures Shares(m, c) && RootOf(h, m, c) == h(LeafString(p, c, m[p]))
    ensures LeafString(p, c, m[p]) in RootStrings(h, m, c)
  {
    assert p in m;
    assert AnyPath(m) == p;
  }

  lemma RootStringsOfNode(h: HashFn, m: LeafMap, c: nat, k: nat, p: Hash32)
    requires IsSplit(m, k) && c <= k && p in m
    ensures Shares(m, c)
    ensures RootOf(h, m, c) == h(NodeString(p, c, k, Merkle16Roots(h, RootsOf(h, m, k))))
    ensures NodeString(p, c, k, Merkle16Roots(h, RootsOf(h, m, k))) in RootStrings(h, m, c)
    ensures Strings16(h, RootsOf(h, m, k)) <= RootStrings(h, m, c)
    ensures ChildStrings(h, m, k, |RootsOf(h, m, k)|) <= RootStrings(h, m, c)
  {
    hide Merkle16Roots, Strings16, RootsOf, RootOf, ChildStrings;
    var q := AnyPath(m);
    var x, y :| x in m && y in m && NibbleAt(x, k) != NibbleAt(y, k);
    SplitUnique(m, k, SplitPoint(m, c));
    assert Agree(p, q, 0, k);
    assert NibbleRange(p, c, k) == NibbleRange(q, c, k);
    RootOfBranch(h, m, c, k, p);
  }

  // Either no path, one path, or a split at or below the cursor.
  lemma Shape(m: LeafMap, c: nat) returns (p: Hash32, k: nat)
    requires Shares(m, c) && m != map[]
    ensures p in m
    ensures m.Keys == {p} || (c <= k && IsSplit(m, k))
  {
    p := AnyPath(m);
    k := c;
    if q :| q in m && q != p {
      k := SplitOfMap(m, c, p, q);
    } else {
      assert m.Keys == {p};
    }
  }

  // ----- what the hash must not do on the strings hashed -----

  ghost predicate Binding(h: HashFn, s: set<Bytes>) {
    InjectiveOn(h, s) && forall a :: a in s ==> h(a) != EMPTY_ROOT
  }

  // No stored value hash is the digest of a 64-byte string.  Values of 32 bytes have this property.
  ghost predicate ValuesApart(h: HashFn, m: LeafMap, s: set<Bytes>) {
    forall p, a :: p in m && a in s && |a| == 64 ==> m[p] != h(a)
  }

  lemma Digest64(h: HashFn, roots: seq<Hash32>) returns (a: Bytes)
    requires |roots| == 16
    ensures a in Strings16(h, roots) && |a| == 64 && Merkle16Roots(h, roots) == h(a)
  {
    a := Joined(Merkle8Roots(h, roots[0..8]), Merkle8Roots(h, roots[8..16]));
  }

  lemma JoinedTail(a: Bytes, x: Hash32, b: Bytes, y: Hash32)
    requires Joined(a, x) == Joined(b, y)
    ensures x == y && a == b
  {
    assert |Joined(a, x)| == |a| + 32 == |b| + 32;
    assert Joined(a, x)[|a|..] == x && Joined(b, y)[|b|..] == y;
    assert Joined(a, x)[..|a|] == a && Joined(b, y)[..|b|] == b;
  }

  // A suffix determines the nibbles it was taken from.
  lemma SuffixAgrees(p: Hash32, q: Hash32, c: nat)
    requires c <= 64 && SuffixAt(p, c) == SuffixAt(q, c)
    ensures Agree(p, q, c, 64)
  {
    var k := if c % 2 == 0 then c / 2 else (c + 1) / 2;
    forall i | k <= i < 32
      ensures p[i] == q[i]
    {
      var off := if c % 2 == 0 then 1 else 2;
      assert SuffixAt(p, c)[off + i - k] == p[i] && SuffixAt(q, c)[off + i - k] == q[i];
    }
    if c % 2 == 1 { assert SuffixAt(p, c)[1] == NibbleAt(p, c) && SuffixAt(q, c)[1] == NibbleAt(q, c); }
    forall i | c <= i < 64
      ensures NibbleAt(p, i) == NibbleAt(q, i)
    {
      if i / 2 >= k { assert p[i / 2] == q[i / 2]; }
    }
  }

  // The rest of a path determines it, given its start.
  lemma SuffixBinds(p: Hash32, q: Hash32, c: nat)
    requires c <= 64 && Agree(p, q, 0, c) && SuffixAt(p, c) == SuffixAt(q, c)
    ensures p == q
  {
    hide SuffixAt, NibbleAt;
    SuffixAgrees(p, q, c);
    PathsEqual(p, q);
  }

  // ----- equal roots, equal contents -----

  ghost predicate Together(m: LeafMap, m': LeafMap, c: nat) {
    c <= 64 && forall p, q :: p in m && q in m' ==> Agree(p, q, 0, c)
  }

  lemma LeafNotNode(h: HashFn, s: set<Bytes>, m: LeafMap, c: nat, p: Hash32, m': LeafMap, k: nat)
    requires Binding(h, s) && ValuesApart(h, m, s) && m.Keys == {p} && Shares(m, c) && IsSplit(m', k) && c <= k
    requires Shares(m', c)
    requires RootStrings(h, m, c) <= s && RootStrings(h, m', c) <= s
    ensures RootOf(h, m, c) != RootOf(h, m', c)
  {
    hide RootOf, RootStrings, RootsOf, Merkle16Roots, Strings16, ChildStrings;
    NonEmptySplit(m', k);
    var q := AnyPath(m');
    RootStringsOfLeaf(h, m, c, p);
    RootStringsOfNode(h, m', c, k, q);
    var a := Digest64(h, RootsOf(h, m', k));
    if RootOf(h, m, c) == RootOf(h, m', c) {
      JoinedTail(SuffixAt(p, c), m[p], NibbleRange(q, c, k), Merkle16Roots(h, RootsOf(h, m', k)));
    }
  }

  lemma NodesBind(h: HashFn, s: set<Bytes>, m: LeafMap, m': LeafMap, c: nat, k: nat, k': nat)
    requires Binding(h, s) && IsSplit(m, k) && IsSplit(m', k') && c <= k && c <= k' && Together(m, m', c)
    requires Shares(m, c) && Shares(m', c) && RootStrings(h, m, c) <= s && RootStrings(h, m', c) <= s
    requires RootOf(h, m, c) == RootOf(h, m', c)
    ensures k == k' && Together(m, m', k) && RootsOf(h, m, k) == RootsOf(h, m', k')
  {
    hide RootOf, RootStrings, RootsOf, Merkle16Roots, Strings16, ChildStrings;
    NonEmptySplit(m, k);
    NonEmptySplit(m', k');
    var p, q := AnyPath(m), AnyPath(m');
    RootStringsOfNode(h, m, c, k, p);
    RootStringsOfNode(h, m', c, k', q);
    JoinedTail(NibbleRange(p, c, k), Merkle16Roots(h, RootsOf(h, m, k)), NibbleRange(q, c, k'),
      Merkle16Roots(h, RootsOf(h, m', k')));
    assert k == k';
    Merkle16Binds(h, s, RootsOf(h, m, k), RootsOf(h, m', k'));
    assert Agree(p, q, 0, k) by {
      forall i | 0 <= i < k
        ensures NibbleAt(p, i) == NibbleAt(q, i)
      {
        if i >= c { assert NibbleRange(p, c, k)[i - c] == NibbleRange(q, c, k)[i - c]; }
      }
    }
    TogetherFrom(m, m', k, p, q);
  }

  lemma TogetherFrom(m: LeafMap, m': LeafMap, k: nat, p: Hash32, q: Hash32)
    requires Shares(m, k) && Shares(m', k) && p in m && q in m' && Agree(p, q, 0, k)
    ensures Together(m, m', k)
  {
    forall x, y | x in m && y in m'
      ensures Agree(x, y, 0, k)
    {
      assert Agree(x, p, 0, k) && Agree(q, y, 0, k);
    }
  }

  lemma ChildrenDetermine(m: LeafMap, m': LeafMap, k: nat)
    requires k < 64 && forall i: nat :: i < 16 ==> Child(m, k, i) == Child(m', k, i)
    ensures m == m'
  {
    forall p
      ensures p in m <==> p in m'
      ensures p in m ==> m[p] == m'[p]
    {
      assert p in m <==> p in Child(m, k, NibbleAt(p, k));
      assert p in m' <==> p in Child(m', k, NibbleAt(p, k));
    }
  }

  // The root commits to the contents: two contents with the same root are the same contents.
  lemma {:induction false} RootCommits(h: HashFn, s: set<Bytes>, m: LeafMap, m': LeafMap, c: nat)
    requires Binding(h, s) && ValuesApart(h, m, s) && ValuesApart(h, m', s)
    requires Shares(m, c) && Shares(m', c) && Together(m, m', c)
    requires RootStrings(h, m, c) <= s && RootStrings(h, m', c) <= s
    requires RootOf(h, m, c) == RootOf(h, m', c)
    ensures m == m'
    decreases 64 - c, 0
  {
    if m == map[] || m' == map[] {
      EmptyRootBinds(h, s, m, c);
      EmptyRootBinds(h, s, m', c);
    } else {
      var p, k := Shape(m, c);
      var q, k' := Shape(m', c);
      if m.Keys == {p} && m'.Keys == {q} {
        LeavesBind(h, s, m, m', c, p, q);
      } else if m.Keys == {p} {
        LeafNotNode(h, s, m, c, p, m', k');
      } else if m'.Keys == {q} {
        LeafNotNode(h, s, m', c, q, m, k);
      } else {
        NodesBind(h, s, m, m', c, k, k');
        ChildrenCommit(h, s, m, m', c, k);
      }
    }
  }

  lemma EmptyRootBinds(h: HashFn, s: set<Bytes>, m: LeafMap, c: nat)
    requires Binding(h, s) && Shares(m, c) && RootStrings(h, m, c) <= s
    ensures RootOf(h, m, c) == EMPTY_ROOT <==> m == map[]
  {
    hide RootsOf, Merkle16Roots, Strings16;
    if m != map[] {
      var p, k := Shape(m, c);
      if m.Keys == {p} { RootStringsOfLeaf(h, m, c, p); } else { RootStringsOfNode(h, m, c, k, p); }
    }
  }

  lemma LeavesBind(h: HashFn, s: set<Bytes>, m: LeafMap, m': LeafMap, c: nat, p: Hash32, q: Hash32)
    requires Binding(h, s) && m.Keys == {p} && m'.Keys == {q} && Together(m, m', c) && Shares(m, c) && Shares(m', c)
    requires RootStrings(h, m, c) <= s && RootStrings(h, m', c) <= s
    requires RootOf(h, m, c) == RootOf(h, m', c)
    ensures m == m'
  {
    hide RootOf, RootStrings;
    assert p in m && q in m';
    RootStringsOfLeaf(h, m, c, p);
    RootStringsOfLeaf(h, m', c, q);
    JoinedTail(SuffixAt(p, c), m[p], SuffixAt(q, c), m'[q]);
    SuffixBinds(p, q, c);
  }

  lemma ChildTogether(m: LeafMap, m': LeafMap, k: nat, i: nat)
    requires k < 64 && Together(m, m', k)
    ensures Together(Child(m, k, i), Child(m', k, i), k + 1)
  {
  }

  lemma ChildApart(h: HashFn, s: set<Bytes>, m: LeafMap, k: nat, i: nat)
    requires k < 64 && ValuesApart(h, m, s)
    ensures ValuesApart(h, Child(m, k, i), s)
  {
  }

  lemma {:induction false} ChildrenCommit(h: HashFn, s: set<Bytes>, m: LeafMap, m': LeafMap, c: nat, k: nat)
    requires Binding(h, s) && ValuesApart(h, m, s) && ValuesApart(h, m', s)
    requires IsSplit(m, k) && IsSplit(m', k) && c <= k && Together(m, m', k) && Shares(m, c) && Shares(m', c)
    requires RootStrings(h, m, c) <= s && RootStrings(h, m', c) <= s
    requires RootsOf(h, m, k) == RootsOf(h, m', k)
    ensures m == m'
    decreases 64 - k - 1, 1
  {
    hide RootOf, RootStrings, ChildStrings, Merkle16Roots, Strings16, Binding, Child, Together, ValuesApart, Shares;
    NonEmptySplit(m, k);
    NonEmptySplit(m', k);
    RootStringsOfNode(h, m, c, k, AnyPath(m));
    RootStringsOfNode(h, m', c, k, AnyPath(m'));
    forall i: nat | i < 16
      ensures Child(m, k, i) == Child(m', k, i)
    {
      ChildStringsHold(h, m, k, |RootsOf(h, m, k)|, i);
      ChildStringsHold(h, m', k, |RootsOf(h, m', k)|, i);
      ChildTogether(m, m', k, i);
      ChildApart(h, s, m, k, i);
      ChildApart(h, s, m', k, i);
      assert RootsOf(h, m, k)[i] == RootsOf(h, m', k)[i];
      RootCommits(h, s, Child(m, k, i), Child(m', k, i), k + 1);
    }
    ChildrenDetermine(m, m', k);
  }

  // ----- the strings one proof step hashes -----

  ghost function SparseRoots(me: byte, r: Hash32, nb: byte, nr: Hash32): (roots: seq<Hash32>)
    requires me < 16 && nb < 16
    ensures |roots| == 16
  {
    seq(16, _ => EMPTY_ROOT)[me := r][nb := nr]
  }

  ghost function StepSparseRoots(h: HashFn, path: Hash32, step: ProofStep, next: nat, r: Hash32): (roots: seq<Hash32>)
    requires !step.Branch? && next < 64 && StepNeighbor(step, next).nibble < 16
    ensures |roots| == 16
  {
    var n := StepNeighbor(step, next);
    SparseRoots(NibbleAt(path, next), r, n.nibble, Combine(h, n.prefix, n.root))
  }

  ghost predicate StepOk(path: Hash32, c: nat, step: ProofStep) {
    && c + step.skip < 64
    && (step.Branch? ==> |step.neighbors| == 128)
    && (!step.Branch? ==>
          && StepNeighbor(step, c + step.skip).nibble < 16
          && StepNeighbor(step, c + step.skip).nibble != NibbleAt(path, c + step.skip))
  }

  lemma StepSucceeds(h: HashFn, path: Hash32, c: nat, step: ProofStep, r: Hash32)
    ensures StepRoot(h, path, c, step, r).Success? <==> StepOk(path, c, step)
  {
    hide Merkle16Roots;
  }

  // The digest of the 16-way node a step describes.
  ghost function StepDigest(h: HashFn, path: Hash32, c: nat, step: ProofStep, r: Hash32): Hash32
    requires StepOk(path, c, step)
  {
    var next := c + step.skip;
    if step.Branch? then h(PathTop(h, NibbleAt(path, next), r, step.neighbors))
    else Merkle16Roots(h, StepSparseRoots(h, path, step, next, r))
  }

  ghost function StepStrings(h: HashFn, path: Hash32, c: nat, step: ProofStep, r: Hash32): set<Bytes>
    requires StepOk(path, c, step)
  {
    var next := c + step.skip;
    {NodeString(path, c, next, StepDigest(h, path, c, step, r))} +
    if step.Branch? then PathStrings(h, NibbleAt(path, next), r, step.neighbors)
    else
      {Joined(StepNeighbor(step, next).prefix, StepNeighbor(step, next).root)} +
      Strings16(h, StepSparseRoots(h, path, step, next, r))
  }

  lemma StepRootIs(h: HashFn, path: Hash32, c: nat, step: ProofStep, r: Hash32)
    requires StepOk(path, c, step)
    ensures StepRoot(h, path, c, step, r) ==
      Success(h(NodeString(path, c, c + step.skip, StepDigest(h, path, c, step, r))))
  {
    hide Merkle16Roots, Merkle16, PathTop, NibbleRange;
    if step.Branch? {
      Merkle16IsTop(h, NibbleAt(path, c + step.skip), r, step.neighbors);
    } else {
      hide SuffixAt, NibbleAt;
    }
  }

  lemma BranchDigest64(h: HashFn, path: Hash32, c: nat, step: ProofStep, r: Hash32, a: Bytes)
    requires StepOk(path, c, step) && step.Branch? && a == PathTop(h, NibbleAt(path, c + step.skip), r, step.neighbors)
    ensures a in StepStrings(h, path, c, step, r) && |a| == 64 && StepDigest(h, path, c, step, r) == h(a)
  {
    hide PathOctet, PathQuad, PathPair, NibbleAt, NodeString;
  }

  lemma SparseDigest64(h: HashFn, path: Hash32, c: nat, step: ProofStep, r: Hash32) returns (a: Bytes)
    requires StepOk(path, c, step) && !step.Branch?
    ensures a in StepStrings(h, path, c, step, r) && |a| == 64 && StepDigest(h, path, c, step, r) == h(a)
  {
    hide Merkle16Roots, Strings16, StepSparseRoots, NodeString, NibbleAt;
    a := Digest64(h, StepSparseRoots(h, path, step, c + step.skip, r));
  }

  lemma StepDigest64(h: HashFn, path: Hash32, c: nat, step: ProofStep, r: Hash32) returns (a: Bytes)
    requires StepOk(path, c, step)
    ensures a in StepStrings(h, path, c, step, r) && |a| == 64 && StepDigest(h, path, c, step, r) == h(a)
  {
    hide StepStrings, StepDigest, NibbleAt, PathTop;
    if step.Branch? {
      a := PathTop(h, NibbleAt(path, c + step.skip), r, step.neighbors);
      BranchDigest64(h, path, c, step, r, a);
    } else {
      a := SparseDigest64(h, path, c, step, r);
    }
  }

  // ----- a step that recomputes a root describes that root's node -----

  // A step that, from the child root `r`, recomputes the root of `m`.
  ghost predicate Recomputes(h: HashFn, s: set<Bytes>, m: LeafMap, path: Hash32, c: nat, step: ProofStep, r: Hash32) {
    && Shares(m, c) && StepOk(path, c, step)
    && StepStrings(h, path, c, step, r) <= s && RootStrings(h, m, c) <= s
    && StepRoot(h, path, c, step, r) == Success(RootOf(h, m, c))
  }

  lemma StepNotEmptyOrLeaf(
    h: HashFn, s: set<Bytes>, m: LeafMap, path: Hash32, c: nat, step: ProofStep, r: Hash32) returns (p: Hash32, k: nat)
    requires Binding(h, s) && ValuesApart(h, m, s) && Recomputes(h, s, m, path, c, step, r)
    ensures c <= k && IsSplit(m, k) && p in m
  {
    hide StepRoot, RootOf, RootStrings, StepDigest;
    StepRootIs(h, path, c, step, r);
    EmptyRootBinds(h, s, m, c);
    p, k := Shape(m, c);
    if m.Keys == {p} {
      RootStringsOfLeaf(h, m, c, p);
      var a := StepDigest64(h, path, c, step, r);
      JoinedTail(SuffixAt(p, c), m[p], NibbleRange(path, c, c + step.skip), StepDigest(h, path, c, step, r));
      assert false;
    }
  }

  lemma AgreeFromPrefix(p: Hash32, path: Hash32, c: nat, k: nat)
    requires c <= k <= 64 && Agree(p, path, 0, c) && NibbleRange(p, c, k) == NibbleRange(path, c, k)
    ensures Agree(p, path, 0, k)
  {
    forall i | 0 <= i < k
      ensures NibbleAt(p, i) == NibbleAt(path, i)
    {
      if i >= c { assert NibbleRange(p, c, k)[i - c] == NibbleRange(path, c, k)[i - c]; }
    }
  }

  lemma BesideFrom(m: LeafMap, path: Hash32, k: nat, p: Hash32)
    requires Shares(m, k) && p in m && Agree(p, path, 0, k)
    ensures Beside(m, path, k)
  {
    forall q | q in m
      ensures Agree(q, path, 0, k)
    {
      assert Agree(q, p, 0, k);
    }
  }

  // The digest of the node at the split, and its prefix, are those of the step.
  lemma StepMeetsNode(
    h: HashFn, s: set<Bytes>, m: LeafMap, path: Hash32, c: nat, step: ProofStep, r: Hash32, p: Hash32, k: nat)
    requires Binding(h, s) && Recomputes(h, s, m, path, c, step, r) && c <= k && IsSplit(m, k) && p in m
    ensures k == c + step.skip && NibbleRange(p, c, k) == NibbleRange(path, c, k)
    ensures StepDigest(h, path, c, step, r) == Merkle16Roots(h, RootsOf(h, m, k))
    ensures Strings16(h, RootsOf(h, m, k)) <= s && ChildStrings(h, m, k, |RootsOf(h, m, k)|) <= s
  {
    hide StepRoot, RootOf, RootsOf, RootStrings, ChildStrings, StepDigest, Merkle16Roots, Strings16, Shares;
    StepRootIs(h, path, c, step, r);
    RootStringsOfNode(h, m, c, k, p);
    JoinedTail(NibbleRange(path, c, c + step.skip), StepDigest(h, path, c, step, r),
      NibbleRange(p, c, k), Merkle16Roots(h, RootsOf(h, m, k)));
  }

  lemma StepAtNode(
    h: HashFn, s: set<Bytes>, m: LeafMap, path: Hash32, c: nat, step: ProofStep, r: Hash32) returns (k: nat)
    requires Binding(h, s) && ValuesApart(h, m, s) && Beside(m, path, c) && Recomputes(h, s, m, path, c, step, r)
    ensures k == c + step.skip && IsSplit(m, k) && Beside(m, path, k) && StepOk(path, c, step)
    ensures StepDigest(h, path, c, step, r) == Merkle16Roots(h, RootsOf(h, m, k))
    ensures Strings16(h, RootsOf(h, m, k)) <= s && ChildStrings(h, m, k, |RootsOf(h, m, k)|) <= s
  {
    var p: Hash32;
    p, k := StepNotEmptyOrLeaf(h, s, m, path, c, step, r);
    assert StepOk(path, c, step);
    hide StepOk, Recomputes, RootsOf, ChildStrings, StepDigest, Merkle16Roots, Strings16, NibbleRange;
    StepMeetsNode(h, s, m, path, c, step, r, p, k);
    AgreeFromPrefix(p, path, c, k);
    BesideFrom(m, path, k, p);
  }

  lemma BranchStepSound(
    h: HashFn, s: set<Bytes>, path: Hash32, c: nat, step: ProofStep, r: Hash32, roots: seq<Hash32>, r': Hash32)
    requires InjectiveOn(h, s) && StepOk(path, c, step) && step.Branch? && |roots| == 16
    requires StepStrings(h, path, c, step, r) <= s && Strings16(h, roots) <= s
    requires StepDigest(h, path, c, step, r) == Merkle16Roots(h, roots)
    ensures r == roots[NibbleAt(path, c + step.skip)]
    ensures StepRoot(h, path, c, step, r') ==
      Success(NodeRoot(h, path, c, c + step.skip, roots[NibbleAt(path, c + step.skip) := r']))
  {
    hide StepRoot, Merkle16, Merkle16Roots, Strings16, BranchNeighbors, NodeRoot, InjectiveOn, PathTop;
    var k := c + step.skip;
    var b := NibbleAt(path, k);
    Merkle16IsTop(h, b, r, step.neighbors);
    PathBinds(h, s, b, r, step.neighbors, roots);
    BranchStepFold(h, path, c, k, roots, r');
    assert step == Branch(k - c, BranchNeighbors(h, b, roots));
  }

  lemma SparseRootsSlots(me: byte, r: Hash32, nb: byte, nr: Hash32)
    requires me < 16 && nb < 16 && me != nb
    ensures SparseRoots(me, r, nb, nr)[me] == r && SparseRoots(me, r, nb, nr)[nb] == nr
    ensures forall i :: 0 <= i < 16 && i != me && i != nb ==> SparseRoots(me, r, nb, nr)[i] == EMPTY_ROOT
  {
  }

  lemma SparseStepIsFork(h: HashFn, path: Hash32, c: nat, step: ProofStep, r: Hash32)
    requires StepOk(path, c, step) && !step.Branch?
    ensures StepRoot(h, path, c, step, r) == ForkRoot(h, path, c, c + step.skip, r, StepNeighbor(step, c + step.skip))
  {
    hide ForkRoot;
  }

  lemma SparseStepSound(
    h: HashFn, s: set<Bytes>, path: Hash32, c: nat, step: ProofStep, r: Hash32, roots: seq<Hash32>, r': Hash32)
    requires InjectiveOn(h, s) && StepOk(path, c, step) && !step.Branch? && |roots| == 16
    requires StepStrings(h, path, c, step, r) <= s && Strings16(h, roots) <= s
    requires StepDigest(h, path, c, step, r) == Merkle16Roots(h, roots)
    ensures r == roots[NibbleAt(path, c + step.skip)]
    ensures StepRoot(h, path, c, step, r') ==
      Success(NodeRoot(h, path, c, c + step.skip, roots[NibbleAt(path, c + step.skip) := r']))
  {
    hide StepRoot, Merkle16Roots, Strings16, NodeRoot, InjectiveOn, SparseRoots, ForkRoot;
    var k := c + step.skip;
    var n := StepNeighbor(step, k);
    Merkle16Binds(h, s, StepSparseRoots(h, path, step, k, r), roots);
    SparseRootsSlots(NibbleAt(path, k), r, n.nibble, Combine(h, n.prefix, n.root));
    SparseStepIsFork(h, path, c, step, r');
    ForkStepFold(h, path, c, k, roots, r', n);
  }

  // A step that recomputes the root of `m` was made at the split of `m`, from the root of the path's
  // child, and put on any other child root it gives the root of `m` with that child replaced.
  lemma StepSound(
    h: HashFn, s: set<Bytes>, m: LeafMap, path: Hash32, c: nat, step: ProofStep, r: Hash32, r': Hash32)
    returns (k: nat, mb: LeafMap)
    requires Binding(h, s) && ValuesApart(h, m, s) && Shares(m, c) && Beside(m, path, c) && StepOk(path, c, step)
    requires StepStrings(h, path, c, step, r) <= s && RootStrings(h, m, c) <= s
    requires StepRoot(h, path, c, step, r) == Success(RootOf(h, m, c))
    ensures k == c + step.skip && IsSplit(m, k) && Beside(m, path, k)
    ensures mb == Child(m, k, NibbleAt(path, k)) && Shares(mb, k + 1)
    ensures RootStrings(h, mb, k + 1) <= s && r == RootOf(h, mb, k + 1)
    ensures StepRoot(h, path, c, step, r') == Success(Replaced(h, m, path, c, k, r'))
  {
    hide StepRoot, RootOf, RootStrings, ChildStrings, StepDigest, Merkle16Roots, Strings16, Shares, NodeRoot,
         StepStrings, IsSplit, InjectiveOn, Child;
    k := StepAtNode(h, s, m, path, c, step, r);
    mb := Child(m, k, NibbleAt(path, k));
    var roots := RootsOf(h, m, k);
    if step.Branch? {
      BranchStepSound(h, s, path, c, step, r, roots, r');
    } else {
      SparseStepSound(h, s, path, c, step, r, roots, r');
    }
    ChildStringsHold(h, m, k, |roots|, NibbleAt(path, k));
  }

  // ----- any proof that recomputes a root -----

  ghost function IncludingStrings(h: HashFn, path: Hash32, v: Hash32, c: nat, proof: Proof): set<Bytes>
    decreases |proof|
  {
    if c > 64 then {}
    else if proof == [] then {LeafString(path, c, v)}
    else
      var inner := Including(h, path, v, c + proof[0].skip + 1, proof[1..]);
      IncludingStrings(h, path, v, c + proof[0].skip + 1, proof[1..]) +
      if inner.Success? && StepOk(path, c, proof[0]) then StepStrings(h, path, c, proof[0], inner.value) else {}
  }

  // A successful recomputation succeeds below its first step, and folds that step on top.
  lemma IncludingUnfolds(h: HashFn, path: Hash32, v: Hash32, c: nat, proof: Proof) returns (r: Hash32)
    requires proof != [] && Including(h, path, v, c, proof).Success?
    ensures c <= 64 && StepOk(path, c, proof[0])
    ensures Including(h, path, v, c + proof[0].skip + 1, proof[1..]) == Success(r)
    ensures Including(h, path, v, c, proof) == StepRoot(h, path, c, proof[0], r)
  {
    hide ForkRoot, BranchRoot, StepOk, LeafNeighbor;
    r := Including(h, path, v, c + proof[0].skip + 1, proof[1..]).value;
    StepSucceeds(h, path, c, proof[0], r);
  }

  ghost predicate ValueApart(h: HashFn, v: Hash32, s: set<Bytes>) {
    forall a :: a in s && |a| == 64 ==> v != h(a)
  }

  lemma IncludingSoundLeaf(h: HashFn, s: set<Bytes>, m: LeafMap, path: Hash32, v: Hash32, c: nat)
    requires Binding(h, s) && ValueApart(h, v, s) && Shares(m, c) && Beside(m, path, c)
    requires LeafString(path, c, v) in s && RootStrings(h, m, c) <= s
    requires h(LeafString(path, c, v)) == RootOf(h, m, c)
    ensures m == map[path := v]
  {
    hide RootOf, RootStrings, RootsOf, Merkle16Roots, Strings16, ChildStrings, IsSplit;
    EmptyRootBinds(h, s, m, c);
    var p, k := Shape(m, c);
    if m.Keys == {p} {
      RootStringsOfLeaf(h, m, c, p);
      JoinedTail(SuffixAt(p, c), m[p], SuffixAt(path, c), v);
      SuffixBinds(p, path, c);
    } else {
      RootStringsOfNode(h, m, c, k, p);
      var a := Digest64(h, RootsOf(h, m, k));
      SplitBounds(m, k);
      JoinedTail(SuffixAt(path, c), v, NibbleRange(p, c, k), Merkle16Roots(h, RootsOf(h, m, k)));
      assert false;
    }
  }

  lemma SplitBounds(m: LeafMap, k: nat)
    requires IsSplit(m, k)
    ensures k < 64
  {
  }

  // Any proof, generated or not, that recomputes the root of `m` for a path and a value hash: `m` holds
  // that value hash under that path, and with any other value hash the proof recomputes the root of the
  // updated contents.
  lemma {:induction false} IncludingSound(
    h: HashFn, s: set<Bytes>, m: LeafMap, path: Hash32, v: Hash32, v': Hash32, c: nat, proof: Proof)
    requires Binding(h, s) && ValuesApart(h, m, s) && ValueApart(h, v, s) && Shares(m, c) && Beside(m, path, c)
    requires IncludingStrings(h, path, v, c, proof) <= s && RootStrings(h, m, c) <= s
    requires Including(h, path, v, c, proof) == Success(RootOf(h, m, c))
    ensures path in m && m[path] == v
    ensures Shares(m[path := v'], c)
    ensures Including(h, path, v', c, proof) == Success(RootOf(h, m[path := v'], c))
    decreases |proof|
  {
    if proof == [] {
      IncludingSoundLeaf(h, s, m, path, v, c);
      assert m[path := v'] == map[path := v'];
      RootOfLeaf(h, path, v', c);
    } else {
      IncludingSoundStep(h, s, m, path, v, v', c, proof);
    }
  }

  lemma {:induction false} IncludingSoundStep(
    h: HashFn, s: set<Bytes>, m: LeafMap, path: Hash32, v: Hash32, v': Hash32, c: nat, proof: Proof)
    requires Binding(h, s) && ValuesApart(h, m, s) && ValueApart(h, v, s) && Shares(m, c) && Beside(m, path, c)
    requires IncludingStrings(h, path, v, c, proof) <= s && RootStrings(h, m, c) <= s
    requires Including(h, path, v, c, proof) == Success(RootOf(h, m, c)) && proof != []
    ensures path in m && m[path] == v
    ensures Shares(m[path := v'], c)
    ensures Including(h, path, v', c, proof) == Success(RootOf(h, m[path := v'], c))
    decreases |proof|, 0
  {
    hide Including, RootOf, RootStrings, RootsOf, StepRoot, StepStrings, StepOk, Shares, NodeRoot, IsSplit, Replaced;
    var r := IncludingUnfolds(h, path, v, c, proof);
    var step, rest := proof[0], proof[1..];
    var k, mb := StepSound(h, s, m, path, c, step, r, r);
    SplitBounds(m, k);
    ChildApart(h, s, m, k, NibbleAt(path, k));
    BesideChild(m, path, k);
    IncludingSound(h, s, mb, path, v, v', k + 1, rest);
    var r' := RootOf(h, mb[path := v'], k + 1);
    var _, _ := StepSound(h, s, m, path, c, step, r, r');
    WithPath(m, path, k, v');
    RootReplaced(h, m, m[path := v'], path, c, k);
    StepFitsOk(path, c, step);
    IncludingStep(h, path, v', c, step, rest, r');
    assert [step] + rest == proof;
  }

  lemma StepFitsOk(path: Hash32, c: nat, step: ProofStep)
    requires StepOk(path, c, step)
    ensures StepFits(c, step)
  {
  }

  lemma BesideChild(m: LeafMap, path: Hash32, k: nat)
    requires k < 64 && Beside(m, path, k)
    ensures Beside(Child(m, k, NibbleAt(path, k)), path, k + 1)
  {
  }

  // ----- a missing path that leaves the trie inside a compressed prefix -----

  ghost function ExcludingStrings(h: HashFn, path: Hash32, c: nat, proof: Proof): set<Bytes>
    decreases |proof|
  {
    if c > 64 || proof == [] then {}
    else if |proof| == 1 && proof[0].Fork? then
      var n := proof[0].neighbor;
      if c + proof[0].skip <= 64 then {NibbleRange(path, c, c + proof[0].skip) + [n.nibble] + n.prefix + n.root} else {}
    else if |proof| == 1 && proof[0].LeafStep? then {LeafString(proof[0].key, c, proof[0].value)}
    else
      var inner := Excluding(h, path, c + proof[0].skip + 1, proof[1..]);
      ExcludingStrings(h, path, c + proof[0].skip + 1, proof[1..]) +
      if inner.Success? && StepOk(path, c, proof[0]) then StepStrings(h, path, c, proof[0], inner.value) else {}
  }

  lemma ExcludingUnfolds(h: HashFn, path: Hash32, c: nat, proof: Proof) returns (r: Hash32)
    requires proof != [] && (|proof| > 1 || proof[0].Branch?) && Excluding(h, path, c, proof).Success?
    ensures c <= 64 && StepOk(path, c, proof[0])
    ensures Excluding(h, path, c + proof[0].skip + 1, proof[1..]) == Success(r)
    ensures Excluding(h, path, c, proof) == StepRoot(h, path, c, proof[0], r)
  {
    hide ForkRoot, BranchRoot, StepOk, LeafNeighbor, CollapsedFork, CollapsedLeaf;
    r := Excluding(h, path, c + proof[0].skip + 1, proof[1..]).value;
    StepSucceeds(h, path, c, proof[0], r);
  }

  lemma FollowsUp(m: LeafMap, path: Hash32, k: nat)
    requires IsSplit(m, k) && Beside(m, path, k) && Follows(Child(m, k, NibbleAt(path, k)), path)
    ensures Follows(m, path)
  {
    var mb := Child(m, k, NibbleAt(path, k));
    forall p, d: nat | p in m && d < 64 && LeavesAt(p, path, d)
      ensures BranchesAt(m, p, path, d) || AloneAt(m, p, path, d)
    {
      assert Agree(p, path, 0, k);
      if d == k {
        var x, y :| x in m && y in m && NibbleAt(x, k) != NibbleAt(y, k);
        assert Agree(x, path, 0, k) && Agree(y, path, 0, k);
        assert NibbleAt(x, k) != NibbleAt(p, k) || NibbleAt(y, k) != NibbleAt(p, k);
      } else {
        assert p in mb;
        FollowsUpAt(m, path, k, p, d);
      }
    }
  }

  lemma FollowsUpAt(m: LeafMap, path: Hash32, k: nat, p: Hash32, d: nat)
    requires k < d < 64 && LeavesAt(p, path, d) && p in m
    requires
      var child := Child(m, k, NibbleAt(path, k));
      BranchesAt(child, p, path, d) || AloneAt(child, p, path, d)
    ensures BranchesAt(m, p, path, d) || AloneAt(m, p, path, d)
  {
    var mb := Child(m, k, NibbleAt(path, k));
    if AloneAt(mb, p, path, d) {
      forall q | q in m && Agree(q, path, 0, d)
        ensures q == p
      {
        assert q in mb;
      }
    } else {
      var q :| q in mb && Agree(q, path, 0, d) && NibbleAt(q, d) != NibbleAt(p, d);
      assert q in m;
    }
  }

  lemma FewFollow(leaves: seq<Leaf>, path: Hash32)
    requires Distinct(leaves) && |leaves| <= 1
    ensures Follows(Contents(leaves), path)
  {
    if |leaves| == 1 { assert forall p :: p in Contents(leaves) ==> p == leaves[0].path; }
  }

  lemma ProofSplits(
    h: HashFn, leaves: seq<Leaf>, path: Hash32, c: nat, k: nat, proof: Proof) returns (step: ProofStep, rest: Proof)
    requires AtSplit(leaves, c, k) && ProofForPath(h, leaves, path, c) == Success(proof)
    ensures proof == [step] + rest
    ensures ProofStepForBranch(h, path, c, k, NibbleAt(path, k), Children(leaves, k)) == Success(step)
    ensures ProofForPath(h, Children(leaves, k)[NibbleAt(path, k)], path, k + 1) == Success(rest)
  {
    hide ProofStepForBranch, WellFormed, Distinct, IsSplit, SplitOf, Contents, Group, NibbleAt, Children;
    step, rest := proof[0], proof[1..];
  }

  // The proof below a split is empty only when nothing else is in the path's child.
  lemma RestNotEmpty(h: HashFn, leaves: seq<Leaf>, path: Hash32, c: nat, proof: Proof)
    requires WellFormed(leaves, c) && leaves != [] && ProofForPath(h, leaves, path, c) == Success(proof)
    requires path !in Contents(leaves)
    ensures proof != []
  {
    if |leaves| == 1 {
      assert leaves[0] in leaves;
    } else {
      var k := SplitFacts(leaves, c);
      var _, _ := ProofSplits(h, leaves, path, c, k, proof);
    }
  }

  lemma NotCollapsing(h: HashFn, leaves: seq<Leaf>, path: Hash32, c: nat, k: nat, step: ProofStep, rest: Proof)
    requires AtSplit(leaves, c, k) && path !in Contents(leaves)
    requires ProofStepForBranch(h, path, c, k, NibbleAt(path, k), Children(leaves, k)) == Success(step)
    requires ProofForPath(h, Children(leaves, k)[NibbleAt(path, k)], path, k + 1) == Success(rest)
    ensures rest != [] || step.Branch?
  {
    hide ProofStepForBranch, ProofForPath, WellFormed, Distinct, SplitOf, Contents, Group, Children, SparseNeighborStep;
    ChildOf(leaves, c, k, NibbleAt(path, k));
    if Children(leaves, k)[NibbleAt(path, k)] == [] {
      var j := Remaining(h, leaves, path, c, k, step);
      if !step.Branch? {
        OnlyNeighborLeft(leaves, path, c, k, j);
        OneChildNoSplit(Contents(leaves), path, k, j);
      }
    } else {
      RestNotEmpty(h, Children(leaves, k)[NibbleAt(path, k)], path, k + 1, rest);
    }
  }

  lemma OneChildNoSplit(m: LeafMap, path: Hash32, k: nat, j: nat)
    requires k < 64 && path !in m && m - {path} == Child(m, k, j)
    ensures !IsSplit(m, k)
  {
    assert m - {path} == m;
  }

  // The generated proof of such a path does not recompute the root, so nothing can be inserted with it.
  lemma {:induction false} DivergentFails(
    h: HashFn, s: set<Bytes>, leaves: seq<Leaf>, path: Hash32, c: nat, proof: Proof)
    requires Binding(h, s) && WellFormed(leaves, c) && ValuesApart(h, Contents(leaves), s)
    requires Beside(Contents(leaves), path, c) && !Follows(Contents(leaves), path)
    requires ProofForPath(h, leaves, path, c) == Success(proof)
    requires ExcludingStrings(h, path, c, proof) <= s
    requires Shares(Contents(leaves), c) && RootStrings(h, Contents(leaves), c) <= s
    ensures Excluding(h, path, c, proof) != Success(RootOf(h, Contents(leaves), c))
    decreases 64 - c, 0
  {
    var m := Contents(leaves);
    if |leaves| <= 1 {
      FewFollow(leaves, path);
    } else {
      var k := SplitFacts(leaves, c);
      if path in m { StoredFollows(m, path); }
      DivergentFailsAtSplit(h, s, leaves, path, c, k, proof);
    }
  }

  lemma {:induction false} DivergentFailsAtSplit(
    h: HashFn, s: set<Bytes>, leaves: seq<Leaf>, path: Hash32, c: nat, k: nat, proof: Proof)
    requires Binding(h, s) && AtSplit(leaves, c, k) && ValuesApart(h, Contents(leaves), s)
    requires Beside(Contents(leaves), path, c) && !Follows(Contents(leaves), path) && path !in Contents(leaves)
    requires ProofForPath(h, leaves, path, c) == Success(proof)
    requires ExcludingStrings(h, path, c, proof) <= s
    requires Shares(Contents(leaves), c) && RootStrings(h, Contents(leaves), c) <= s
    ensures Excluding(h, path, c, proof) != Success(RootOf(h, Contents(leaves), c))
    decreases 64 - k - 1, 1
  {
    hide ProofForPath, ProofStepForBranch, Excluding, RootOf, RootStrings, RootsOf, StepRoot, StepStrings, StepOk,
         Shares, WellFormed, Distinct, SplitOf, Contents, Children, Follows, Beside, IsSplit, Replaced, Child, Binding,
         ValuesApart, NibbleAt, StepFits;
    var m := Contents(leaves);
    var step, rest := ProofSplits(h, leaves, path, c, k, proof);
    NotCollapsing(h, leaves, path, c, k, step, rest);
    if Excluding(h, path, c, proof) == Success(RootOf(h, m, c)) {
      DivergentChild(h, s, leaves, path, c, k, proof, step, rest);
      DivergesInChild(m, path, k);
      ChildOf(leaves, c, k, NibbleAt(path, k));
      ChildApart(h, s, m, k, NibbleAt(path, k));
      BesideChild(m, path, k);
      DivergentFails(h, s, Children(leaves, k)[NibbleAt(path, k)], path, k + 1, rest);
    }
  }

  // A root recomputed without the path at a split is recomputed without it in the path's child.
  lemma DivergentChild(
    h: HashFn, s: set<Bytes>, leaves: seq<Leaf>, path: Hash32, c: nat, k: nat, proof: Proof, step: ProofStep,
    rest: Proof)
    requires Binding(h, s) && AtSplit(leaves, c, k) && ValuesApart(h, Contents(leaves), s)
    requires Beside(Contents(leaves), path, c) && proof == [step] + rest && (rest != [] || step.Branch?)
    requires ProofStepForBranch(h, path, c, k, NibbleAt(path, k), Children(leaves, k)) == Success(step)
    requires ExcludingStrings(h, path, c, proof) <= s
    requires Shares(Contents(leaves), c) && RootStrings(h, Contents(leaves), c) <= s
    requires Excluding(h, path, c, proof) == Success(RootOf(h, Contents(leaves), c))
    ensures IsSplit(Contents(leaves), k) && Beside(Contents(leaves), path, k)
    ensures Shares(Child(Contents(leaves), k, NibbleAt(path, k)), k + 1)
    ensures RootStrings(h, Child(Contents(leaves), k, NibbleAt(path, k)), k + 1) <= s
    ensures ExcludingStrings(h, path, k + 1, rest) <= s
    ensures Excluding(h, path, k + 1, rest) == Success(RootOf(h, Child(Contents(leaves), k, NibbleAt(path, k)), k + 1))
  {
    hide ProofForPath, ProofStepForBranch, Excluding, RootOf, RootStrings, RootsOf, StepRoot, StepStrings, StepOk,
         Shares, WellFormed, Distinct, SplitOf, Contents, Children, Follows, Beside, IsSplit, Replaced, Child, Binding,
         ValuesApart, NibbleAt, StepFits;
    var r := ExcludingUnfolds(h, path, c, proof);
    var step' := StepFold(h, leaves, path, c, k, r);
    var k', mb := StepSound(h, s, Contents(leaves), path, c, step, r, r);
  }

  lemma DivergesInChild(m: LeafMap, path: Hash32, k: nat)
    requires IsSplit(m, k) && Beside(m, path, k) && !Follows(m, path)
    ensures !Follows(Child(m, k, NibbleAt(path, k)), path)
  {
    hide Follows;
    if Follows(Child(m, k, NibbleAt(path, k)), path) { FollowsUp(m, path, k); }
  }
}
