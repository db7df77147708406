/**
 One proof, two values: whatever the proof, different value hashes recompute to different roots.
 */
module MpfInjective {
  import opened Bytes
  import opened Mpf
  import opened MpfCompleteness
  import opened MpfBinding

  lemma BranchDigestInjective(h: HashFn, s: set<Bytes>, b: byte, r: Hash32, r': Hash32, ns: Bytes)
    requires InjectiveOn(h, s) && |ns| == 128 && PathStrings(h, b, r, ns) + PathStrings(h, b, r', ns) <= s
    requires h(PathTop(h, b, r, ns)) == h(PathTop(h, b, r', ns))
    ensures r == r'
  {
    hide InjectiveOn, Ordered;
    OrderedBinds(h, s, b < 8, h(PathOctet(h, b, r, ns)), ns[0..32], h(PathOctet(h, b, r', ns)), ns[0..32]);
    OrderedBinds(h, s, b % 8 < 4, h(PathQuad(h, b, r, ns)), ns[32..64], h(PathQuad(h, b, r', ns)), ns[32..64]);
    OrderedBinds(h, s, b % 4 < 2, h(PathPair(b, r, ns)), ns[64..96], h(PathPair(b, r', ns)), ns[64..96]);
    OrderedBinds(h, s, b % 2 == 0, r, ns[96..128], r', ns[96..128]);
  }

  lemma SparseDigestInjective(h: HashFn, s: set<Bytes>, path: Hash32, step: ProofStep, next: nat, r: Hash32, r': Hash32)
    requires InjectiveOn(h, s) && !step.Branch? && next < 64
    requires StepNeighbor(step, next).nibble < 16 && StepNeighbor(step, next).nibble != NibbleAt(path, next)
    requires Strings16(h, StepSparseRoots(h, path, step, next, r)) + Strings16(h,
      StepSparseRoots(h, path, step, next, r')) <= s
    requires Merkle16Roots(h, StepSparseRoots(h, path, step, next, r)) ==
      Merkle16Roots(h, StepSparseRoots(h, path, step, next, r'))
    ensures r == r'
  {
    hide InjectiveOn, Strings16, Merkle16Roots, SparseRoots;
    var n := StepNeighbor(step, next);
    Merkle16Binds(h, s, StepSparseRoots(h, path, step, next, r), StepSparseRoots(h, path, step, next, r'));
    SparseRootsSlots(NibbleAt(path, next), r, n.nibble, Combine(h, n.prefix, n.root));
    SparseRootsSlots(NibbleAt(path, next), r', n.nibble, Combine(h, n.prefix, n.root));
  }

  lemma StepInjective(h: HashFn, s: set<Bytes>, path: Hash32, c: nat, step: ProofStep, r: Hash32, r': Hash32)
    requires InjectiveOn(h, s) && StepOk(path, c, step)
    requires StepStrings(h, path, c, step, r) + StepStrings(h, path, c, step, r') <= s
    requires StepRoot(h, path, c, step, r) == StepRoot(h, path, c, step, r')
    ensures r == r'
  {
    hide InjectiveOn, StepRoot, PathStrings, PathTop, Strings16, Merkle16Roots, StepSparseRoots, NibbleRange;
    var next := c + step.skip;
    StepRootIs(h, path, c, step, r);
    StepRootIs(h, path, c, step, r');
    var a, a' := NodeString(path, c, next, StepDigest(h, path, c, step, r)),
      NodeString(path, c, next, StepDigest(h, path, c, step, r'));
    InjectiveAt(h, s, a, a');
    JoinedTail(NibbleRange(path, c, next), StepDigest(h, path, c, step, r), NibbleRange(path, c, next),
      StepDigest(h, path, c, step, r'));
    if step.Branch? {
      BranchDigestInjective(h, s, NibbleAt(path, next), r, r', step.neighbors);
    } else {
      SparseDigestInjective(h, s, path, step, next, r, r');
    }
  }

  lemma UnfoldStrings(h: HashFn, path: Hash32, v: Hash32, c: nat, proof: Proof, r: Hash32)
    requires proof != [] && c <= 64 && StepOk(path, c, proof[0])
    requires Including(h, path, v, c + proof[0].skip + 1, proof[1..]) == Success(r)
    ensures IncludingStrings(h, path, v, c, proof) ==
      IncludingStrings(h, path, v, c + proof[0].skip + 1, proof[1..]) + StepStrings(h, path, c, proof[0], r)
  {
    hide Including, StepStrings, StepOk;
  }

  // Whether a proof recomputes a root does not depend on the value.
  lemma {:induction false} SuccessForAnyValue(h: HashFn, path: Hash32, v: Hash32, v': Hash32, c: nat, proof: Proof)
    requires Including(h, path, v, c, proof).Success?
    ensures Including(h, path, v', c, proof).Success?
    decreases |proof|
  {
    hide StepRoot, StepOk, BranchRoot, ForkRoot, LeafNeighbor;
    if proof != [] {
      var r := IncludingUnfolds(h, path, v, c, proof);
      SuccessForAnyValue(h, path, v, v', c + proof[0].skip + 1, proof[1..]);
      var r' := Including(h, path, v', c + proof[0].skip + 1, proof[1..]).value;
      IncludingStep(h, path, v', c, proof[0], proof[1..], r');
      StepSucceeds(h, path, c, proof[0], r');
      assert [proof[0]] + proof[1..] == proof;
    }
  }

  // For every path and every proof on which recomputation succeeds, generated or not, two different
  // value hashes recompute to different roots.
  lemma {:induction false} ValuesRecomputeApart(
    h: HashFn, s: set<Bytes>, path: Hash32, v: Hash32, v': Hash32, c: nat, proof: Proof)
    requires Including(h, path, v, c, proof).Success? && v != v'
    requires IncludingStrings(h, path, v, c, proof) + IncludingStrings(h, path, v', c, proof) <= s && InjectiveOn(h, s)
    ensures Including(h, path, v', c, proof).Success?
    ensures Including(h, path, v, c, proof) != Including(h, path, v', c, proof)
    decreases |proof|
  {
    SuccessForAnyValue(h, path, v, v', c, proof);
    if proof == [] {
      LeafRootsApart(h, s, path, v, v', c);
    } else {
      hide Including, IncludingStrings, StepRoot, StepOk, StepStrings, InjectiveOn;
      var next := c + proof[0].skip + 1;
      var r := IncludingUnfolds(h, path, v, c, proof);
      var r' := IncludingUnfolds(h, path, v', c, proof);
      UnfoldStrings(h, path, v, c, proof, r);
      UnfoldStrings(h, path, v', c, proof, r');
      ValuesRecomputeApart(h, s, path, v, v', next, proof[1..]);
      if StepRoot(h, path, c, proof[0], r) == StepRoot(h, path, c, proof[0], r') {
        StepInjective(h, s, path, c, proof[0], r, r');
      }
    }
  }

  lemma LeafRootsApart(h: HashFn, s: set<Bytes>, path: Hash32, v: Hash32, v': Hash32, c: nat)
    requires Including(h, path, v, c, []).Success? && v != v'
    requires IncludingStrings(h, path, v, c, []) + IncludingStrings(h, path, v', c, []) <= s && InjectiveOn(h, s)
    ensures Including(h, path, v, c, []) != Including(h, path, v', c, [])
  {
    hide SuffixAt;
    if h(LeafString(path, c, v)) == h(LeafString(path, c, v')) {
      JoinedTail(SuffixAt(path, c), v, SuffixAt(path, c), v');
    }
  }

  // So under any one root a proof shows one value of a key, and updates from no other.
  lemma OneValuePerRoot(
    h: HashFn, s: set<Bytes>, root: Hash32, key: Bytes, value: Bytes, other: Bytes, newValue: Bytes, proof: Proof)
    requires Has(h, root, key, value, proof) && other != value && InjectiveOn(h, s) && value in s && other in s
    requires IncludingStrings(h, h(key), h(value), 0, proof) + IncludingStrings(h, h(key), h(other), 0, proof) <= s
    ensures !Has(h, root, key, other, proof)
    ensures Update(h, root, key, proof, other, newValue).Failure?
  {
    assert h(value) != h(other);
    hide Including, IncludingStrings, InjectiveOn;
    ValuesRecomputeApart(h, s, h(key), h(value), h(other), 0, proof);
  }
}
