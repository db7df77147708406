/**
 Replay after a restart: the byte order of keys gives back the cached chain, and a restarted follower
 rebuilds the stack of transactions it had.
 */
module ChainReplay {
  import opened Bytes
  import opened LedgerCaches
  import opened ChainSync
  import opened ChainRuns

  // The blocks of a chain from a position on, with their links.
  ghost function Links(chain: Chain, j: nat): seq<LinkedBlock<Block>>
    requires j <= |chain|
  {
    seq(|chain| - j, i requires 0 <= i < |chain| - j => LinkedBlock(chain[j + i], Before(chain, j + i)))
  }

  ghost function KeysOf(chain: Chain, j: nat): seq<Bytes>
    requires j <= |chain|
  {
    seq(|chain| - j, i requires 0 <= i < |chain| - j => Key(chain[j + i]))
  }

  // A cached block at or after the given point.
  ghost predicate From(after: Slot, from: Point, b: Block) {
    b.slot > after && PointLeq(from, PointOf(b))
  }

  // Position `j` splits the chain into blocks that are not replayed and blocks that are.
  ghost predicate SplitAt(after: Slot, from: Point, chain: Chain, j: nat) {
    && j <= |chain|
    && (forall i :: 0 <= i < j ==> !From(after, from, chain[i]))
    && (forall i :: j <= i < |chain| ==> From(after, from, chain[i]))
  }

  lemma LaterFrom(after: Slot, from: Point, a: Block, b: Block)
    requires From(after, from, a) && a.slot < b.slot
    ensures From(after, from, b)
  {
  }

  lemma {:induction false} SplitExists(after: Slot, from: Point, chain: Chain) returns (j: nat)
    requires Increasing(chain)
    ensures SplitAt(after, from, chain, j)
  {
    hide From;
    j := 0;
    while j < |chain| && !From(after, from, chain[j])
      invariant j <= |chain| && forall i :: 0 <= i < j ==> !From(after, from, chain[i])
    {
      j := j + 1;
    }
    forall i | j <= i < |chain|
      ensures From(after, from, chain[i])
    {
      if i > j { LaterFrom(after, from, chain[j], chain[i]); }
    }
  }

  lemma KeyBefore(a: Block, b: Block)
    requires a.slot < b.slot
    ensures LexLeq(Key(a), Key(b)) && Key(a) != Key(b)
  {
    KeyOrder(PointOf(a), PointOf(b));
    KeyOrder(PointOf(b), PointOf(a));
  }

  lemma KeysAscend(chain: Chain, j: nat)
    requires Increasing(chain) && j <= |chain|
    ensures Ascending(KeysOf(chain, j))
  {
    hide Key;
    var keys := KeysOf(chain, j);
    forall a, b | 0 <= a < b < |keys|
      ensures LexLeq(keys[a], keys[b]) && keys[a] != keys[b]
    {
      KeyBefore(chain[j + a], chain[j + b]);
    }
  }

  lemma FromKey(after: Slot, from: Point, b: Block)
    requires b.slot > after
    ensures From(after, from, b) <==> LexLeq(PointKey(from), Key(b))
  {
    KeyOrder(from, PointOf(b));
  }

  // A key of the cache from the given point on is the key of a replayed block.
  lemma KeyReplayed(db: Db<Block>, after: Slot, chain: Chain, from: Point, j: nat, k: Bytes)
    requires HoldsOnly(db, after, chain) && SplitAt(after, from, chain, j)
    requires k in KeysFrom(db, PointKey(from))
    ensures k in KeysOf(chain, j)
  {
    hide PointKey, TipKey, Key, From, LexLeq;
    TipKeyFirst(from);
    var i :| 0 <= i < |chain| && chain[i].slot > after && k == Key(chain[i]);
    FromKey(after, from, chain[i]);
    assert KeysOf(chain, j)[i - j] == k;
  }

  lemma ReplayedKey(db: Db<Block>, after: Slot, chain: Chain, from: Point, j: nat, k: Bytes)
    requires HoldsChain(db, after, chain) && SplitAt(after, from, chain, j)
    requires k in KeysOf(chain, j)
    ensures k in KeysFrom(db, PointKey(from))
  {
    var i :| 0 <= i < |chain| - j && KeysOf(chain, j)[i] == k;
    var b := chain[j + i];
    assert From(after, from, b);
    hide PointKey, Key, LexLeq, Before, PointLeq;
    FromKey(after, from, b);
  }

  lemma KeysInOrder(db: Db<Block>, after: Slot, chain: Chain, from: Point, j: nat)
    requires Linked(db, after, chain) && SplitAt(after, from, chain, j)
    ensures SortedKeys(KeysFrom(db, PointKey(from))) == KeysOf(chain, j)
  {
    var found := SortedKeys(KeysFrom(db, PointKey(from)));
    KeysAscend(chain, j);
    forall k
      ensures k in found <==> k in KeysOf(chain, j)
    {
      if k in found { KeyReplayed(db, after, chain, from, j, k); }
      if k in KeysOf(chain, j) { ReplayedKey(db, after, chain, from, j, k); }
    }
    hide *;
    AscendingUnique(found, KeysOf(chain, j));
  }

  lemma {:induction false} BlocksOfKeys(db: Db<Block>, after: Slot, chain: Chain, j: nat, n: nat)
    requires HoldsChain(db, after, chain) && j <= |chain| && n <= |chain| - j
    requires forall i :: j <= i < |chain| ==> chain[i].slot > after
    requires forall k :: k in KeysOf(chain, j) ==> k in db
    ensures BlocksUnder(db, KeysOf(chain, j)[..n]) == Links(chain, j)[..n]
  {
    hide Key, Before;
    var keys, links := KeysOf(chain, j), Links(chain, j);
    if n > 0 {
      BlocksOfKeys(db, after, chain, j, n - 1);
      assert keys[..n][..n - 1] == keys[..n - 1];
      assert links[..n] == links[..n - 1] + [links[n - 1]];
      assert chain[j + n - 1].slot > after;
    }
  }

  // Replay from any point gives exactly the cached blocks of the chain at or after it, in chain order.
  lemma ReplayIsChain(db: Db<Block>, after: Slot, chain: Chain, from: Point) returns (j: nat)
    requires Linked(db, after, chain)
    ensures SplitAt(after, from, chain, j) && Replayed(db, from) == Links(chain, j)
  {
    j := SplitExists(after, from, chain);
    KeysInOrder(db, after, chain, from, j);
    var keys := KeysOf(chain, j);
    assert forall k :: k in keys ==> k in db by {
      forall k | k in keys
        ensures k in db
      {
        ReplayedKey(db, after, chain, from, j, k);
      }
    }
    hide KeysOf, Links, Increasing, HoldsOnly, KeysFrom, SortedKeys;
    BlocksOfKeys(db, after, chain, j, |chain| - j);
    WholeKeys(chain, j);
  }

  lemma WholeKeys(chain: Chain, j: nat)
    requires j <= |chain|
    ensures |KeysOf(chain, j)| == |chain| - j && KeysOf(chain, j)[..|chain| - j] == KeysOf(chain, j)
    ensures |Links(chain, j)| == |chain| - j && Links(chain, j)[..|chain| - j] == Links(chain, j)
  {
  }

  // From a cached block of the chain, replay starts with that block.
  lemma ReplayFromBlock(db: Db<Block>, after: Slot, chain: Chain, k: nat)
    requires Linked(db, after, chain) && k < |chain| && chain[k].slot > after
    ensures Replayed(db, PointOf(chain[k])) == Links(chain, k)
  {
    var j := ReplayIsChain(db, after, chain, PointOf(chain[k]));
    LexTotal(chain[k].hash, chain[k].hash);
    assert From(after, PointOf(chain[k]), chain[k]);
    assert forall i :: 0 <= i < k ==> !From(after, PointOf(chain[k]), chain[i]);
    hide Replayed, Links, Linked, From;
    assert j == k;
  }

  // ----- a restarted follower -----

  lemma {:induction false} ProcessedSplits(db: Db<Block>, a: seq<ChainUpgrade>, b: seq<ChainUpgrade>, after: Slot)
    ensures ProcessedAll(db, a + b, after).0 == ProcessedAll(ProcessedAll(db, a, after).0, b, after).0
    ensures ProcessedAll(db, a + b, after).1 ==
      ProcessedAll(db, a, after).1 + ProcessedAll(ProcessedAll(db, a, after).0, b, after).1
    decreases |b|
  {
    hide Processed;
    if b == [] {
      assert a + b == a;
    } else {
      var n := |b| - 1;
      ProcessedSplits(db, a, b[..n], after);
      assert (a + b)[..|a + b| - 1] == a + b[..n];
      assert (a + b)[|a + b| - 1] == b[n];
    }
  }

  ghost function Replays(blocks: seq<Block>): seq<ChainUpgrade> {
    seq(|blocks|, i requires 0 <= i < |blocks| => RollForward(blocks[i], true))
  }

  lemma OneMoreBlock(chain: Chain, j: nat, n: nat)
    requires j + n < |chain|
    ensures Txs(chain[..j + n + 1]) == Txs(chain[..j + n]) + ValidTransactions(chain[j + n])
  {
    hide ValidTransactions;
    assert chain[..j + n + 1][..j + n] == chain[..j + n];
  }

  // Replaying a stretch of the chain leaves the cache alone and pushes its transactions.
  lemma {:induction false} ReplayPushes(db: Db<Block>, after: Slot, chain: Chain, j: nat, n: nat)
    requires j + n <= |chain|
    ensures ProcessedAll(db, Replays(chain[j..j + n]), after).0 == db
    ensures StackAfter(Txs(chain[..j]), ProcessedAll(db, Replays(chain[j..j + n]), after).1) ==
      Some(Txs(chain[..j + n]))
    decreases n
  {
    hide ProcessedAll, Txs, StackAfter, ValidTransactions;
    if n == 0 {
      NothingReplayed(db, after, chain, j);
    } else {
      ReplayPushes(db, after, chain, j, n - 1);
      OneMoreBlock(chain, j, n - 1);
      assert Replays(chain[j..j + n]) == Replays(chain[j..j + n - 1]) + [RollForward(chain[j + n - 1], true)];
      hide Replays;
      ReplayOne(db, after, Replays(chain[j..j + n - 1]), chain[j + n - 1], Txs(chain[..j]), Txs(chain[..j + n - 1]));
    }
  }

  lemma NothingReplayed(db: Db<Block>, after: Slot, chain: Chain, j: nat)
    requires j <= |chain|
    ensures ProcessedAll(db, Replays(chain[j..j]), after) == (db, [])
    ensures StackAfter(Txs(chain[..j]), []) == Some(Txs(chain[..j]))
  {
    assert Replays(chain[j..j]) == [];
  }

  lemma ReplayOne(
    db: Db<Block>, after: Slot, us: seq<ChainUpgrade>, b: Block, start: seq<LedgerTx>, stack: seq<LedgerTx>)
    requires ProcessedAll(db, us, after).0 == db && StackAfter(start, ProcessedAll(db, us, after).1) == Some(stack)
    ensures ProcessedAll(db, us + [RollForward(b, true)], after).0 == db
    ensures StackAfter(start, ProcessedAll(db, us + [RollForward(b, true)], after).1) ==
      Some(stack + ValidTransactions(b))
  {
    hide StackAfter, ValidTransactions, Applies;
    var us' := us + [RollForward(b, true)];
    assert us'[..|us|] == us && us'[|us|] == RollForward(b, true);
    AppliesPush(stack, ValidTransactions(b));
    StackSplits(start, ProcessedAll(db, us, after).1, Applies(ValidTransactions(b)));
  }

  lemma UpstreamSplits(chain: Chain, j: nat, us: seq<ChainUpgrade>)
    requires j <= |chain|
    ensures Upstream(Links(chain, j), us) == Replays(chain[j..]) + us
  {
  }

  lemma RunAfter(
    db: Db<Block>, after: Slot, first: seq<ChainUpgrade>, us: seq<ChainUpgrade>, start: seq<LedgerTx>, chain: Chain,
    chain': Chain)
    requires ProcessedAll(db, first, after).0 == db
    requires StackAfter(start, ProcessedAll(db, first, after).1) == Some(Txs(chain))
    requires StepOk(after, chain, ProcessedAll(db, us, after).0, ProcessedAll(db, us, after).1, chain')
    ensures Linked(ProcessedAll(db, first + us, after).0, after, chain')
    ensures StackAfter(start, ProcessedAll(db, first + us, after).1) == Some(Txs(chain'))
  {
    hide Linked, ProcessedAll, StackAfter, Txs;
    ProcessedSplits(db, first, us, after);
    StackSplits(start, ProcessedAll(db, first, after).1, ProcessedAll(db, us, after).1);
  }

  lemma ReplayWhole(db: Db<Block>, after: Slot, chain: Chain, j: nat)
    requires j <= |chain|
    ensures ProcessedAll(db, Replays(chain[j..]), after).0 == db
    ensures StackAfter(Txs(chain[..j]), ProcessedAll(db, Replays(chain[j..]), after).1) == Some(Txs(chain))
  {
    hide ProcessedAll, StackAfter, Txs, Replays;
    ReplayPushes(db, after, chain, j, |chain| - j);
    assert chain[j..j + (|chain| - j)] == chain[j..] && chain[..j + (|chain| - j)] == chain;
  }

  // A follower restarted with replay from any point: playing its events on the transactions of the
  // blocks that are not replayed gives the transactions of the node's chain at the end.
  lemma RestartRebuilds(
    db: Db<Block>, after: Slot, chains: seq<Chain>, us: seq<ChainUpgrade>, from: Point) returns (j: nat)
    requires NodeRun(after, chains, us) && Linked(db, after, chains[0])
    ensures SplitAt(after, from, chains[0], j)
    ensures Linked(ProcessedAll(db, Upstream(Replayed(db, from), us), after).0, after, chains[|us|])
    ensures StackAfter(Txs(chains[0][..j]), ProcessedAll(db, Upstream(Replayed(db, from), us), after).1) ==
      Some(Txs(chains[|us|]))
  {
    j := ReplayIsChain(db, after, chains[0], from);
    hide Linked, Replayed, NodeRun, ProcessedAll, StackAfter, Txs, Links, Upstream, Replays, SplitAt;
    var chain := chains[0];
    UpstreamSplits(chain, j, us);
    ReplayWhole(db, after, chain, j);
    RunKeeps(db, after, chains, us);
    RunAfter(db, after, Replays(chain[j..]), us, Txs(chain[..j]), chain, chains[|us|]);
  }
}
