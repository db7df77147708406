/**
 Whole runs of the chain follower against the node's chain: the cache stays a linked chain ending at
 the tip, rollbacks reach their point, and the events form a stack of the chain's transactions.
 */
module ChainRuns {
  import opened Bytes
  import opened LedgerCaches
  import opened ChainSync

  type Chain = seq<Block>

  function Key(b: Block): Bytes {
    PointKey(PointOf(b))
  }

  ghost predicate Increasing(chain: Chain) {
    forall i, j :: 0 <= i < j < |chain| ==> chain[i].slot < chain[j].slot
  }

  // The point before a block.
  ghost function Before(chain: Chain, i: nat): Point
    requires i <= |chain|
  {
    if i == 0 then Origin else PointOf(chain[i - 1])
  }

  // The tip is the last block; before the first one there is no tip, or a rollback has left it at the origin.
  ghost predicate TipMatches(tip: Option<Point>, chain: Chain) {
    if chain == [] then tip == None || tip == Some(Origin) else tip == Some(PointOf(chain[|chain| - 1]))
  }

  // Every block above the threshold is cached and linked to the block before it.
  ghost predicate HoldsChain(db: Db<Block>, after: Slot, chain: Chain) {
    forall i :: 0 <= i < |chain| && chain[i].slot > after ==>
      Key(chain[i]) in db && db[Key(chain[i])] == BlockValue(LinkedBlock(chain[i], Before(chain, i)))
  }

  // Besides the tip the cache holds no other key.
  ghost predicate HoldsOnly(db: Db<Block>, after: Slot, chain: Chain) {
    forall k :: k in db && k != TipKey() ==> exists i :: 0 <= i < |chain| && chain[i].slot > after && k == Key(chain[i])
  }

  ghost predicate Linked(db: Db<Block>, after: Slot, chain: Chain) {
    && Increasing(chain)
    && TipMatches(TipOf(db), chain) && (TipKey() in db ==> db[TipKey()].TipValue?)
    && HoldsChain(db, after, chain) && HoldsOnly(db, after, chain)
  }

  lemma DistinctKeys(chain: Chain)
    requires Increasing(chain)
    ensures forall i, j :: 0 <= i < j < |chain| ==> Key(chain[i]) != Key(chain[j])
    ensures forall i :: 0 <= i < |chain| ==> Key(chain[i]) != TipKey()
  {
    forall i, j | 0 <= i < j < |chain|
      ensures Key(chain[i]) != Key(chain[j])
    {
      if Key(chain[i]) == Key(chain[j]) { KeyInjective(PointOf(chain[i]), PointOf(chain[j])); }
    }
    forall i | 0 <= i < |chain|
      ensures Key(chain[i]) != TipKey()
    {
      TipKeyFirst(PointOf(chain[i]));
    }
  }

  // ----- one step -----

  // A value under a key that no block of the chain has.
  lemma SetOther(db: Db<Block>, after: Slot, chain: Chain, key: Bytes, v: DbValue<Block>)
    requires HoldsChain(db, after, chain) && forall i :: 0 <= i < |chain| ==> Key(chain[i]) != key
    ensures HoldsChain(db[key := v], after, chain)
  {
    hide Key, Before;
  }

  lemma DropOther(db: Db<Block>, after: Slot, chain: Chain, key: Bytes)
    requires HoldsChain(db, after, chain) && forall i :: 0 <= i < |chain| ==> Key(chain[i]) != key
    ensures HoldsChain(db - {key}, after, chain)
  {
    hide Key, Before;
  }

  lemma HoldsMore(db: Db<Block>, after: Slot, chain: Chain, b: Block)
    requires HoldsChain(db, after, chain)
    requires b.slot > after ==> Key(b) in db && db[Key(b)] == BlockValue(LinkedBlock(b, Before(chain, |chain|)))
    ensures HoldsChain(db, after, chain + [b])
  {
    var chain' := chain + [b];
    assert forall i :: 0 <= i <= |chain| ==> Before(chain', i) == Before(chain, i);
    hide Key, Before;
  }

  lemma HoldsFewer(db: Db<Block>, after: Slot, chain: Chain, n: nat)
    requires HoldsChain(db, after, chain) && n <= |chain|
    ensures HoldsChain(db, after, chain[..n])
  {
    var chain' := chain[..n];
    assert forall i :: 0 <= i < n ==> chain'[i] == chain[i] && Before(chain', i) == Before(chain, i);
    hide Key, Before;
  }

  lemma OnlyMore(db: Db<Block>, after: Slot, chain: Chain, b: Block, db': Db<Block>)
    requires HoldsOnly(db, after, chain)
    requires forall k :: k in db' && k != TipKey() ==> k in db || (k == Key(b) && b.slot > after)
    ensures HoldsOnly(db', after, chain + [b])
  {
    hide Key, TipKey;
    var chain' := chain + [b];
    forall k | k in db' && k != TipKey()
      ensures exists i :: 0 <= i < |chain'| && chain'[i].slot > after && k == Key(chain'[i])
    {
      if k in db {
        var i :| 0 <= i < |chain| && chain[i].slot > after && k == Key(chain[i]);
        assert chain'[i] == chain[i];
      } else {
        assert chain'[|chain|] == b;
      }
    }
  }

  lemma OnlyFewer(db: Db<Block>, after: Slot, chain: Chain, n: nat, db': Db<Block>)
    requires HoldsOnly(db, after, chain) && n <= |chain|
    requires forall k :: k in db' && k != TipKey() ==> k in db && forall i :: n <= i < |chain| ==> k != Key(chain[i])
    ensures HoldsOnly(db', after, chain[..n])
  {
    hide Key, TipKey;
    var chain' := chain[..n];
    forall k | k in db' && k != TipKey()
      ensures exists i :: 0 <= i < |chain'| && chain'[i].slot > after && k == Key(chain'[i])
    {
      var i :| 0 <= i < |chain| && chain[i].slot > after && k == Key(chain[i]);
      assert chain'[i] == chain[i];
    }
  }

  lemma ForwardIncreasing(db: Db<Block>, after: Slot, chain: Chain, b: Block)
    requires Linked(db, after, chain) && (chain == [] || chain[|chain| - 1].slot < b.slot)
    ensures Increasing(chain + [b]) && PrevPoint(db) == Before(chain, |chain|)
  {
    hide HoldsChain, HoldsOnly;
  }

  // A block above the chain has a key of its own.
  lemma NewKey(chain: Chain, b: Block)
    requires Increasing(chain + [b])
    ensures Key(b) != TipKey() && forall i :: 0 <= i < |chain| ==> Key(chain[i]) != Key(b) && Key(chain[i]) != TipKey()
  {
    var chain' := chain + [b];
    DistinctKeys(chain');
    hide Key, TipKey;
    assert chain'[|chain|] == b;
    assert forall i :: 0 <= i < |chain| ==> chain'[i] == chain[i];
  }

  lemma ForwardHolds(db: Db<Block>, after: Slot, chain: Chain, b: Block)
    requires HoldsChain(db, after, chain) && Increasing(chain + [b]) && PrevPoint(db) == Before(chain, |chain|)
    ensures HoldsChain(Forwarded(db, b, after), after, chain + [b])
  {
    var db1, db2 := WithTip(db, PointOf(b)), Forwarded(db, b, after);
    NewKey(chain, b);
    assert PointKey(PointOf(b)) == Key(b);
    hide HoldsChain, PointKey, Key, TipKey, Before, PrevPoint, Increasing;
    SetOther(db, after, chain, TipKey(), TipValue(PointOf(b)));
    if b.slot > after { SetOther(db1, after, chain, Key(b), BlockValue(LinkedBlock(b, Before(chain, |chain|)))); }
    HoldsMore(db2, after, chain, b);
  }

  lemma ForwardTip(db: Db<Block>, after: Slot, b: Block)
    ensures TipKey() in Forwarded(db, b, after) && Forwarded(db, b, after)[TipKey()] == TipValue(PointOf(b))
    ensures forall k :: k in Forwarded(db, b, after) && k != TipKey() ==> k in db || (k == Key(b) && b.slot > after)
  {
    TipKeyFirst(PointOf(b));
    hide PointKey, TipKey, PrevPoint;
  }

  lemma ForwardLinks(db: Db<Block>, after: Slot, chain: Chain, b: Block)
    requires Linked(db, after, chain) && (chain == [] || chain[|chain| - 1].slot < b.slot)
    ensures Linked(Forwarded(db, b, after), after, chain + [b])
  {
    ForwardIncreasing(db, after, chain, b);
    hide HoldsChain, HoldsOnly, Increasing, Key, TipKey, Before, PrevPoint, Forwarded;
    ForwardHolds(db, after, chain, b);
    ForwardTip(db, after, b);
    OnlyMore(db, after, chain, b, Forwarded(db, b, after));
  }

  // What taking the last block off sees and leaves.
  ghost predicate PopOk(db: Db<Block>, after: Slot, chain: Chain, last: nat, tip: Point, prev: Point)
    requires |chain| == last + 1
  {
    && TipOf(db) == Some(tip)
    && BlockAt(db, tip) == Some(LinkedBlock(chain[last], prev))
    && Linked(Popped(db, tip, prev), after, chain[..last])
  }

  lemma PopHolds(db: Db<Block>, after: Slot, chain: Chain, last: nat, tip: Point, prev: Point)
    requires HoldsChain(db, after, chain) && Increasing(chain) && |chain| == last + 1 && tip == PointOf(chain[last])
    ensures HoldsChain(Popped(db, tip, prev), after, chain[..last])
  {
    var chain' := chain[..last];
    assert chain' + [chain[last]] == chain;
    NewKey(chain', chain[last]);
    assert PointKey(tip) == Key(chain[last]);
    hide HoldsChain, PointKey, Key, TipKey, Increasing;
    HoldsFewer(db, after, chain, last);
    DropOther(db, after, chain', PointKey(tip));
    SetOther(Without(db, tip), after, chain', TipKey(), TipValue(prev));
  }

  lemma PopOnly(db: Db<Block>, after: Slot, chain: Chain, last: nat, tip: Point, prev: Point)
    requires HoldsOnly(db, after, chain) && |chain| == last + 1 && tip == PointOf(chain[last])
    ensures HoldsOnly(Popped(db, tip, prev), after, chain[..last])
  {
    assert PointKey(tip) == Key(chain[last]);
    hide HoldsOnly, PointKey, Key, TipKey;
    OnlyFewer(db, after, chain, last, Popped(db, tip, prev));
  }

  lemma PopTip(db: Db<Block>, after: Slot, chain: Chain, last: nat, tip: Point, prev: Point)
    requires HoldsChain(db, after, chain) && |chain| == last + 1 && chain[last].slot > after
    requires tip == PointOf(chain[last]) && prev == Before(chain, last)
    ensures BlockAt(db, tip) == Some(LinkedBlock(chain[last], prev))
    ensures TipKey() in Popped(db, tip, prev) && Popped(db, tip, prev)[TipKey()] == TipValue(prev)
    ensures TipMatches(TipOf(Popped(db, tip, prev)), chain[..last])
  {
    assert Key(chain[last]) == PointKey(tip);
    hide PointKey, TipKey, Key;
  }

  lemma PopLinks(db: Db<Block>, after: Slot, chain: Chain, last: nat, tip: Point, prev: Point)
    requires Linked(db, after, chain) && |chain| == last + 1 && chain[last].slot > after
    requires tip == PointOf(chain[last]) && prev == Before(chain, last)
    ensures PopOk(db, after, chain, last, tip, prev)
  {
    assert Increasing(chain[..last]) && TipOf(db) == Some(tip);
    hide HoldsChain, HoldsOnly, Increasing, TipKey, Popped, TipOf, BlockAt, TipMatches, Before;
    PopHolds(db, after, chain, last, tip, prev);
    PopOnly(db, after, chain, last, tip, prev);
    PopTip(db, after, chain, last, tip, prev);
  }

  function Reversed<T>(s: seq<T>): seq<T> {
    seq(|s|, i requires 0 <= i < |s| => s[|s| - 1 - i])
  }

  lemma RolledBackStep(db: Db<Block>, to: Point, tip: Point, l: LinkedBlock<Block>)
    requires TipOf(db) == Some(tip) && tip != to && BlockAt(db, tip) == Some(l)
    ensures RolledBack(db, to).0 == RolledBack(Popped(db, tip, l.prev), to).0
    ensures RolledBack(db, to).1 == [l.block] + RolledBack(Popped(db, tip, l.prev), to).1
  {
    hide TipOf, BlockAt, Popped;
  }

  lemma RolledBackStop(db: Db<Block>, to: Point)
    requires TipOf(db) == Some(to)
    ensures RolledBack(db, to) == (db, [])
  {
    hide TipOf, BlockAt, Popped;
  }

  lemma LinkedTip(db: Db<Block>, after: Slot, chain: Chain)
    requires Linked(db, after, chain) && chain != []
    ensures TipOf(db) == Some(PointOf(chain[|chain| - 1]))
    ensures forall i :: 0 <= i < |chain| - 1 ==> chain[i].slot < chain[|chain| - 1].slot
  {
  }

  lemma NoLaterBlocks(chain: Chain, last: nat)
    requires |chain| == last + 1
    ensures chain[..last + 1] == chain && Reversed(chain[last + 1..]) == []
  {
  }

  lemma LaterBlocks(chain: Chain, i: nat, last: nat)
    requires i < last && |chain| == last + 1
    ensures chain[..last][..i + 1] == chain[..i + 1]
    ensures Reversed(chain[i + 1..]) == [chain[last]] + Reversed(chain[..last][i + 1..])
  {
  }

  // A rollback to an on-chain point above the threshold ends with the tip there, has taken off exactly
  // the later blocks, last first, and leaves the cache linked.
  lemma {:induction false} RollbackReaches(db: Db<Block>, after: Slot, chain: Chain, i: nat, to: Point)
    requires Linked(db, after, chain) && i < |chain| && chain[i].slot > after && to == PointOf(chain[i])
    ensures RolledBack(db, to).1 == Reversed(chain[i + 1..])
    ensures Linked(RolledBack(db, to).0, after, chain[..i + 1]) && TipOf(RolledBack(db, to).0) == Some(to)
    decreases |chain|
  {
    var last := |chain| - 1;
    LinkedTip(db, after, chain);
    hide Linked, Popped, BlockAt, TipOf, RolledBack, Reversed;
    if i == last {
      RolledBackStop(db, to);
      NoLaterBlocks(chain, last);
    } else {
      var tip, prev := PointOf(chain[last]), PointOf(chain[last - 1]);
      var chain' := chain[..last];
      PopLinks(db, after, chain, last, tip, prev);
      RollbackReaches(Popped(db, tip, prev), after, chain', i, to);
      RolledBackStep(db, to, tip, LinkedBlock(chain[last], prev));
      LaterBlocks(chain, i, last);
    }
  }

  lemma NoBlockCached(db: Db<Block>, after: Slot)
    requires Linked(db, after, [])
    ensures BlockAt(db, Origin) == None
  {
    TipKeyFirst(Origin);
    hide PointKey, TipKey;
  }

  // Without a block a rollback changes nothing.
  lemma RolledBackNone(db: Db<Block>, after: Slot, to: Point)
    requires Linked(db, after, [])
    ensures RolledBack(db, to) == (db, [])
  {
    NoBlockCached(db, after);
    hide TipOf, BlockAt, Popped, HoldsChain, HoldsOnly;
  }

  // Every block is above the threshold, and none of them is the point.
  ghost predicate AllAfter(after: Slot, chain: Chain, to: Point) {
    forall i :: 0 <= i < |chain| ==> chain[i].slot > after && PointOf(chain[i]) != to
  }

  lemma NoneReversed(chain: Chain)
    requires chain == []
    ensures Reversed(chain) == []
  {
  }

  lemma AllReversed(chain: Chain, last: nat)
    requires |chain| == last + 1
    ensures Reversed(chain) == [chain[last]] + Reversed(chain[..last])
  {
  }

  // A rollback to a point before the first block takes off every block, last first.
  lemma {:induction false} RollbackEmpties(db: Db<Block>, after: Slot, chain: Chain, to: Point)
    requires Linked(db, after, chain) && AllAfter(after, chain, to)
    ensures RolledBack(db, to).1 == Reversed(chain) && Linked(RolledBack(db, to).0, after, [])
    decreases |chain|
  {
    hide Linked, Popped, BlockAt, TipOf, RolledBack, Reversed, Before;
    if chain == [] {
      RolledBackNone(db, after, to);
      NoneReversed(chain);
    } else {
      var last := |chain| - 1;
      var tip, prev := PointOf(chain[last]), Before(chain, last);
      PopLinks(db, after, chain, last, tip, prev);
      RollbackEmpties(Popped(db, tip, prev), after, chain[..last], to);
      RolledBackStep(db, to, tip, LinkedBlock(chain[last], prev));
      AllReversed(chain, last);
    }
  }

  // ----- the stack of applied transactions -----

  // What is applied after the events, or nothing when an event undoes something other than the last one.
  function StackAfter(stack: seq<LedgerTx>, events: seq<TxEvent>): Option<seq<LedgerTx>>
    decreases |events|
  {
    if events == [] then Some(stack)
    else
      match events[0]
      case TxApplied(tx) => StackAfter(stack + [tx], events[1..])
      case TxUnapplied(tx) =>
        if stack != [] && stack[|stack| - 1] == tx then StackAfter(stack[..|stack| - 1], events[1..]) else None
  }

  lemma {:induction false} StackSplits(stack: seq<LedgerTx>, a: seq<TxEvent>, b: seq<TxEvent>)
    requires StackAfter(stack, a).Some?
    ensures StackAfter(stack, a + b) == StackAfter(StackAfter(stack, a).value, b)
    decreases |a|
  {
    if a == [] {
      assert a + b == b;
    } else {
      assert (a + b)[1..] == a[1..] + b;
      match a[0]
      case TxApplied(tx) => StackSplits(stack + [tx], a[1..], b);
      case TxUnapplied(tx) => StackSplits(stack[..|stack| - 1], a[1..], b);
    }
  }

  lemma {:induction false} AppliesPush(stack: seq<LedgerTx>, txs: seq<LedgerTx>)
    ensures StackAfter(stack, Applies(txs)) == Some(stack + txs)
    decreases |txs|
  {
    if txs == [] {
      assert stack + txs == stack;
    } else {
      assert Applies(txs)[1..] == Applies(txs[1..]);
      AppliesPush(stack + [txs[0]], txs[1..]);
      assert stack + [txs[0]] + txs[1..] == stack + txs;
    }
  }

  lemma {:induction false} UnappliesPop(stack: seq<LedgerTx>, txs: seq<LedgerTx>)
    ensures StackAfter(stack + txs, Unapplies(txs)) == Some(stack)
    decreases |txs|
  {
    if txs == [] {
      assert stack + txs == stack;
    } else {
      var last := |txs| - 1;
      assert Unapplies(txs)[0] == TxUnapplied(txs[last]);
      assert Unapplies(txs)[1..] == Unapplies(txs[..last]);
      assert (stack + txs)[..|stack + txs| - 1] == stack + txs[..last];
      UnappliesPop(stack, txs[..last]);
    }
  }

  // The valid transactions of a chain, in order.
  ghost function Txs(chain: Chain): seq<LedgerTx> {
    if chain == [] then [] else Txs(chain[..|chain| - 1]) + ValidTransactions(chain[|chain| - 1])
  }

  // Undoing the last block of a chain after `undone` more have been undone.
  lemma UndoOne(stack: seq<LedgerTx>, undone: seq<TxEvent>, chain: Chain)
    requires chain != [] && StackAfter(stack, undone) == Some(Txs(chain))
    ensures StackAfter(stack, undone + Unapplies(ValidTransactions(chain[|chain| - 1]))) ==
      Some(Txs(chain[..|chain| - 1]))
  {
    hide ValidTransactions, StackAfter, Unapplies;
    var txs := ValidTransactions(chain[|chain| - 1]);
    StackSplits(stack, undone, Unapplies(txs));
    UnappliesPop(Txs(chain[..|chain| - 1]), txs);
  }

  lemma {:induction false} UndoPops(chain: Chain, blocks: seq<Block>)
    requires blocks <= Reversed(chain)
    ensures StackAfter(Txs(chain), UndoEvents(blocks)) == Some(Txs(chain[..|chain| - |blocks|]))
    decreases |blocks|
  {
    hide ValidTransactions, Txs, Unapplies;
    if blocks == [] {
      assert chain[..|chain|] == chain;
    } else {
      var n := |blocks| - 1;
      var rest := chain[..|chain| - n];
      UndoPops(chain, blocks[..n]);
      assert blocks[n] == rest[|rest| - 1];
      assert rest[..|rest| - 1] == chain[..|chain| - |blocks|];
      UndoOne(Txs(chain), UndoEvents(blocks[..n]), rest);
      hide StackAfter;
    }
  }

  // ----- runs -----

  // A rollback the follower handles: to a block of the chain above the threshold, or to the tip itself.
  ghost predicate RollsTo(after: Slot, chain: Chain, i: nat, p: Point, chain': Chain) {
    && i < |chain| && (chain[i].slot > after || i == |chain| - 1)
    && p == PointOf(chain[i]) && chain' == chain[..i + 1]
  }

  // A rollback to the point the node started from, above the threshold and before its first block.
  ghost predicate RollsOut(after: Slot, chain: Chain, p: Point, chain': Chain) {
    chain != [] && after < SlotOf(p) < chain[0].slot && chain' == []
  }

  // What the node may send when its chain is `chain`, and its chain afterwards: a block in a later slot,
  // or a rollback the follower handles; before the first block any rollback.
  ghost predicate NodeStep(after: Slot, chain: Chain, u: ChainUpgrade, chain': Chain) {
    match u
    case RollForward(b, replayed) =>
      !replayed && (chain == [] || chain[|chain| - 1].slot < b.slot) && chain' == chain + [b]
    case RollBackward(p) =>
      if chain == [] then chain' == []
      else RollsOut(after, chain, p, chain') || exists i :: RollsTo(after, chain, i, p, chain')
  }

  // A run of the node: its chain before and after every step.
  ghost predicate NodeRun(after: Slot, chains: seq<Chain>, us: seq<ChainUpgrade>) {
    && |chains| == |us| + 1
    && forall i :: 0 <= i < |us| ==> NodeStep(after, chains[i], us[i], chains[i + 1])
  }

  // The new cache and the events of a step, for the chain before and after it.
  ghost predicate StepOk(after: Slot, chain: Chain, db': Db<Block>, events: seq<TxEvent>, chain': Chain) {
    Linked(db', after, chain') && StackAfter(Txs(chain), events) == Some(Txs(chain'))
  }

  lemma BackStep(db: Db<Block>, after: Slot, chain: Chain, i: nat, p: Point, chain': Chain)
    requires Linked(db, after, chain) && RollsTo(after, chain, i, p, chain')
    ensures var r := Processed(db, RollBackward(p), after); StepOk(after, chain, r.0, r.1, chain')
  {
    if chain[i].slot > after {
      RollbackReaches(db, after, chain, i, p);
      hide Linked, RolledBack, UndoEvents, StackAfter, Txs, Reversed;
      UndoTo(chain, i);
    } else {
      assert chain' == chain;
      hide Linked, RolledBack, UndoEvents, Txs;
    }
  }

  lemma UndoWhole(chain: Chain)
    ensures StackAfter(Txs(chain), UndoEvents(Reversed(chain))) == Some(Txs([]))
  {
    hide StackAfter, Txs, UndoEvents;
    UndoPops(chain, Reversed(chain));
    assert chain[..|chain| - |Reversed(chain)|] == [];
  }

  lemma OutStep(db: Db<Block>, after: Slot, chain: Chain, p: Point, chain': Chain)
    requires Linked(db, after, chain) && RollsOut(after, chain, p, chain')
    ensures var r := Processed(db, RollBackward(p), after); StepOk(after, chain, r.0, r.1, chain')
  {
    assert AllAfter(after, chain, p) by { assert forall i :: 0 < i < |chain| ==> chain[0].slot < chain[i].slot; }
    hide Linked, RolledBack, UndoEvents, StackAfter, Txs, Reversed, AllAfter;
    RollbackEmpties(db, after, chain, p);
    UndoWhole(chain);
  }

  // A rollback at or below the threshold is refused: whatever the cache and the point, nothing changes and no event
  // is emitted, so what was applied stays applied.
  lemma RefusedRollback(db: Db<Block>, after: Slot, p: Point, stack: seq<LedgerTx>)
    requires SlotOf(p) <= after
    ensures Processed(db, RollBackward(p), after) == (db, [])
    ensures StackAfter(stack, Processed(db, RollBackward(p), after).1) == Some(stack)
  {
    hide RolledBack, UndoEvents;
  }

  // A rollback to a point before the first block empties the cache if and only if the point is above the threshold;
  // then every transaction is undone, and otherwise none.
  lemma StartExactlyWhen(db: Db<Block>, after: Slot, chain: Chain, p: Point)
    requires Linked(db, after, chain) && chain != [] && SlotOf(p) < chain[0].slot
    ensures Linked(Processed(db, RollBackward(p), after).0, after, []) <==> SlotOf(p) > after
    ensures StackAfter(Txs(chain), Processed(db, RollBackward(p), after).1) ==
      Some(if SlotOf(p) > after then [] else Txs(chain))
  {
    if SlotOf(p) > after {
      OutStep(db, after, chain, p, []);
      assert Txs([]) == [];
      hide Linked, Processed, StackAfter, Txs;
    } else {
      RefusedRollback(db, after, p, Txs(chain));
      LinkedTip(db, after, chain);
      hide HoldsChain, HoldsOnly, RolledBack, UndoEvents, Processed, StackAfter, Txs;
    }
  }

  // A rollback to a block of the chain leaves the cache linked to the chain up to that block if and only if
  // the block is above the threshold or is the tip already; then exactly the later blocks' transactions are undone,
  // and otherwise none.
  lemma RollbackExactlyWhen(db: Db<Block>, after: Slot, chain: Chain, i: nat)
    requires Linked(db, after, chain) && i < |chain|
    ensures Linked(Processed(db, RollBackward(PointOf(chain[i])), after).0, after, chain[..i + 1]) <==>
      chain[i].slot > after || i == |chain| - 1
    ensures StackAfter(Txs(chain), Processed(db, RollBackward(PointOf(chain[i])), after).1) ==
      Some(if chain[i].slot > after then Txs(chain[..i + 1]) else Txs(chain))
  {
    var to := PointOf(chain[i]);
    if chain[i].slot <= after { RefusedRollback(db, after, to, Txs(chain)); }
    if chain[i].slot > after || i == |chain| - 1 {
      assert RollsTo(after, chain, i, to, chain[..i + 1]);
      BackStep(db, after, chain, i, to, chain[..i + 1]);
      hide Linked, Processed, StackAfter, Txs;
    } else {
      LinkedTip(db, after, chain);
      hide HoldsChain, HoldsOnly, RolledBack, UndoEvents, StackAfter, Txs;
    }
  }

  lemma UndoTo(chain: Chain, i: nat)
    requires i < |chain|
    ensures StackAfter(Txs(chain), UndoEvents(Reversed(chain[i + 1..]))) == Some(Txs(chain[..i + 1]))
  {
    hide StackAfter, Txs, UndoEvents;
    var later := Reversed(chain[i + 1..]);
    assert later == Reversed(chain)[..|chain| - i - 1];
    UndoPops(chain, later);
  }

  lemma StepKeeps(db: Db<Block>, after: Slot, chain: Chain, u: ChainUpgrade, chain': Chain)
    requires Linked(db, after, chain) && NodeStep(after, chain, u, chain')
    ensures StepOk(after, chain, Processed(db, u, after).0, Processed(db, u, after).1, chain')
  {
    match u
    case RollForward(b, replayed) =>
      ForwardLinks(db, after, chain, b);
      AppliesPush(Txs(chain), ValidTransactions(b));
      assert chain'[..|chain|] == chain;
      hide Linked, Forwarded, Applies, ValidTransactions;
    case RollBackward(p) =>
      if chain == [] {
        RolledBackNone(db, after, p);
        hide Linked, RolledBack;
      } else if RollsOut(after, chain, p, chain') {
        OutStep(db, after, chain, p, chain');
        hide Linked, Processed, StepOk;
      } else {
        var i :| RollsTo(after, chain, i, p, chain');
        BackStep(db, after, chain, i, p, chain');
        hide Linked, Processed, StepOk;
      }
  }

  // Over every run of the node the cache stays linked to the node's chain, and the events, played on
  // the transactions of the chain at the start, give those of the chain at the end.
  lemma {:induction false} RunKeeps(db: Db<Block>, after: Slot, chains: seq<Chain>, us: seq<ChainUpgrade>)
    requires NodeRun(after, chains, us) && Linked(db, after, chains[0])
    ensures StepOk(after, chains[0], ProcessedAll(db, us, after).0, ProcessedAll(db, us, after).1, chains[|us|])
    decreases |us|
  {
    hide Linked, NodeStep, Processed, Txs;
    if us != [] {
      var n := |us| - 1;
      RunKeeps(db, after, chains[..n + 1], us[..n]);
      var before := ProcessedAll(db, us[..n], after);
      StepKeeps(before.0, after, chains[n], us[n], chains[n + 1]);
      StackSplits(Txs(chains[0]), before.1, Processed(before.0, us[n], after).1);
    }
  }

  // From an empty cache the events alone rebuild the valid transactions of the node's chain.
  lemma FreshRun(after: Slot, chains: seq<Chain>, us: seq<ChainUpgrade>)
    requires NodeRun(after, chains, us) && chains[0] == []
    ensures Linked(ProcessedAll(map[], us, after).0, after, chains[|us|])
    ensures StackAfter([], ProcessedAll(map[], us, after).1) == Some(Txs(chains[|us|]))
  {
    assert Linked(map[], after, []);
    assert Txs([]) == [];
    RunKeeps(map[], after, chains, us);
    hide Linked, ProcessedAll, StackAfter, Txs;
  }
}
