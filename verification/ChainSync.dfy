/**
 Following the chain: blocks become transaction events, and the cache of linked blocks lets a rollback
 be turned into undo events.
 */
module ChainSync {
  import opened Bytes
  import opened LedgerCaches

  datatype Era = Babbage | Conway | Other

  type U16 = n: int | 0 <= n < 65536

  // A block with its header's slot, number and hash, its transaction parts, the auxiliary data by
  // transaction index, and the indices of transactions that failed.
  datatype Block = Block(
    era: Era, slot: Slot, number: nat, hash: Hash32,
    bodies: seq<Bytes>, witnesses: seq<Bytes>, aux: map<U16, Bytes>, invalid: seq<U16>)

  datatype Transaction = Transaction(era: Era, body: Bytes, witnesses: Bytes, aux: Option<Bytes>)

  datatype LedgerTx = LedgerTx(tx: Transaction, slot: Slot, number: nat, hash: Hash32)

  datatype TxEvent = TxApplied(tx: LedgerTx) | TxUnapplied(tx: LedgerTx)

  datatype ChainUpgrade = RollForward(blk: Block, replayed: bool) | RollBackward(point: Point)

  function PointOf(b: Block): Point {
    Specific(b.slot, b.hash)
  }

  // ----- the transactions of a block -----

  function TxCount(b: Block): nat {
    if |b.bodies| <= |b.witnesses| then |b.bodies| else |b.witnesses|
  }

  // An index cut to 16 bits.
  function Cut(i: nat): U16 {
    i % 65536
  }

  // Indices are cut to 16 bits, and auxiliary data is taken out of the block as it is handed out.
  function UnpackFrom(b: Block, i: nat, aux: map<U16, Bytes>): seq<LedgerTx>
    decreases TxCount(b) - i
  {
    if i >= TxCount(b) then []
    else if Cut(i) in b.invalid then UnpackFrom(b, i + 1, aux)
    else
      var data := if Cut(i) in aux then Some(aux[Cut(i)]) else None;
      [LedgerTx(Transaction(b.era, b.bodies[i], b.witnesses[i], data), b.slot, b.number, b.hash)] +
      UnpackFrom(b, i + 1, aux - {Cut(i)})
  }

  function ValidTransactions(b: Block): seq<LedgerTx> {
    if b.era.Other? then [] else UnpackFrom(b, 0, b.aux)
  }

  // The transaction at an index, with the auxiliary data filed under that index.
  ghost function TxAt(b: Block, i: nat): LedgerTx
    requires i < TxCount(b)
  {
    var data := if i in b.aux then Some(b.aux[i]) else None;
    LedgerTx(Transaction(b.era, b.bodies[i], b.witnesses[i], data), b.slot, b.number, b.hash)
  }

  // The positions, in order, of the transactions that did not fail.
  ghost function ValidPositions(b: Block, i: nat): seq<nat>
    decreases TxCount(b) - i
  {
    if i >= TxCount(b) then []
    else if i in b.invalid then ValidPositions(b, i + 1)
    else [i] + ValidPositions(b, i + 1)
  }

  lemma {:induction false} PositionsInOrder(b: Block, i: nat)
    ensures forall j, k :: 0 <= j < k < |ValidPositions(b, i)| ==> ValidPositions(b, i)[j] < ValidPositions(b, i)[k]
    ensures forall p :: p in ValidPositions(b, i) <==> i <= p < TxCount(b) && p !in b.invalid
    decreases TxCount(b) - i
  {
    if i < TxCount(b) {
      PositionsInOrder(b, i + 1);
      var rest := ValidPositions(b, i + 1);
      if i in b.invalid {
        assert ValidPositions(b, i) == rest;
      } else {
        assert ValidPositions(b, i) == [i] + rest;
        assert forall k :: 0 <= k < |rest| ==> rest[k] in rest;
        assert forall p :: p in [i] + rest <==> p == i || p in rest;
      }
    }
  }

  // No transaction past the 16-bit range shares its cut index with a failed one.
  ghost predicate IndicesFit(b: Block) {
    forall i :: 65536 <= i < TxCount(b) ==> Cut(i) !in b.invalid
  }

  // The auxiliary data left when position `i` is reached.
  ghost predicate AuxLeft(b: Block, i: nat, aux: map<U16, Bytes>) {
    && aux.Keys <= b.aux.Keys
    && (forall k :: k in b.aux && i <= k ==> k in aux && aux[k] == b.aux[k])
    && (forall k :: k in aux && k < i ==> k in b.invalid)
  }

  ghost predicate Matches(b: Block, txs: seq<LedgerTx>, positions: seq<nat>) {
    |txs| == |positions| && forall j :: 0 <= j < |positions| ==>
      positions[j] < TxCount(b) && txs[j] == TxAt(b, positions[j])
  }

  lemma OneUnpacked(b: Block, i: nat, aux: map<U16, Bytes>)
    requires i < TxCount(b) && Cut(i) !in b.invalid && AuxLeft(b, i, aux)
    ensures UnpackFrom(b, i, aux) == [TxAt(b, i)] + UnpackFrom(b, i + 1, aux - {Cut(i)})
    ensures AuxLeft(b, i + 1, aux - {Cut(i)})
    ensures ValidPositions(b, i) == [i] + ValidPositions(b, i + 1)
  {
    assert i !in b.invalid;
  }

  lemma MatchesMore(b: Block, i: nat, txs: seq<LedgerTx>, positions: seq<nat>)
    requires i < TxCount(b) && Matches(b, txs, positions)
    ensures Matches(b, [TxAt(b, i)] + txs, [i] + positions)
  {
    hide TxAt;
  }

  lemma {:induction false} UnpacksValid(b: Block, i: nat, aux: map<U16, Bytes>)
    requires IndicesFit(b) && AuxLeft(b, i, aux)
    ensures Matches(b, UnpackFrom(b, i, aux), ValidPositions(b, i))
    decreases TxCount(b) - i
  {
    hide TxAt, Matches, UnpackFrom, ValidPositions;
    if i >= TxCount(b) {
      NothingUnpacked(b, i, aux);
    } else if i in b.invalid {
      OneSkipped(b, i, aux);
      UnpacksValid(b, i + 1, aux);
    } else {
      assert Cut(i) !in b.invalid;
      OneUnpacked(b, i, aux);
      hide AuxLeft, IndicesFit;
      UnpacksValid(b, i + 1, aux - {Cut(i)});
      MatchesMore(b, i, UnpackFrom(b, i + 1, aux - {Cut(i)}), ValidPositions(b, i + 1));
    }
  }

  lemma OneSkipped(b: Block, i: nat, aux: map<U16, Bytes>)
    requires i < TxCount(b) && i in b.invalid && AuxLeft(b, i, aux)
    ensures UnpackFrom(b, i, aux) == UnpackFrom(b, i + 1, aux) && ValidPositions(b, i) == ValidPositions(b, i + 1)
    ensures AuxLeft(b, i + 1, aux)
  {
    assert Cut(i) == i;
  }

  lemma NothingUnpacked(b: Block, i: nat, aux: map<U16, Bytes>)
    requires i >= TxCount(b)
    ensures Matches(b, UnpackFrom(b, i, aux), ValidPositions(b, i))
  {
  }

  // How many transactions are given, whatever auxiliary data is left.
  ghost function Given(b: Block, i: nat): nat
    decreases TxCount(b) - i
  {
    if i >= TxCount(b) then 0 else Given(b, i + 1) + if Cut(i) in b.invalid then 0 else 1
  }

  lemma {:induction false} UnpacksGiven(b: Block, i: nat, aux: map<U16, Bytes>)
    ensures |UnpackFrom(b, i, aux)| == Given(b, i)
    decreases TxCount(b) - i
  {
    hide Cut;
    if i < TxCount(b) {
      if Cut(i) in b.invalid { UnpacksGiven(b, i + 1, aux); } else { UnpacksGiven(b, i + 1, aux - {Cut(i)}); }
    }
  }

  // A transaction past the range that shares its cut index with a failed one is lost.
  lemma {:induction false} GivesFewer(b: Block, i: nat, k: nat)
    requires 65536 <= k < TxCount(b) && Cut(k) in b.invalid
    ensures Given(b, i) <= |ValidPositions(b, i)|
    ensures i <= k ==> Given(b, i) < |ValidPositions(b, i)|
    decreases TxCount(b) - i
  {
    if i < TxCount(b) {
      GivesFewer(b, i + 1, k);
      if i < 65536 { assert Cut(i) == i; } else { assert i !in b.invalid; }
    }
  }

  // A block gives exactly the transactions that did not fail, in block order and each with its own
  // auxiliary data, if and only if none past the 16-bit range shares its cut index with a failed one.
  // A block of another era gives none.
  lemma BlockGivesValid(b: Block) returns (positions: seq<nat>)
    ensures forall j, k :: 0 <= j < k < |positions| ==> positions[j] < positions[k]
    ensures forall p :: p in positions <==> 0 <= p < TxCount(b) && p !in b.invalid
    ensures !b.era.Other? ==> (Matches(b, ValidTransactions(b), positions) <==> IndicesFit(b))
    ensures !b.era.Other? && TxCount(b) <= 65536 ==> Matches(b, ValidTransactions(b), positions)
    ensures b.era.Other? ==> ValidTransactions(b) == []
  {
    if TxCount(b) <= 65536 { SmallBlockFits(b); }
    positions := ValidPositions(b, 0);
    PositionsInOrder(b, 0);
    if IndicesFit(b) {
      UnpacksValid(b, 0, b.aux);
    } else {
      var k :| 65536 <= k < TxCount(b) && Cut(k) in b.invalid;
      UnpacksGiven(b, 0, b.aux);
      GivesFewer(b, 0, k);
    }
  }

  // In a block of 65537 transactions whose first one failed, the last one did not fail and is lost as well.
  lemma LargeBlockLosesOne(hash: Hash32) returns (b: Block)
    ensures !b.era.Other? && TxCount(b) == 65537 && b.invalid == [0]
    ensures 65536 in ValidPositions(b, 0) && |ValidTransactions(b)| < |ValidPositions(b, 0)| && !IndicesFit(b)
  {
    b := Block(Conway, 0, 0, hash, seq(65537, _ => []), seq(65537, _ => []), map[], [0]);
    LostIn(b);
  }

  lemma LostIn(b: Block)
    requires !b.era.Other? && TxCount(b) == 65537 && b.invalid == [0]
    ensures 65536 in ValidPositions(b, 0) && |ValidTransactions(b)| < |ValidPositions(b, 0)| && !IndicesFit(b)
  {
    assert Cut(65536) in b.invalid;
    PositionsInOrder(b, 0);
    UnpacksGiven(b, 0, b.aux);
    GivesFewer(b, 0, 65536);
    hide ValidPositions, UnpackFrom, Given;
  }

  // Every block of at most 65536 transactions fits.
  lemma SmallBlockFits(b: Block)
    requires TxCount(b) <= 65536
    ensures IndicesFit(b)
  {
  }

  function Applies(txs: seq<LedgerTx>): seq<TxEvent> {
    seq(|txs|, i requires 0 <= i < |txs| => TxApplied(txs[i]))
  }

  // The undo events of a block: its transactions, last first.
  function Unapplies(txs: seq<LedgerTx>): seq<TxEvent> {
    seq(|txs|, i requires 0 <= i < |txs| => TxUnapplied(txs[|txs| - 1 - i]))
  }

  // The undo events of blocks in the order they are taken off the chain.
  function UndoEvents(blocks: seq<Block>): seq<TxEvent> {
    if blocks == [] then [] else UndoEvents(blocks[..|blocks| - 1]) + Unapplies(ValidTransactions(blocks[|blocks| - 1]))
  }

  // ----- the cache -----

  function PrevPoint(db: Db<Block>): Point {
    match TipOf(db)
    case None => Origin
    case Some(tip) => tip
  }

  function Forwarded(db: Db<Block>, b: Block, after: Slot): Db<Block> {
    if b.slot > after then WithBlock(WithTip(db, PointOf(b)), PointOf(b), LinkedBlock(b, PrevPoint(db)))
    else WithTip(db, PointOf(b))
  }

  // One block off the tip.
  function Popped(db: Db<Block>, tip: Point, prev: Point): Db<Block> {
    WithTip(Without(db, tip), prev)
  }

  lemma PoppedSmaller(db: Db<Block>, tip: Point, prev: Point)
    requires TipOf(db) == Some(tip) && BlockAt(db, tip).Some?
    ensures |Popped(db, tip, prev)| < |db|
  {
    TipKeyFirst(tip);
    assert Popped(db, tip, prev).Keys == db.Keys - {PointKey(tip)};
  }

  // Taking blocks off the tip until it is the given point or no block is cached at it.
  function RolledBack(db: Db<Block>, to: Point): (Db<Block>, seq<Block>)
    decreases |db|
  {
    if TipOf(db).None? || TipOf(db).value == to then (db, [])
    else
      var tip := TipOf(db).value;
      match BlockAt(db, tip)
      case None => (db, [])
      case Some(l) =>
        PoppedSmaller(db, tip, l.prev);
        var rest := RolledBack(Popped(db, tip, l.prev), to);
        (rest.0, [l.block] + rest.1)
  }

  function Processed(db: Db<Block>, u: ChainUpgrade, after: Slot): (Db<Block>, seq<TxEvent>) {
    match u
    case RollForward(b, replayed) => (if replayed then db else Forwarded(db, b, after), Applies(ValidTransactions(b)))
    case RollBackward(p) =>
      if SlotOf(p) > after then (RolledBack(db, p).0, UndoEvents(RolledBack(db, p).1)) else (db, [])
  }

  ghost function ProcessedAll(db: Db<Block>, us: seq<ChainUpgrade>, after: Slot): (Db<Block>, seq<TxEvent>) {
    if us == [] then (db, [])
    else
      var before := ProcessedAll(db, us[..|us| - 1], after);
      var step := Processed(before.0, us[|us| - 1], after);
      (step.0, before.1 + step.1)
  }

  method CacheBlock(cache: LedgerCache<Block>, b: Block)
    modifies cache
    ensures cache.db ==
      WithBlock(WithTip(old(cache.db), PointOf(b)), PointOf(b), LinkedBlock(b, PrevPoint(old(cache.db))))
  {
    var tip := cache.GetTip();
    var prev := if tip.Some? then tip.value else Origin;
    cache.SetTip(PointOf(b));
    cache.PutBlock(PointOf(b), LinkedBlock(b, prev));
  }

  method CachePoint(cache: LedgerCache<Block>, b: Block)
    modifies cache
    ensures cache.db == WithTip(old(cache.db), PointOf(b))
  {
    cache.SetTip(PointOf(b));
  }

  method Rollback(cache: LedgerCache<Block>, to: Point) returns (blocks: seq<Block>)
    modifies cache
    ensures (cache.db, blocks) == RolledBack(old(cache.db), to)
  {
    hide TipOf, BlockAt, WithTip, Without;
    blocks := [];
    assert blocks + RolledBack(cache.db, to).1 == RolledBack(cache.db, to).1;
    while true
      invariant RolledBack(old(cache.db), to) == (RolledBack(cache.db, to).0, blocks + RolledBack(cache.db, to).1)
      decreases |cache.db|
    {
      var tip := cache.GetTip();
      if tip.Some? && tip.value != to {
        var l := cache.GetBlock(tip.value);
        if l.Some? {
          PoppedSmaller(cache.db, tip.value, l.value.prev);
          cache.Delete(tip.value);
          cache.SetTip(l.value.prev);
          ghost var rest := RolledBack(cache.db, to).1;
          assert blocks + ([l.value.block] + rest) == blocks + [l.value.block] + rest;
          blocks := blocks + [l.value.block];
          continue;
        }
      }
      assert RolledBack(cache.db, to).1 == [];
      assert blocks + [] == blocks;
      break;
    }
  }

  method ProcessUpstreamByTxs(cache: LedgerCache<Block>, u: ChainUpgrade, after: Slot) returns (events: seq<TxEvent>)
    modifies cache
    ensures (cache.db, events) == Processed(old(cache.db), u, after)
  {
    hide ValidTransactions, RolledBack;
    match u
    case RollForward(b, replayed) =>
      if !replayed {
        if b.slot > after { CacheBlock(cache, b); } else { CachePoint(cache, b); }
      }
      return Applies(ValidTransactions(b));
    case RollBackward(p) =>
      if SlotOf(p) <= after { return []; }
      var blocks := Rollback(cache, p);
      events := [];
      for i := 0 to |blocks|
        invariant events == UndoEvents(blocks[..i])
      {
        assert blocks[..i + 1][..i] == blocks[..i];
        events := events + Unapplies(ValidTransactions(blocks[i]));
      }
      assert blocks[..|blocks|] == blocks;
  }

  // Known blocks again first, then what the node sends.
  function Upstream(replayed: seq<LinkedBlock<Block>>, us: seq<ChainUpgrade>): seq<ChainUpgrade> {
    seq(|replayed|, i requires 0 <= i < |replayed| => RollForward(replayed[i].block, true)) + us
  }

  method LedgerTransactions(
    cache: LedgerCache<Block>, us: seq<ChainUpgrade>, after: Slot, from: Option<Point>) returns (events: seq<TxEvent>)
    modifies cache
    ensures (cache.db, events) ==
      ProcessedAll(old(cache.db), Upstream(if from.Some? then Replayed(old(cache.db), from.value) else [], us), after)
  {
    hide Processed, Replayed;
    var replayed := [];
    if from.Some? { replayed := cache.Replay(from.value); }
    var all := Upstream(replayed, us);
    events := [];
    for i := 0 to |all|
      invariant (cache.db, events) == ProcessedAll(old(cache.db), all[..i], after)
    {
      assert all[..i + 1][..i] == all[..i];
      var more := ProcessUpstreamByTxs(cache, all[i], after);
      events := events + more;
    }
    assert all[..|all|] == all;
  }
}
