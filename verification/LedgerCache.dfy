/**
 The block cache of the chain follower: a byte-ordered key-value store holding the tip under one key
 and linked blocks under keys built from their points.
 */
module LedgerCaches {
  import opened Bytes

  type Slot = U64

  datatype Point = Origin | Specific(slot: Slot, hash: Hash32)

  function SlotOf(p: Point): Slot {
    if p.Origin? then 0 else p.slot
  }

  function HashOf(p: Point): Bytes {
    if p.Origin? then [] else p.hash
  }

  // ----- keys -----

  function TipKey(): Bytes { [97, 58] }
  function PointPrefix(): Bytes { [98, 58] }

  function BigEndian(n: nat, width: nat): (r: Bytes)
    ensures |r| == width
  {
    if width == 0 then [] else BigEndian(n / 256, width - 1) + [n % 256]
  }

  function PointKey(p: Point): Bytes {
    PointPrefix() + BigEndian(SlotOf(p), 8) + HashOf(p)
  }

  ghost function Capacity(width: nat): nat {
    if width == 0 then 1 else 256 * Capacity(width - 1)
  }

  lemma EightBytes()
    ensures Capacity(8) == 0x1_0000_0000_0000_0000
  {
    assert Capacity(4) == 0x1_0000_0000;
    assert Capacity(6) == 0x1_0000_0000_0000;
  }

  // Numbers first, then what follows them.
  lemma {:induction false} BigEndianOrder(n: nat, m: nat, width: nat, a: Bytes, b: Bytes)
    requires n < Capacity(width) && m < Capacity(width)
    ensures LexLeq(BigEndian(n, width) + a, BigEndian(m, width) + b) <==> n < m || (n == m && LexLeq(a, b))
  {
    if width == 0 {
      assert BigEndian(n, width) + a == a && BigEndian(m, width) + b == b;
    } else {
      var a', b' := [n % 256] + a, [m % 256] + b;
      assert BigEndian(n, width) + a == BigEndian(n / 256, width - 1) + a';
      assert BigEndian(m, width) + b == BigEndian(m / 256, width - 1) + b';
      BigEndianOrder(n / 256, m / 256, width - 1, a', b');
      assert a'[1..] == a && b'[1..] == b;
    }
  }

  ghost predicate PointLeq(p: Point, q: Point) {
    SlotOf(p) < SlotOf(q) || (SlotOf(p) == SlotOf(q) && LexLeq(HashOf(p), HashOf(q)))
  }

  lemma PrefixOrder(prefix: Bytes, a: Bytes, b: Bytes)
    ensures LexLeq(prefix + a, prefix + b) <==> LexLeq(a, b)
  {
    if prefix == [] {
      assert prefix + a == a && prefix + b == b;
    } else {
      assert (prefix + a)[1..] == prefix[1..] + a && (prefix + b)[1..] == prefix[1..] + b;
      PrefixOrder(prefix[1..], a, b);
    }
  }

  // The byte order of keys is the order of points by slot, then hash.
  lemma KeyOrder(p: Point, q: Point)
    ensures LexLeq(PointKey(p), PointKey(q)) <==> PointLeq(p, q)
  {
    var a, b := BigEndian(SlotOf(p), 8) + HashOf(p), BigEndian(SlotOf(q), 8) + HashOf(q);
    assert PointKey(p) == PointPrefix() + a && PointKey(q) == PointPrefix() + b;
    PrefixOrder(PointPrefix(), a, b);
    EightBytes();
    BigEndianOrder(SlotOf(p), SlotOf(q), 8, HashOf(p), HashOf(q));
  }

  // Two points share a key only when they are equal, and no point has the tip's key.
  lemma KeyInjective(p: Point, q: Point)
    requires PointKey(p) == PointKey(q)
    ensures p == q
  {
    LexTotal(PointKey(p), PointKey(q));
    KeyOrder(p, q);
    KeyOrder(q, p);
    LexAntisymmetric(HashOf(p), HashOf(q));
  }

  lemma TipKeyFirst(p: Point)
    ensures PointKey(p) != TipKey() && !LexLeq(PointKey(p), TipKey())
  {
    assert PointKey(p)[0] == 98;
  }

  // ----- the store -----

  // A block is kept together with the point before it.
  datatype LinkedBlock<+B> = LinkedBlock(block: B, prev: Point)

  datatype DbValue<+B> = TipValue(point: Point) | BlockValue(linked: LinkedBlock<B>)

  type Db<B> = map<Bytes, DbValue<B>>

  function TipOf<B>(db: Db<B>): Option<Point> {
    if TipKey() in db && db[TipKey()].TipValue? then Some(db[TipKey()].point) else None
  }

  function WithTip<B>(db: Db<B>, p: Point): Db<B> {
    db[TipKey() := TipValue(p)]
  }

  function BlockAt<B>(db: Db<B>, p: Point): Option<LinkedBlock<B>> {
    if PointKey(p) in db && db[PointKey(p)].BlockValue? then Some(db[PointKey(p)].linked) else None
  }

  function WithBlock<B>(db: Db<B>, p: Point, l: LinkedBlock<B>): Db<B> {
    db[PointKey(p) := BlockValue(l)]
  }

  function Without<B>(db: Db<B>, p: Point): Db<B> {
    db - {PointKey(p)}
  }

  // The blocks under the given keys, in their order; other values are passed over.
  ghost function BlocksUnder<B>(db: Db<B>, keys: seq<Bytes>): seq<LinkedBlock<B>>
    requires forall k :: k in keys ==> k in db
  {
    if keys == [] then []
    else
      var last := |keys| - 1;
      BlocksUnder(db, keys[..last]) + if db[keys[last]].BlockValue? then [db[keys[last]].linked] else []
  }

  function KeysFrom<B>(db: Db<B>, key: Bytes): set<Bytes> {
    set k | k in db && LexLeq(key, k)
  }

  ghost function Replayed<B>(db: Db<B>, from: Point): seq<LinkedBlock<B>> {
    BlocksUnder(db, SortedKeys(KeysFrom(db, PointKey(from))))
  }

  class LedgerCache<B> {
    var db: Db<B>

    constructor ()
      ensures db == map[]
    {
      db := map[];
    }

    method SetTip(p: Point)
      modifies this
      ensures db == WithTip(old(db), p)
    {
      db := db[TipKey() := TipValue(p)];
    }

    method GetTip() returns (tip: Option<Point>)
      ensures tip == TipOf(db)
    {
      tip := if TipKey() in db && db[TipKey()].TipValue? then Some(db[TipKey()].point) else None;
    }

    method PutBlock(p: Point, l: LinkedBlock<B>)
      modifies this
      ensures db == WithBlock(old(db), p, l)
    {
      db := db[PointKey(p) := BlockValue(l)];
    }

    method GetBlock(p: Point) returns (l: Option<LinkedBlock<B>>)
      ensures l == BlockAt(db, p)
    {
      var key := PointKey(p);
      l := if key in db && db[key].BlockValue? then Some(db[key].linked) else None;
    }

    method Delete(p: Point)
      modifies this
      ensures db == Without(old(db), p)
    {
      db := db - {PointKey(p)};
    }

    // Every block from the given point on, in key order.
    method Replay(from: Point) returns (blocks: seq<LinkedBlock<B>>)
      ensures blocks == Replayed(db, from)
    {
      var keys := SortedKeys(KeysFrom(db, PointKey(from)));
      assert forall k :: k in keys ==> k in db;
      hide LexLeq, SortedKeys, Ascending, KeysFrom, PointKey;
      blocks := [];
      for i := 0 to |keys|
        invariant blocks == BlocksUnder(db, keys[..i])
      {
        assert keys[i] in keys;
        assert keys[..i + 1][..i] == keys[..i];
        if db[keys[i]].BlockValue? {
          blocks := blocks + [db[keys[i]].linked];
        }
      }
      assert keys[..|keys|] == keys;
    }
  }

  // ----- one order -----

  lemma {:induction false} AscendingUnique(a: seq<Bytes>, b: seq<Bytes>)
    requires Ascending(a) && Ascending(b) && forall k :: k in a <==> k in b
    ensures a == b
  {
    if a == [] {
      NoElements(b);
    } else if b == [] {
      NoElements(a);
    } else {
      FirstOf(a, b);
      FirstOf(b, a);
      LexAntisymmetric(a[0], b[0]);
      assert a == [a[0]] + a[1..] && b == [b[0]] + b[1..];
      assert forall k :: k in a[1..] <==> k in a && k != a[0];
      assert forall k :: k in b[1..] <==> k in b && k != b[0];
      AscendingUnique(a[1..], b[1..]);
    }
  }

  lemma NoElements(a: seq<Bytes>)
    requires forall k :: k !in a
    ensures a == []
  {
    HasElement(a);
  }

  lemma HasElement(a: seq<Bytes>)
    ensures a == [] || exists k :: k in a
  {
    if a != [] { assert a[0] in a; }
  }

  lemma FirstOf(a: seq<Bytes>, b: seq<Bytes>)
    requires Ascending(a) && b != [] && a != [] && b[0] in a
    ensures LexLeq(a[0], b[0])
  {
    LexTotal(a[0], a[0]);
  }
}
