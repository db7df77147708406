/**
 Loading the mirrored state at a restart, and undoing observations.
 */
module GraduationUndo {
  import opened Bytes
  import opened Ledger
  import opened GraduationText
  import opened Graduation
  import opened GraduationMirror

  // ----- loading -----

  // What one key and value add to the state; a key of another kind is passed over.
  function LoadOne(m: Memory, k: string, v: string): Option<Memory> {
    if "graduated:" <= k then
      match ParseToken(k[10..])
      case Some(t) => Some(m.(graduated := m.graduated + {t}))
      case None => None
    else if "snek-input:" <= k then
      match (ParseRef(k[11..]), ParseToken(v))
      case (Some(r), Some(t)) => Some(m.(inputs := m.inputs[r := t]))
      case _ => None
    else if "journal:" <= k then
      match (ParseTxHash(k[8..]), ParseEntry(v))
      case (Some(tx), Some(e)) => Some(m.(journal := m.journal[tx := e]))
      case _ => None
    else Some(m)
  }

  predicate Readable(k: string, v: string) {
    LoadOne(EMPTY_MEMORY, k, v).Some?
  }

  lemma ReadableAnywhere(m: Memory, k: string, v: string)
    ensures LoadOne(m, k, v).Some? <==> Readable(k, v)
  {
    hide ParseToken, ParseRef, ParseTxHash, ParseEntry;
  }

  // The part of a state whose keys have been read.
  ghost predicate Part(p: Memory, m: Memory, done: set<string>) {
    && (forall t :: t in p.graduated <==> t in m.graduated && PoolKey(t) in done)
    && (forall r :: r in p.inputs <==> r in m.inputs && InputKey(r) in done)
    && (forall r :: r in p.inputs ==> r in m.inputs && p.inputs[r] == m.inputs[r])
    && (forall tx: TxHash :: tx in p.journal <==> tx in m.journal && JournalKey(tx) in done)
    && (forall tx: TxHash :: tx in p.journal ==> tx in m.journal && p.journal[tx] == m.journal[tx])
  }

  lemma LoadPool(p: Memory, t: Token, v: string)
    ensures LoadOne(p, PoolKey(t), v) == Some(p.(graduated := p.graduated + {t}))
  {
    TokenRoundTrip(t);
    assert PoolKey(t)[10..] == TokenText(t);
    hide ParseToken, ParseRef, ParseTxHash, ParseEntry, TokenText;
  }

  lemma LoadInput(p: Memory, r: OutputRef, t: Token)
    ensures LoadOne(p, InputKey(r), TokenText(t)) == Some(p.(inputs := p.inputs[r := t]))
  {
    RefRoundTrip(r);
    TokenRoundTrip(t);
    var k := InputKey(r);
    assert k[11..] == RefText(r) && k[0] == 's';
    hide ParseToken, ParseRef, ParseTxHash, ParseEntry, TokenText, RefText;
  }

  lemma LoadEntry(p: Memory, tx: TxHash, e: Entry)
    ensures LoadOne(p, JournalKey(tx), EntryText(e)) == Some(p.(journal := p.journal[tx := e]))
  {
    TxHashRoundTrip(tx);
    EntryRoundTrip(e);
    var k := JournalKey(tx);
    assert k[8..] == Hex(tx) && k[0] == 'j';
    hide ParseToken, ParseRef, ParseTxHash, ParseEntry, EntryText, Hex;
  }

  lemma PartPool(p: Memory, m: Memory, done: set<string>, t: Token)
    requires Part(p, m, done) && t in m.graduated
    ensures Part(p.(graduated := p.graduated + {t}), m, done + {PoolKey(t)})
  {
    PoolKeys(t);
    hide PoolKey, InputKey, JournalKey;
  }

  lemma PartInput(p: Memory, m: Memory, done: set<string>, r: OutputRef)
    requires Part(p, m, done) && r in m.inputs
    ensures Part(p.(inputs := p.inputs[r := m.inputs[r]]), m, done + {InputKey(r)})
  {
    InputKeys(r);
    hide PoolKey, InputKey, JournalKey;
  }

  lemma PartEntry(p: Memory, m: Memory, done: set<string>, tx: TxHash)
    requires Part(p, m, done) && tx in m.journal
    ensures Part(p.(journal := p.journal[tx := m.journal[tx]]), m, done + {JournalKey(tx)})
  {
    JournalKeys(tx);
    hide PoolKey, InputKey, JournalKey;
  }

  lemma LoadStep(db: Db, m: Memory, done: set<string>, p: Memory, k: string)
    requires Mirrors(db, m) && Part(p, m, done) && k in db
    ensures LoadOne(p, k, db[k]).Some? && Part(LoadOne(p, k, db[k]).value, m, done + {k})
  {
    hide LoadOne, Part, PoolKey, InputKey, JournalKey, EntryText, TokenText;
    if t :| k == PoolKey(t) {
      LoadPool(p, t, db[k]);
      PartPool(p, m, done, t);
    } else if r :| k == InputKey(r) {
      LoadInput(p, r, m.inputs[r]);
      PartInput(p, m, done, r);
    } else {
      assert OwnKey(k);
      var tx: TxHash :| k == JournalKey(tx);
      LoadEntry(p, tx, m.journal[tx]);
      PartEntry(p, m, done, tx);
    }
  }

  lemma PartNone(m: Memory)
    ensures Part(EMPTY_MEMORY, m, {})
  {
  }

  lemma PartAll(db: Db, m: Memory, p: Memory)
    requires Mirrors(db, m) && Part(p, m, db.Keys)
    ensures p == m
  {
    hide PoolKey, InputKey, JournalKey, EntryText, TokenText;
    assert p.graduated == m.graduated && p.inputs == m.inputs && p.journal == m.journal;
  }

  // A key of none of the three kinds.
  predicate Foreign(k: string) {
    !("graduated:" <= k) && !("snek-input:" <= k) && !("journal:" <= k)
  }

  // The store without the keys of other kinds.
  ghost function OwnPart(db: Db): Db {
    map k | k in db && !Foreign(k) :: db[k]
  }

  lemma OwnKeysOf(db: Db)
    ensures OwnPart(db).Keys <= db.Keys
  {
  }

  // A store that mirrors a state has no other keys.
  lemma MirrorsOwn(db: Db, m: Memory)
    requires Mirrors(db, m)
    ensures OwnPart(db) == db
  {
    hide EntryText, TokenText, RefText, Hex;
    forall k | k in db
      ensures !Foreign(k)
    {
      assert OwnKey(k);
    }
  }

  lemma ForeignPasses(p: Memory, k: string, v: string)
    requires Foreign(k)
    ensures LoadOne(p, k, v) == Some(p)
  {
  }

  // One more key read, of whatever kind.
  lemma LoadNext(db: Db, m: Memory, todo: set<string>, p: Memory, k: string)
    requires Mirrors(OwnPart(db), m) && k in todo && todo <= db.Keys && Part(p, m, OwnPart(db).Keys - todo)
    ensures LoadOne(p, k, db[k]).Some? && Part(LoadOne(p, k, db[k]).value, m, OwnPart(db).Keys - (todo - {k}))
  {
    hide Mirrors, Part, LoadOne, Foreign;
    if Foreign(k) {
      ForeignPasses(p, k, db[k]);
      assert OwnPart(db).Keys - todo == OwnPart(db).Keys - (todo - {k});
    } else {
      LoadStep(OwnPart(db), m, OwnPart(db).Keys - todo, p, k);
      assert OwnPart(db).Keys - todo + {k} == OwnPart(db).Keys - (todo - {k});
    }
  }

  // Reading the keys in any order: refused exactly when some entry is unreadable, and the mirrored
  // state when the store, its keys of other kinds aside, mirrors one.
  method LoadState(db: Db, ghost m: Memory) returns (r: Option<Memory>)
    ensures r.Some? <==> forall k :: k in db ==> Readable(k, db[k])
    ensures Mirrors(OwnPart(db), m) ==> r == Some(m)
    ensures Mirrors(db, m) ==> r == Some(m)
  {
    hide Mirrors, Part, LoadOne, Readable, OwnPart;
    if Mirrors(db, m) { MirrorsOwn(db, m); }
    var p := EMPTY_MEMORY;
    var todo := db.Keys;
    PartNone(m);
    OwnKeysOf(db);
    assert OwnPart(db).Keys - todo == {};
    while todo != {}
      invariant todo <= db.Keys && forall k :: k in db.Keys - todo ==> Readable(k, db[k])
      invariant Mirrors(OwnPart(db), m) ==> Part(p, m, OwnPart(db).Keys - todo)
      decreases |todo|
    {
      var k :| k in todo;
      ReadableAnywhere(p, k, db[k]);
      if Mirrors(OwnPart(db), m) { LoadNext(db, m, todo, p, k); }
      var next := LoadOne(p, k, db[k]);
      if next.None? { return None; }
      p := next.value;
      todo := todo - {k};
    }
    assert OwnPart(db).Keys - todo == OwnPart(db).Keys;
    if Mirrors(OwnPart(db), m) { PartAll(OwnPart(db), m, p); }
    r := Some(p);
  }

  // ----- undoing -----

  ghost function Refs(pairs: seq<Pair>): set<OutputRef> {
    set p | p in pairs :: p.0
  }

  // The list as a map: a later pair wins.
  ghost function Listed(pairs: seq<Pair>): Inputs {
    PutAll(map[], pairs)
  }

  lemma {:induction false} DropAllIs(inputs: Inputs, pairs: seq<Pair>)
    ensures DropAll(inputs, pairs) == inputs - Refs(pairs)
  {
    if pairs == [] {
      assert Refs(pairs) == {};
    } else {
      var n := |pairs| - 1;
      DropAllIs(inputs, pairs[..n]);
      assert pairs == pairs[..n] + [pairs[n]];
      assert Refs(pairs) == Refs(pairs[..n]) + {pairs[n].0};
    }
  }

  lemma {:induction false} PutAllIs(inputs: Inputs, pairs: seq<Pair>)
    ensures PutAll(inputs, pairs) == inputs + Listed(pairs) && Listed(pairs).Keys == Refs(pairs)
  {
    if pairs == [] {
      assert Refs(pairs) == {};
    } else {
      var n := |pairs| - 1;
      PutAllIs(inputs, pairs[..n]);
      assert pairs == pairs[..n] + [pairs[n]];
      assert Refs(pairs) == Refs(pairs[..n]) + {pairs[n].0};
      assert Listed(pairs) == Listed(pairs[..n])[pairs[n].0 := pairs[n].1];
    }
  }

  // Nothing the entry removes is missing or different, and nothing it adds was there.
  ghost predicate Undoable(m: Memory, tx: TxHash, e: Entry) {
    && tx !in m.journal
    && m.graduated !! Pools(e.graduated)
    && (forall r :: r in Refs(e.produced) && r in m.inputs ==> r in Refs(e.consumed))
    && (forall r :: r in Refs(e.consumed) ==>
      r in m.inputs && r in Listed(e.consumed) && m.inputs[r] == Listed(e.consumed)[r])
  }

  lemma InputsUndo(inputs: Inputs, consumed: set<OutputRef>, produced: set<OutputRef>, back: Inputs, made: Inputs)
    requires back.Keys == consumed && made.Keys == produced
    ensures inputs - consumed + made - produced + back == inputs <==>
      && (forall r :: r in produced && r in inputs ==> r in consumed)
      && (forall r :: r in consumed ==> r in inputs && r in back && inputs[r] == back[r])
  {
    var result := inputs - consumed + made - produced + back;
    if result == inputs {
      forall r | r in produced && r in inputs
        ensures r in consumed
      {
        assert r in result;
      }
      forall r | r in consumed
        ensures r in inputs && r in back && inputs[r] == back[r]
      {
        assert r in result && result[r] == back[r];
      }
    }
  }

  lemma JournalUndo(journal: map<TxHash, Entry>, tx: TxHash, e: Entry)
    ensures journal[tx := e] - {tx} == journal <==> tx !in journal
  {
  }

  lemma PoolsUndo(graduated: set<Token>, ids: set<Token>)
    ensures graduated + ids - ids == graduated <==> graduated !! ids
  {
  }

  // Rolling an observation back restores the state exactly when the observation was undoable.
  lemma UndoExactlyWhen(m: Memory, tx: TxHash, e: Entry)
    ensures RolledBack(Observed(m, tx, e), tx) == m <==> Undoable(m, tx, e)
  {
    var m1 := Observed(m, tx, e);
    DropAllIs(m.inputs, e.consumed);
    PutAllIs(m.inputs - Refs(e.consumed), e.produced);
    DropAllIs(m1.inputs, e.produced);
    PutAllIs(m1.inputs - Refs(e.produced), e.consumed);
    hide DropAll, PutAll, Refs, Listed, Pools;
    InputsUndo(m.inputs, Refs(e.consumed), Refs(e.produced), Listed(e.consumed), Listed(e.produced));
    JournalUndo(m.journal, tx, e);
    PoolsUndo(m.graduated, Pools(e.graduated));
  }

  type Observation = (TxHash, Entry)

  ghost function ObserveAll(m: Memory, obs: seq<Observation>): Memory
    decreases |obs|
  {
    if obs == [] then m else ObserveAll(Observed(m, obs[0].0, obs[0].1), obs[1..])
  }

  // The last observation is rolled back first.
  ghost function RollbackAll(m: Memory, obs: seq<Observation>): Memory {
    if obs == [] then m else RolledBack(RollbackAll(m, obs[1..]), obs[0].0)
  }

  ghost predicate AllUndoable(m: Memory, obs: seq<Observation>)
    decreases |obs|
  {
    obs != [] ==> Undoable(m, obs[0].0, obs[0].1) && AllUndoable(Observed(m, obs[0].0, obs[0].1), obs[1..])
  }

  lemma {:induction false} UndoRestores(m: Memory, obs: seq<Observation>)
    requires AllUndoable(m, obs)
    ensures RollbackAll(ObserveAll(m, obs), obs) == m
    decreases |obs|
  {
    hide Undoable, Observed, RolledBack;
    if obs != [] {
      UndoRestores(Observed(m, obs[0].0, obs[0].1), obs[1..]);
      UndoExactlyWhen(m, obs[0].0, obs[0].1);
    }
  }

  // ----- what the handler observes -----

  // The tracked ones among a transaction's inputs, with their pools.
  function Tracked(inputs: Inputs, refs: seq<OutputRef>): seq<Pair> {
    if refs == [] then []
    else
      var last := |refs| - 1;
      Tracked(inputs, refs[..last]) + if refs[last] in inputs then [(refs[last], inputs[refs[last]])] else []
  }

  method ConsumedSnekRefs(tracker: SnekPoolInputTracker, refs: seq<OutputRef>) returns (pairs: seq<Pair>)
    ensures pairs == Tracked(tracker.inputs, refs)
  {
    pairs := [];
    for i := 0 to |refs|
      invariant pairs == Tracked(tracker.inputs, refs[..i])
    {
      assert refs[..i + 1][..i] == refs[..i];
      if refs[i] in tracker.inputs {
        pairs := pairs + [(refs[i], tracker.inputs[refs[i]])];
      }
    }
    assert refs[..|refs|] == refs;
  }

  // Where the tracked inputs stand among all inputs.
  ghost function TrackedAt(inputs: Inputs, refs: seq<OutputRef>): seq<nat> {
    if refs == [] then []
    else
      var last := |refs| - 1;
      TrackedAt(inputs, refs[..last]) + if refs[last] in inputs then [last] else []
  }

  // The positions are in order, none is repeated, and they are exactly those of tracked inputs.
  lemma {:induction false} PositionsOfTracked(inputs: Inputs, refs: seq<OutputRef>)
    ensures forall j, k :: 0 <= j < k < |TrackedAt(inputs, refs)| ==>
      TrackedAt(inputs, refs)[j] < TrackedAt(inputs, refs)[k]
    ensures forall i :: i in TrackedAt(inputs, refs) <==> 0 <= i < |refs| && refs[i] in inputs
  {
    if refs != [] {
      var last := |refs| - 1;
      PositionsOfTracked(inputs, refs[..last]);
      var before, all := TrackedAt(inputs, refs[..last]), TrackedAt(inputs, refs);
      assert forall k :: 0 <= k < |before| ==> before[k] in before;
      assert all == before || all == before + [last];
      assert forall i :: i in before + [last] <==> i in before || i == last;
    }
  }

  ghost predicate PairsAt(inputs: Inputs, refs: seq<OutputRef>, pairs: seq<Pair>, positions: seq<nat>) {
    |pairs| == |positions| && forall k :: 0 <= k < |positions| ==>
      positions[k] < |refs| && refs[positions[k]] in inputs &&
      pairs[k] == (refs[positions[k]], inputs[refs[positions[k]]])
  }

  lemma {:induction false} TrackedMatches(inputs: Inputs, refs: seq<OutputRef>)
    ensures PairsAt(inputs, refs, Tracked(inputs, refs), TrackedAt(inputs, refs))
  {
    if refs != [] {
      var last := |refs| - 1;
      TrackedMatches(inputs, refs[..last]);
      var before := TrackedAt(inputs, refs[..last]);
      assert forall k :: 0 <= k < |before| ==> refs[..last][before[k]] == refs[before[k]];
    }
  }

  // The pairs are the tracked inputs, each with its pool, in input order and as often as the input occurs.
  lemma TrackedExactly(inputs: Inputs, refs: seq<OutputRef>) returns (positions: seq<nat>)
    ensures forall j, k :: 0 <= j < k < |positions| ==> positions[j] < positions[k]
    ensures forall i :: i in positions <==> 0 <= i < |refs| && refs[i] in inputs
    ensures PairsAt(inputs, refs, Tracked(inputs, refs), positions)
    ensures forall r, t :: (r, t) in Tracked(inputs, refs) <==> r in refs && r in inputs && inputs[r] == t
  {
    positions := TrackedAt(inputs, refs);
    PositionsOfTracked(inputs, refs);
    TrackedMatches(inputs, refs);
    var pairs := Tracked(inputs, refs);
    hide Tracked, TrackedAt;
    forall r, t | (r, t) in pairs
      ensures r in refs && r in inputs && inputs[r] == t
    {
      var k :| 0 <= k < |pairs| && pairs[k] == (r, t);
      assert refs[positions[k]] == r;
    }
    forall r, t | r in refs && r in inputs && inputs[r] == t
      ensures (r, t) in pairs
    {
      var i :| 0 <= i < |refs| && refs[i] == r;
      assert i in positions;
      var k :| 0 <= k < |positions| && positions[k] == i;
      assert pairs[k] == (r, t);
    }
  }

  lemma {:induction false} TrackedAgree(inputs: Inputs, refs: seq<OutputRef>)
    ensures forall r :: r in Listed(Tracked(inputs, refs)) ==>
      r in inputs && inputs[r] == Listed(Tracked(inputs, refs))[r]
    ensures Listed(Tracked(inputs, refs)).Keys == Refs(Tracked(inputs, refs))
  {
    PutAllIs(map[], Tracked(inputs, refs));
    if refs != [] {
      var last := |refs| - 1;
      TrackedAgree(inputs, refs[..last]);
      var before := Tracked(inputs, refs[..last]);
      var all := Tracked(inputs, refs);
      if refs[last] !in inputs {
        assert all == before;
      } else {
        assert all[..|all| - 1] == before;
        assert Listed(all) == Listed(before)[refs[last] := inputs[refs[last]]];
      }
    }
  }

  lemma TrackedRefs(inputs: Inputs, refs: seq<OutputRef>)
    ensures forall r :: r in Refs(Tracked(inputs, refs)) <==> r in refs && r in inputs
  {
    var _ := TrackedExactly(inputs, refs);
    hide Tracked;
    forall r | r in refs && r in inputs
      ensures r in Refs(Tracked(inputs, refs))
    {
      assert (r, inputs[r]) in Tracked(inputs, refs);
    }
  }

  lemma {:induction false} ListedFrom(pairs: seq<Pair>)
    ensures forall r :: r in Listed(pairs) ==> (r, Listed(pairs)[r]) in pairs
  {
    if pairs != [] {
      var n := |pairs| - 1;
      ListedFrom(pairs[..n]);
      assert Listed(pairs) == Listed(pairs[..n])[pairs[n].0 := pairs[n].1];
      forall r | r in Listed(pairs)
        ensures (r, Listed(pairs)[r]) in pairs
      {
        if r == pairs[n].0 { assert pairs[n] in pairs; } else { assert (r, Listed(pairs[..n])[r]) in pairs[..n]; }
      }
    }
  }

  // After the handler's observation exactly the produced outputs and the former inputs that were not spent are
  // tracked, so no input of the transaction is unless it was also produced; the pools and the journal have grown
  // by what was observed.
  lemma HandlerTracks(m: Memory, tx: TxHash, refs: seq<OutputRef>, produced: seq<Pair>, ids: seq<Token>)
    ensures
      var e := Entry(Tracked(m.inputs, refs), produced, ids);
      var m' := Observed(m, tx, e);
      && (forall r :: r in m'.inputs <==> r in Refs(produced) || (r in m.inputs && r !in refs))
      && (forall r :: r in m'.inputs && r !in Refs(produced) ==> m'.inputs[r] == m.inputs[r])
      && (forall r :: r in m'.inputs && r in Refs(produced) ==> (r, m'.inputs[r]) in produced)
      && (forall t :: t in m'.graduated <==> t in m.graduated || t in ids)
      && m'.journal == m.journal[tx := e]
  {
    var consumed := Tracked(m.inputs, refs);
    TrackedRefs(m.inputs, refs);
    DropAllIs(m.inputs, consumed);
    PutAllIs(m.inputs - Refs(consumed), produced);
    ListedFrom(produced);
    hide Tracked, DropAll, PutAll, Listed, Refs;
  }

  // What the handler records is undoable when the produced references, the graduated pools and the
  // transaction are new.
  lemma HandlerUndoable(m: Memory, tx: TxHash, refs: seq<OutputRef>, produced: seq<Pair>, ids: seq<Token>)
    requires tx !in m.journal && m.graduated !! Pools(ids) && m.inputs.Keys !! Refs(produced)
    ensures Undoable(m, tx, Entry(Tracked(m.inputs, refs), produced, ids))
  {
    TrackedAgree(m.inputs, refs);
    hide Tracked, Listed, Refs;
  }
}
