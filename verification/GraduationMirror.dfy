/**
 The key-value store mirrors the in-memory graduation state over every run, loading gives the state
 back, and undoing observations in reverse order restores the state before them.
 */
module GraduationMirror {
  import opened Ledger
  import opened GraduationText
  import opened Graduation

  // ----- keys -----

  lemma PoolKeys(t: Token)
    ensures forall t' :: PoolKey(t') == PoolKey(t) ==> t' == t
    ensures forall r :: InputKey(r) != PoolKey(t)
    ensures forall tx: TxHash :: JournalKey(tx) != PoolKey(t)
  {
    assert PoolKey(t)[0] == 'g';
    assert forall r :: InputKey(r)[0] == 's';
    assert forall tx: TxHash :: JournalKey(tx)[0] == 'j';
    forall t' | PoolKey(t') == PoolKey(t)
      ensures t' == t
    {
      assert PoolKey(t)[10..] == TokenText(t) && PoolKey(t')[10..] == TokenText(t');
      TokenRoundTrip(t);
      TokenRoundTrip(t');
    }
  }

  lemma InputKeys(r: OutputRef)
    ensures forall r' :: InputKey(r') == InputKey(r) ==> r' == r
    ensures forall t :: PoolKey(t) != InputKey(r)
    ensures forall tx: TxHash :: JournalKey(tx) != InputKey(r)
  {
    assert InputKey(r)[0] == 's';
    assert forall t :: PoolKey(t)[0] == 'g';
    assert forall tx: TxHash :: JournalKey(tx)[0] == 'j';
    forall r' | InputKey(r') == InputKey(r)
      ensures r' == r
    {
      assert InputKey(r)[11..] == RefText(r) && InputKey(r')[11..] == RefText(r');
      RefRoundTrip(r);
      RefRoundTrip(r');
    }
  }

  lemma JournalKeys(tx: TxHash)
    ensures forall tx': TxHash :: JournalKey(tx') == JournalKey(tx) ==> tx' == tx
    ensures forall t :: PoolKey(t) != JournalKey(tx)
    ensures forall r :: InputKey(r) != JournalKey(tx)
  {
    assert JournalKey(tx)[0] == 'j';
    assert forall t :: PoolKey(t)[0] == 'g';
    assert forall r :: InputKey(r)[0] == 's';
    forall tx': TxHash | JournalKey(tx') == JournalKey(tx)
      ensures tx' == tx
    {
      assert JournalKey(tx)[8..] == Hex(tx) && JournalKey(tx')[8..] == Hex(tx');
      TxHashRoundTrip(tx);
      TxHashRoundTrip(tx');
    }
  }

  // ----- the mirror -----

  ghost predicate MirrorsPools(db: Db, graduated: set<Token>) {
    && (forall t :: t in graduated <==> PoolKey(t) in db)
    && (forall t :: t in graduated ==> db[PoolKey(t)] == "")
  }

  ghost predicate MirrorsInputs(db: Db, inputs: Inputs) {
    && (forall r :: r in inputs <==> InputKey(r) in db)
    && (forall r :: r in inputs ==> db[InputKey(r)] == TokenText(inputs[r]))
  }

  ghost predicate MirrorsJournal(db: Db, journal: map<TxHash, Entry>) {
    && (forall tx: TxHash :: tx in journal <==> JournalKey(tx) in db)
    && (forall tx: TxHash :: tx in journal ==> db[JournalKey(tx)] == EntryText(journal[tx]))
  }

  ghost predicate OwnKey(k: string) {
    (exists t :: k == PoolKey(t)) || (exists r :: k == InputKey(r)) || (exists tx: TxHash :: k == JournalKey(tx))
  }

  ghost predicate Mirrors(db: Db, m: Memory) {
    && MirrorsPools(db, m.graduated) && MirrorsInputs(db, m.inputs) && MirrorsJournal(db, m.journal)
    && forall k :: k in db ==> OwnKey(k)
  }

  // ----- one write -----

  lemma PoolsElse(db: Db, graduated: set<Token>, key: string, v: string)
    requires MirrorsPools(db, graduated) && forall t :: PoolKey(t) != key
    ensures MirrorsPools(db[key := v], graduated) && MirrorsPools(db - {key}, graduated)
  {
    hide PoolKey;
  }

  lemma InputsElse(db: Db, inputs: Inputs, key: string, v: string)
    requires MirrorsInputs(db, inputs) && forall r :: InputKey(r) != key
    ensures MirrorsInputs(db[key := v], inputs) && MirrorsInputs(db - {key}, inputs)
  {
    hide InputKey, TokenText;
  }

  lemma JournalElse(db: Db, journal: map<TxHash, Entry>, key: string, v: string)
    requires MirrorsJournal(db, journal) && forall tx: TxHash :: JournalKey(tx) != key
    ensures MirrorsJournal(db[key := v], journal) && MirrorsJournal(db - {key}, journal)
  {
    hide JournalKey, EntryText;
  }

  lemma InputWritten(db: Db, inputs: Inputs, r: OutputRef, t: Token)
    requires MirrorsInputs(db, inputs)
    ensures MirrorsInputs(db[InputKey(r) := TokenText(t)], inputs[r := t])
    ensures MirrorsInputs(db - {InputKey(r)}, inputs - {r})
  {
    InputKeys(r);
    hide InputKey, TokenText;
  }

  lemma PoolWritten(db: Db, graduated: set<Token>, t: Token)
    requires MirrorsPools(db, graduated)
    ensures MirrorsPools(db[PoolKey(t) := ""], graduated + {t})
    ensures MirrorsPools(db - {PoolKey(t)}, graduated - {t})
  {
    PoolKeys(t);
    hide PoolKey;
  }

  lemma EntryWritten(db: Db, journal: map<TxHash, Entry>, tx: TxHash, e: Entry)
    requires MirrorsJournal(db, journal)
    ensures MirrorsJournal(db[JournalKey(tx) := EntryText(e)], journal[tx := e])
    ensures MirrorsJournal(db - {JournalKey(tx)}, journal - {tx})
  {
    JournalKeys(tx);
    hide JournalKey, EntryText;
  }

  lemma InputPut(db: Db, m: Memory, r: OutputRef, t: Token)
    requires Mirrors(db, m)
    ensures Mirrors(db[InputKey(r) := TokenText(t)], m.(inputs := m.inputs[r := t]))
    ensures Mirrors(db - {InputKey(r)}, m.(inputs := m.inputs - {r}))
  {
    assert OwnKey(InputKey(r));
    InputKeys(r);
    hide InputKey, PoolKey, JournalKey, TokenText, OwnKey, MirrorsPools, MirrorsInputs, MirrorsJournal;
    InputWritten(db, m.inputs, r, t);
    PoolsElse(db, m.graduated, InputKey(r), TokenText(t));
    JournalElse(db, m.journal, InputKey(r), TokenText(t));
  }

  lemma PoolPut(db: Db, m: Memory, t: Token)
    requires Mirrors(db, m)
    ensures Mirrors(db[PoolKey(t) := ""], m.(graduated := m.graduated + {t}))
    ensures Mirrors(db - {PoolKey(t)}, m.(graduated := m.graduated - {t}))
  {
    assert OwnKey(PoolKey(t));
    PoolKeys(t);
    hide InputKey, PoolKey, JournalKey, OwnKey, MirrorsPools, MirrorsInputs, MirrorsJournal;
    PoolWritten(db, m.graduated, t);
    InputsElse(db, m.inputs, PoolKey(t), "");
    JournalElse(db, m.journal, PoolKey(t), "");
  }

  lemma EntryPut(db: Db, m: Memory, tx: TxHash, e: Entry)
    requires Mirrors(db, m)
    ensures Mirrors(db[JournalKey(tx) := EntryText(e)], m.(journal := m.journal[tx := e]))
    ensures Mirrors(db - {JournalKey(tx)}, m.(journal := m.journal - {tx}))
  {
    assert OwnKey(JournalKey(tx));
    JournalKeys(tx);
    hide InputKey, PoolKey, JournalKey, EntryText, OwnKey, MirrorsPools, MirrorsInputs, MirrorsJournal;
    EntryWritten(db, m.journal, tx, e);
    InputsElse(db, m.inputs, JournalKey(tx), EntryText(e));
    PoolsElse(db, m.graduated, JournalKey(tx), EntryText(e));
  }

  // ----- lists of writes -----

  lemma {:induction false} InputsPut(db: Db, m: Memory, pairs: seq<Pair>)
    requires Mirrors(db, m)
    ensures Mirrors(DbPutAll(db, pairs), m.(inputs := PutAll(m.inputs, pairs)))
  {
    hide Mirrors, InputKey, TokenText;
    if pairs != [] {
      var n := |pairs| - 1;
      InputsPut(db, m, pairs[..n]);
      InputPut(DbPutAll(db, pairs[..n]), m.(inputs := PutAll(m.inputs, pairs[..n])), pairs[n].0, pairs[n].1);
    }
  }

  lemma {:induction false} InputsDropped(db: Db, m: Memory, pairs: seq<Pair>)
    requires Mirrors(db, m)
    ensures Mirrors(DbDropAll(db, pairs), m.(inputs := DropAll(m.inputs, pairs)))
  {
    hide Mirrors, InputKey;
    if pairs != [] {
      var n := |pairs| - 1;
      InputsDropped(db, m, pairs[..n]);
      InputPut(DbDropAll(db, pairs[..n]), m.(inputs := DropAll(m.inputs, pairs[..n])), pairs[n].0, pairs[n].1);
    }
  }

  lemma {:induction false} PoolsPut(db: Db, m: Memory, ids: seq<Token>)
    requires Mirrors(db, m)
    ensures Mirrors(DbAddPools(db, ids), m.(graduated := m.graduated + Pools(ids)))
  {
    hide Mirrors, PoolKey;
    if ids == [] {
      assert m.graduated + Pools(ids) == m.graduated;
    } else {
      var n := |ids| - 1;
      PoolsPut(db, m, ids[..n]);
      PoolPut(DbAddPools(db, ids[..n]), m.(graduated := m.graduated + Pools(ids[..n])), ids[n]);
      assert m.graduated + Pools(ids[..n]) + {ids[n]} == m.graduated + Pools(ids);
    }
  }

  lemma {:induction false} PoolsDropped(db: Db, m: Memory, ids: seq<Token>)
    requires Mirrors(db, m)
    ensures Mirrors(DbDropPools(db, ids), m.(graduated := m.graduated - Pools(ids)))
  {
    hide Mirrors, PoolKey;
    if ids == [] {
      assert m.graduated - Pools(ids) == m.graduated;
    } else {
      var n := |ids| - 1;
      PoolsDropped(db, m, ids[..n]);
      PoolPut(DbDropPools(db, ids[..n]), m.(graduated := m.graduated - Pools(ids[..n])), ids[n]);
      assert m.graduated - Pools(ids[..n]) - {ids[n]} == m.graduated - Pools(ids);
    }
  }

  // ----- runs -----

  datatype Step = Observe(tx: TxHash, entry: Entry) | Rollback(tx: TxHash)

  function Next(m: Memory, s: Step): Memory {
    match s
    case Observe(tx, e) => Observed(m, tx, e)
    case Rollback(tx) => RolledBack(m, tx)
  }

  ghost function DbNext(db: Db, m: Memory, s: Step): Db {
    match s
    case Observe(tx, e) => DbObserved(db, tx, e)
    case Rollback(tx) => if tx in m.journal then DbRolledBack(db, tx, m.journal[tx]) else db
  }

  function Run(m: Memory, steps: seq<Step>): Memory {
    if steps == [] then m else Next(Run(m, steps[..|steps| - 1]), steps[|steps| - 1])
  }

  ghost function DbRun(db: Db, m: Memory, steps: seq<Step>): Db {
    if steps == [] then db
    else
      var before := steps[..|steps| - 1];
      DbNext(DbRun(db, m, before), Run(m, before), steps[|steps| - 1])
  }

  lemma ObserveMirrored(db: Db, m: Memory, tx: TxHash, e: Entry)
    requires Mirrors(db, m)
    ensures Mirrors(DbObserved(db, tx, e), Observed(m, tx, e))
  {
    hide Mirrors, DbPutAll, DbDropAll, DbAddPools, PutAll, DropAll, Pools, JournalKey, EntryText;
    InputsDropped(db, m, e.consumed);
    var db1, m1 := DbDropAll(db, e.consumed), m.(inputs := DropAll(m.inputs, e.consumed));
    InputsPut(db1, m1, e.produced);
    var db2, m2 := DbPutAll(db1, e.produced), m1.(inputs := PutAll(m1.inputs, e.produced));
    PoolsPut(db2, m2, e.graduated);
    EntryPut(DbAddPools(db2, e.graduated), m2.(graduated := m.graduated + Pools(e.graduated)), tx, e);
  }

  lemma RollbackMirrored(db: Db, m: Memory, tx: TxHash)
    requires Mirrors(db, m) && tx in m.journal
    ensures Mirrors(DbRolledBack(db, tx, m.journal[tx]), RolledBack(m, tx))
  {
    hide Mirrors, DbPutAll, DbDropAll, DbDropPools, PutAll, DropAll, Pools, JournalKey, EntryText;
    var e := m.journal[tx];
    PoolsDropped(db, m, e.graduated);
    var db1, m1 := DbDropPools(db, e.graduated), m.(graduated := m.graduated - Pools(e.graduated));
    InputsDropped(db1, m1, e.produced);
    var db2, m2 := DbDropAll(db1, e.produced), m1.(inputs := DropAll(m.inputs, e.produced));
    InputsPut(db2, m2, e.consumed);
    EntryPut(DbPutAll(db2, e.consumed), m2.(inputs := PutAll(m2.inputs, e.consumed)), tx, e);
  }

  // Over every run of observations and rollbacks the store mirrors the memory.
  lemma {:induction false} RunMirrored(db: Db, m: Memory, steps: seq<Step>)
    requires Mirrors(db, m)
    ensures Mirrors(DbRun(db, m, steps), Run(m, steps))
    decreases |steps|
  {
    hide Mirrors, DbObserved, DbRolledBack, Observed, RolledBack;
    if steps != [] {
      var n := |steps| - 1;
      var db1, m1 := DbRun(db, m, steps[..n]), Run(m, steps[..n]);
      RunMirrored(db, m, steps[..n]);
      match steps[n]
      case Observe(tx, e) => ObserveMirrored(db1, m1, tx, e);
      case Rollback(tx) =>
        if tx in m1.journal { RollbackMirrored(db1, m1, tx); } else { NotJournaled(m1, tx); }
    }
  }

  lemma NotJournaled(m: Memory, tx: TxHash)
    requires tx !in m.journal
    ensures RolledBack(m, tx) == m
  {
  }

  // From the empty state and the empty store.
  lemma FreshRunMirrored(steps: seq<Step>)
    ensures Mirrors(DbRun(map[], EMPTY_MEMORY, steps), Run(EMPTY_MEMORY, steps))
  {
    assert Mirrors(map[], EMPTY_MEMORY);
    hide Mirrors;
    RunMirrored(map[], EMPTY_MEMORY, steps);
  }
}
