/**
 The record of graduated pools: an in-memory state with an undo journal, mirrored to a key-value store
 from which it is loaded at a restart.
 */
module Graduation {
  import opened Ledger
  import opened GraduationText

  type Pair = (OutputRef, Token)
  type Inputs = map<OutputRef, Token>
  type Db = map<string, string>

  // Graduated pools, tracked pool inputs, and the journal of observed transactions.
  datatype Memory = Memory(graduated: set<Token>, inputs: Inputs, journal: map<TxHash, Entry>)

  const EMPTY_MEMORY := Memory({}, map[], map[])

  // ----- the in-memory state -----

  function DropAll(inputs: Inputs, pairs: seq<Pair>): Inputs {
    if pairs == [] then inputs else DropAll(inputs, pairs[..|pairs| - 1]) - {pairs[|pairs| - 1].0}
  }

  function PutAll(inputs: Inputs, pairs: seq<Pair>): Inputs {
    if pairs == [] then inputs else PutAll(inputs, pairs[..|pairs| - 1])[pairs[|pairs| - 1].0 := pairs[|pairs| - 1].1]
  }

  function Pools(ids: seq<Token>): set<Token> {
    set t | t in ids
  }

  function Observed(m: Memory, tx: TxHash, e: Entry): Memory {
    Memory(m.graduated + Pools(e.graduated), PutAll(DropAll(m.inputs, e.consumed), e.produced), m.journal[tx := e])
  }

  // Undoing a transaction that is not in the journal does nothing.
  function RolledBack(m: Memory, tx: TxHash): Memory {
    if tx !in m.journal then m
    else
      var e := m.journal[tx];
      Memory(m.graduated - Pools(e.graduated), PutAll(DropAll(m.inputs, e.produced), e.consumed), m.journal - {tx})
  }

  // ----- the key-value store -----

  function PoolKey(t: Token): string { "graduated:" + TokenText(t) }
  function InputKey(r: OutputRef): string { "snek-input:" + RefText(r) }
  function JournalKey(tx: TxHash): string { "journal:" + Hex(tx) }

  function DbDropAll(db: Db, pairs: seq<Pair>): Db {
    if pairs == [] then db else DbDropAll(db, pairs[..|pairs| - 1]) - {InputKey(pairs[|pairs| - 1].0)}
  }

  function DbPutAll(db: Db, pairs: seq<Pair>): Db {
    if pairs == [] then db
    else DbPutAll(db, pairs[..|pairs| - 1])[InputKey(pairs[|pairs| - 1].0) := TokenText(pairs[|pairs| - 1].1)]
  }

  function DbAddPools(db: Db, ids: seq<Token>): Db {
    if ids == [] then db else DbAddPools(db, ids[..|ids| - 1])[PoolKey(ids[|ids| - 1]) := ""]
  }

  function DbDropPools(db: Db, ids: seq<Token>): Db {
    if ids == [] then db else DbDropPools(db, ids[..|ids| - 1]) - {PoolKey(ids[|ids| - 1])}
  }

  ghost function DbObserved(db: Db, tx: TxHash, e: Entry): Db {
    DbAddPools(DbPutAll(DbDropAll(db, e.consumed), e.produced), e.graduated)[JournalKey(tx) := EntryText(e)]
  }

  function DbRolledBack(db: Db, tx: TxHash, e: Entry): Db {
    DbPutAll(DbDropAll(DbDropPools(db, e.graduated), e.produced), e.consumed) - {JournalKey(tx)}
  }

  class GraduationStateDb {
    var db: Db

    constructor ()
      ensures db == map[]
    {
      db := map[];
    }

    // One transaction: nothing is visible before the commit.
    method PersistObservation(tx: TxHash, e: Entry)
      modifies this
      ensures db == DbObserved(old(db), tx, e)
    {
      hide InputKey, PoolKey, JournalKey, EntryText, TokenText;
      var batch := DeleteInputs(db, e.consumed);
      batch := WriteInputs(batch, e.produced);
      for i := 0 to |e.graduated|
        invariant batch == DbAddPools(DbPutAll(DbDropAll(old(db), e.consumed), e.produced), e.graduated[..i])
        invariant db == old(db)
      {
        assert e.graduated[..i + 1][..i] == e.graduated[..i];
        batch := batch[PoolKey(e.graduated[i]) := ""];
      }
      assert e.graduated[..|e.graduated|] == e.graduated;
      var text := EncodeJournalEntry(e);
      db := batch[JournalKey(tx) := text];
    }

    method PersistRollback(tx: TxHash, e: Entry)
      modifies this
      ensures db == DbRolledBack(old(db), tx, e)
    {
      hide InputKey, PoolKey, JournalKey, TokenText;
      var batch := db;
      for i := 0 to |e.graduated|
        invariant batch == DbDropPools(old(db), e.graduated[..i])
        invariant db == old(db)
      {
        assert e.graduated[..i + 1][..i] == e.graduated[..i];
        batch := batch - {PoolKey(e.graduated[i])};
      }
      assert e.graduated[..|e.graduated|] == e.graduated;
      batch := DeleteInputs(batch, e.produced);
      batch := WriteInputs(batch, e.consumed);
      db := batch - {JournalKey(tx)};
    }
  }

  method DeleteInputs(db: Db, pairs: seq<Pair>) returns (batch: Db)
    ensures batch == DbDropAll(db, pairs)
  {
    hide InputKey;
    batch := db;
    for i := 0 to |pairs|
      invariant batch == DbDropAll(db, pairs[..i])
    {
      assert pairs[..i + 1][..i] == pairs[..i];
      batch := batch - {InputKey(pairs[i].0)};
    }
    assert pairs[..|pairs|] == pairs;
  }

  method WriteInputs(db: Db, pairs: seq<Pair>) returns (batch: Db)
    ensures batch == DbPutAll(db, pairs)
  {
    hide InputKey, TokenText;
    batch := db;
    for i := 0 to |pairs|
      invariant batch == DbPutAll(db, pairs[..i])
    {
      assert pairs[..i + 1][..i] == pairs[..i];
      batch := batch[InputKey(pairs[i].0) := TokenText(pairs[i].1)];
    }
    assert pairs[..|pairs|] == pairs;
  }

  class SnekPoolInputTracker {
    var inputs: Inputs

    constructor ()
      ensures inputs == map[]
    {
      inputs := map[];
    }

    method RemoveAll(pairs: seq<Pair>)
      modifies this
      ensures inputs == DropAll(old(inputs), pairs)
    {
      for i := 0 to |pairs|
        invariant inputs == DropAll(old(inputs), pairs[..i])
      {
        assert pairs[..i + 1][..i] == pairs[..i];
        inputs := inputs - {pairs[i].0};
      }
      assert pairs[..|pairs|] == pairs;
    }

    method InsertAll(pairs: seq<Pair>)
      modifies this
      ensures inputs == PutAll(old(inputs), pairs)
    {
      for i := 0 to |pairs|
        invariant inputs == PutAll(old(inputs), pairs[..i])
      {
        assert pairs[..i + 1][..i] == pairs[..i];
        inputs := inputs[pairs[i].0 := pairs[i].1];
      }
      assert pairs[..|pairs|] == pairs;
    }
  }

  // The store, the tracker and their mirror, as the event handler holds them.
  class GraduationTracking {
    var graduated: set<Token>
    var journal: map<TxHash, Entry>
    const tracker: SnekPoolInputTracker
    const state: GraduationStateDb

    constructor ()
      ensures Current() == EMPTY_MEMORY && state.db == map[]
      ensures fresh(tracker) && fresh(state)
    {
      graduated, journal := {}, map[];
      tracker := new SnekPoolInputTracker();
      state := new GraduationStateDb();
    }

    function Current(): Memory
      reads this, tracker
    {
      Memory(graduated, tracker.inputs, journal)
    }

    // Memory first, then the mirror.
    method JournalGraduatedSplashPools(tx: TxHash, e: Entry)
      modifies this, tracker, state
      ensures Current() == Observed(old(Current()), tx, e) && state.db == DbObserved(old(state.db), tx, e)
    {
      hide DropAll, PutAll, DbObserved;
      tracker.RemoveAll(e.consumed);
      tracker.InsertAll(e.produced);
      graduated := graduated + Pools(e.graduated);
      journal := journal[tx := e];
      state.PersistObservation(tx, e);
    }

    method RollbackGraduation(tx: TxHash)
      modifies this, tracker, state
      ensures Current() == RolledBack(old(Current()), tx)
      ensures state.db ==
        if tx in old(journal) then DbRolledBack(old(state.db), tx, old(journal)[tx]) else old(state.db)
    {
      hide DropAll, PutAll, DbRolledBack;
      if tx !in journal { return; }
      var e := journal[tx];
      journal := journal - {tx};
      graduated := graduated - Pools(e.graduated);
      tracker.RemoveAll(e.produced);
      tracker.InsertAll(e.consumed);
      state.PersistRollback(tx, e);
    }
  }
}
