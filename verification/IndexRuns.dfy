/**
 Whole runs of the index: every production step in any order, restarts included.
 */
module IndexRuns {
  import opened Bytes
  import opened Ledger
  import opened AccountStores
  import opened AccountIndexes
  import opened IndexInvariant
  import opened IndexStores
  import opened IndexPlanning
  import opened IndexSaved

  // ----- steps and runs -----

  datatype Step =
    | PlanStep(id: AccountId, oldRef: OutputRef, op: StoreOp)
    | AttachStep(snapshot: SnapshotId, ref: OutputRef)
    | TxStep(consumed: set<OutputRef>, produced: seq<Utxo>)
    | RemovedStep(ref: OutputRef)
    | RollbackStep(ref: OutputRef)
    | BindStep(id: AccountId, ref: OutputRef)
    | RestartStep

  // A transaction's outputs are new to the index, and a planned insertion hashes without collisions.
  ghost predicate Enabled(cx: Cx, s: Index, step: Step, strings: set<Bytes>) {
    match step
    case PlanStep(id, oldRef, op) =>
      (match StoreForPlanning(s, id, oldRef)
       case None => true
       case Some(base) => op.InsertOp? ==> Collisionless(cx.h, Digests(base.leaves), op.key, strings))
    case TxStep(_, produced) => AllFresh(s, produced)
    case _ => true
  }

  // One step; a refused call leaves the index alone.  A restart reads the file every method of the index
  // object leaves behind: what saving the state writes.
  ghost predicate Next(cx: Cx, s: Index, step: Step, s': Index) {
    match step
    case PlanStep(id, oldRef, op) =>
      && (StoreForPlanning(s, id, oldRef).Some? ==> Usable(cx, StoreForPlanning(s, id, oldRef).value))
      && s' == (match Plan(cx, s, id, oldRef, op) case Planned(s1, _, _) => s1 case Refused(_) => s)
    case AttachStep(snapshot, ref) => s' == (match Attach(s, snapshot, ref) case Success(s1) => s1 case Failure(_) => s)
    case TxStep(consumed, produced) => s' == ObserveTransaction(s, consumed, produced)
    case RemovedStep(ref) => s' == ObserveRemoved(s, ref)
    case RollbackStep(ref) => s' == ObserveRollbackConsumed(s, ref)
    case BindStep(id, ref) => s' == (match BindOnce(s, id, ref) case Success(s1) => s1 case Failure(_) => s)
    case RestartStep => IsLoaded(cx, Save(s), s')
  }

  ghost predicate Run(cx: Cx, states: seq<Index>, steps: seq<Step>, strings: set<Bytes>) {
    && |states| == |steps| + 1
    && forall i :: 0 <= i < |steps| ==>
      Enabled(cx, states[i], steps[i], strings) && Next(cx, states[i], steps[i], states[i + 1])
  }

  lemma FreshIsValid(
    cx: Cx, kept: map<OutputRef, (AccountId, Store)>, plans: map<SnapshotId, PendingStore>, next: SnapshotId)
    requires PlansKept(plans, next)
    requires forall r :: r in kept ==> Consistent(cx, kept[r].1)
    requires forall n :: n in plans ==> Consistent(cx, plans[n].store)
    ensures Valid(EMPTY_INDEX.(persisted := kept, plans := plans, nextId := next))
    ensures Stores(cx, EMPTY_INDEX.(persisted := kept, plans := plans, nextId := next))
  {
    hide Consistent, PlansKept;
  }

  lemma RestartKeeps(cx: Cx, s: Index, s': Index)
    requires Valid(s) && Stores(cx, s) && IsLoaded(cx, Save(s), s')
    ensures Valid(s') && Stores(cx, s')
  {
    hide IsLoaded, Save, Consistent, Kept, PlansKept, Inverse, Apart, OwnKeys, DatumRoots;
    RestartRestores(cx, s, s');
    KeptConsistent(cx, s);
    FreshIsValid(cx, Kept(s), s.plans, s.nextId);
  }

  lemma PlanStepKeeps(cx: Cx, s: Index, step: Step, s': Index, strings: set<Bytes>)
    requires step.PlanStep? && Valid(s) && Stores(cx, s) && Enabled(cx, s, step, strings) && Next(cx, s, step, s')
    ensures Valid(s') && Advances(cx, s, s')
  {
    hide Valid, Stores, Known, OpResult, StoreForPlanning, Collisionless, Usable;
    if Plan(cx, s, step.id, step.oldRef, step.op).Planned? {
      PlanIsReentrant(cx, s, step.id, step.oldRef, step.op);
      PlanAdvances(cx, s, step.id, step.oldRef, step.op, strings);
    }
  }

  lemma AttachKeeps(cx: Cx, s: Index, snapshot: SnapshotId, ref: OutputRef)
    requires Valid(s) && Stores(cx, s) && Attach(s, snapshot, ref).Success?
    ensures Valid(Attach(s, snapshot, ref).value) && Advances(cx, s, Attach(s, snapshot, ref).value)
  {
    hide Consistent, Inverse, PlansKept;
  }

  // Every step of a process keeps the invariant, consistent stores and known accounts.
  lemma StepKeeps(cx: Cx, s: Index, step: Step, s': Index, strings: set<Bytes>)
    requires Valid(s) && Stores(cx, s) && Enabled(cx, s, step, strings) && Next(cx, s, step, s')
    ensures Valid(s') && Stores(cx, s')
    ensures !step.RestartStep? ==> Known(s) <= Known(s')
  {
    hide Valid, Stores, Known, ObserveTransaction, ObserveRemoved, ObserveRollbackConsumed, BindOnce, Plan, Attach,
         IsLoaded, Save;
    match step
    case PlanStep(_, _, _) => PlanStepKeeps(cx, s, step, s', strings);
    case AttachStep(snapshot, ref) => if Attach(s, snapshot, ref).Success? { AttachKeeps(cx, s, snapshot, ref); }
    case TxStep(consumed, produced) =>
      TransactionKeeps(s, consumed, produced);
      TransactionAdvances(cx, s, consumed, produced);
    case RemovedStep(ref) =>
      RemovedKeeps(s, ref);
      RemovedAdvances(cx, s, ref);
    case RollbackStep(ref) =>
      RollbackKeeps(s, ref);
      RollbackAdvances(cx, s, ref);
    case BindStep(id, ref) =>
      BindOnceAdvances(cx, s, id, ref);
      if BindOnce(s, id, ref).Success? { BindOnceKeeps(s, id, ref); }
    case RestartStep => RestartKeeps(cx, s, s');
  }

  lemma EmptyIsValid(cx: Cx)
    ensures Valid(EMPTY_INDEX) && Stores(cx, EMPTY_INDEX)
  {
  }

  // In every reachable state the invariant holds and every store is consistent.
  lemma {:induction false} ReachableIsValid(cx: Cx, states: seq<Index>, steps: seq<Step>, strings: set<Bytes>, i: nat)
    requires Run(cx, states, steps, strings) && states[0] == EMPTY_INDEX && i < |states|
    ensures Valid(states[i]) && Stores(cx, states[i])
  {
    hide Valid, Stores, Enabled, Next;
    EmptyIsValid(cx);
    if i > 0 {
      ReachableIsValid(cx, states, steps, strings, i - 1);
      StepKeeps(cx, states[i - 1], steps[i - 1], states[i], strings);
    }
  }

  // What this says of one current account: its store is the store its on-chain datum commits to.
  lemma CurrentMatchesDatum(cx: Cx, states: seq<Index>, steps: seq<Step>, strings: set<Bytes>, i: nat, id: AccountId)
    requires Run(cx, states, steps, strings) && states[0] == EMPTY_INDEX && i < |states| && id in states[i].byAccount
    ensures
      var ix := states[i].byAccount[id];
      && ix.store.root == ix.utxo.output.storeRoot && Consistent(cx, ix.store)
      && ix.utxo.ref in states[i].byRef && states[i].byRef[ix.utxo.ref] == id && id !in states[i].pending
  {
    ReachableIsValid(cx, states, steps, strings, i);
    hide Run, Consistent;
  }

  // ----- an account is bound at most once -----

  // A restart finds the account where it will look for it: current at an output with no store waiting
  // under it, or itself waiting.
  ghost predicate SeenByRestart(s: Index, id: AccountId) {
    (id in s.byAccount && s.byAccount[id].utxo.ref !in s.persisted) || id in PersistedIds(s)
  }

  // An account is known after a restart if and only if the restart finds it.
  lemma SurvivesRestart(cx: Cx, s: Index, s': Index, id: AccountId)
    requires Valid(s) && Stores(cx, s) && IsLoaded(cx, Save(s), s')
    ensures id in Known(s') <==> SeenByRestart(s, id)
    ensures id in Known(s') <==> id in PersistedIds(s')
  {
    RestartRestores(cx, s, s');
    KeptOf(s);
    hide IsLoaded, Save, Consistent, Kept, Stores;
    if SeenByRestart(s, id) {
      if id in s.byAccount && s.byAccount[id].utxo.ref !in s.persisted {
        assert s'.persisted[s.byAccount[id].utxo.ref].0 == id;
      } else {
        var r :| r in s.persisted && s.persisted[r].0 == id;
        assert s'.persisted[r].0 == id;
      }
    }
    if id in PersistedIds(s') {
      var r :| r in s'.persisted && s'.persisted[r].0 == id;
      assert r in s.persisted ==> id in PersistedIds(s);
    }
  }

  // An output with the empty root that nobody foresees stays unbound when it is observed on its own.
  lemma ObservedAlone(s: Index, utxo: Utxo)
    requires forall a :: !Foresees(s, utxo.ref, a)
    requires utxo.ref !in s.planByRef
    ensures ObserveTransaction(s, {}, [utxo]) == s.(unbound := s.unbound[utxo.ref := utxo])
  {
    ConsumeNothing(s);
    assert Owners(s, {}) == {} && Matching(s, {}, utxo.output.storeRoot) == {};
    hide ConsumeAll, Owners, Matching, Foresees;
    NotForeseen(s, utxo.ref);
    var produced := [utxo];
    assert produced[..0] == [] && produced[0] == utxo;
    assert ObserveAllProduced(s, {}, {}, produced[..0]) == s;
  }

  lemma NotForeseen(s: Index, ref: OutputRef)
    requires forall a :: !Foresees(s, ref, a)
    ensures ref !in s.predicted && ref !in s.persisted
  {
    if ref in s.predicted { assert Foresees(s, ref, s.predicted[ref].0); }
    if ref in s.persisted { assert Foresees(s, ref, s.persisted[ref].0); }
  }

  // After a restart an id can be bound, to an empty-root output observed anew, if and only if the restart
  // did not find it: the binding is one-time exactly for the accounts found.
  lemma BindsAgainExactlyWhen(cx: Cx, s: Index, s': Index, id: AccountId, utxo: Utxo)
    requires Valid(s) && Stores(cx, s) && IsLoaded(cx, Save(s), s')
    requires utxo.output.storeRoot == EMPTY_STORE.root && utxo.ref !in s.byRef && utxo.ref !in s.persisted
    ensures BindOnce(ObserveTransaction(s', {}, [utxo]), id, utxo.ref).Success? <==> !SeenByRestart(s, id)
  {
    SurvivesRestart(cx, s, s', id);
    RestartRestores(cx, s, s');
    KeptOf(s);
    hide IsLoaded, Save, Kept, Stores, Valid, SeenByRestart;
    BindsUnknown(s', id, utxo);
  }

  // From a state that only waits, observing and binding work together for an unknown id.
  lemma BindsUnknown(s: Index, id: AccountId, utxo: Utxo)
    requires s == EMPTY_INDEX.(persisted := s.persisted, plans := s.plans, nextId := s.nextId)
    requires utxo.output.storeRoot == EMPTY_STORE.root && utxo.ref !in s.persisted
    ensures BindOnce(ObserveTransaction(s, {}, [utxo]), id, utxo.ref).Success? <==> id !in PersistedIds(s)
  {
    hide ObserveTransaction, BindIndexed;
    ObservedAlone(s, utxo);
    hide Foresees;
    if id in PersistedIds(s) { var r :| r in s.persisted && s.persisted[r].0 == id; }
  }

  lemma {:induction false} KnownStays(
    cx: Cx, states: seq<Index>, steps: seq<Step>, strings: set<Bytes>, id: AccountId, i: nat, j: nat)
    requires Run(cx, states, steps, strings) && states[0] == EMPTY_INDEX && i <= j < |states| && id in Known(states[i])
    requires forall k :: i <= k < j && steps[k].RestartStep? ==> SeenByRestart(states[k], id)
    ensures id in Known(states[j])
    decreases j
  {
    hide Valid, Stores, Enabled, Next, SeenByRestart;
    if i < j {
      KnownStays(cx, states, steps, strings, id, i, j - 1);
      ReachableIsValid(cx, states, steps, strings, j - 1);
      StepKeeps(cx, states[j - 1], steps[j - 1], states[j], strings);
      if steps[j - 1].RestartStep? {
        RestartNext(cx, states[j - 1], states[j]);
        SurvivesRestart(cx, states[j - 1], states[j], id);
      }
    }
  }

  lemma RestartNext(cx: Cx, s: Index, s': Index)
    requires Next(cx, s, RestartStep, s')
    ensures IsLoaded(cx, Save(s), s')
  {
  }

  // In a run from the empty index, once a binding of `id` has succeeded every later one is refused as
  // already bound, restarts included as long as each of them finds the account.
  lemma BindsAtMostOnce(
    cx: Cx, states: seq<Index>, steps: seq<Step>, strings: set<Bytes>, id: AccountId, i: nat, j: nat, ref: OutputRef)
    requires Run(cx, states, steps, strings) && states[0] == EMPTY_INDEX && i < j < |states|
    requires steps[i].BindStep? && steps[i].id == id && BindOnce(states[i], id, steps[i].ref).Success?
    requires forall k :: i < k < j && steps[k].RestartStep? ==> SeenByRestart(states[k], id)
    ensures BindOnce(states[j], id, ref) == Failure(AlreadyBound)
  {
    hide Valid, Stores, SeenByRestart, BindOnce;
    ReachableIsValid(cx, states, steps, strings, i);
    BindOnceAdvances(cx, states[i], id, steps[i].ref);
    assert id in Known(states[i + 1]);
    KnownStays(cx, states, steps, strings, id, i + 1, j);
    ReachableIsValid(cx, states, steps, strings, j);
    BindOnceAdvances(cx, states[j], id, ref);
  }
}
