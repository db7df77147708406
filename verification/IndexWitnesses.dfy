/**
 Concrete runs in which what one would expect of a restart fails: an account id bound twice, and a plan that
 starts from another account's store.
 */
module IndexWitnesses {
  import opened Bytes
  import opened Ledger
  import opened Tries
  import opened TrieBinding
  import opened MpfBinding
  import opened AccountStores
  import opened AccountIndexes
  import opened IndexInvariant
  import opened IndexStores
  import opened IndexPlanning
  import opened IndexSaved
  import opened IndexRuns

  // ----- an output observed, bound and spent, from any state -----

  function Seen(s: Index, utxo: Utxo): Index {
    s.(unbound := s.unbound[utxo.ref := utxo])
  }

  function BoundTo(s: Index, id: AccountId, utxo: Utxo): Index {
    s.(byAccount := s.byAccount[id := Indexed(utxo, EMPTY_STORE)], byRef := s.byRef[utxo.ref := id])
  }

  function SpentOf(s: Index, id: AccountId, utxo: Utxo): Index {
    s.(pending := s.pending + {id}, rollback := s.rollback[utxo.ref := (id, Indexed(utxo, EMPTY_STORE))])
  }

  // The state knows neither the account nor the output, and the output's root is empty.
  ghost predicate Unknown(s: Index, id: AccountId, utxo: Utxo) {
    && id !in s.byAccount && id !in s.pending && s.persisted == map[] && s.predicted == map[] && s.planByRef == map[]
    && utxo.ref !in s.byRef && utxo.ref !in s.rollback && utxo.ref !in s.unbound
    && utxo.output.storeRoot == EMPTY_STORE.root
  }

  lemma SeesIt(s: Index, id: AccountId, utxo: Utxo)
    requires Unknown(s, id, utxo)
    ensures ObserveTransaction(s, {}, [utxo]) == Seen(s, utxo) && AllFresh(s, [utxo])
  {
    assert forall a :: !Foresees(s, utxo.ref, a);
    hide ObserveTransaction, Foresees;
    ObservedAlone(s, utxo);
  }

  lemma BindsIt(s: Index, id: AccountId, utxo: Utxo)
    requires Unknown(s, id, utxo)
    ensures BindOnce(Seen(s, utxo), id, utxo.ref) == Success(BoundTo(s, id, utxo))
  {
    var s1 := Seen(s, utxo);
    assert s1.unbound - {utxo.ref} == s.unbound && s.unbound - {utxo.ref} == s.unbound;
    assert s.pending - {id} == s.pending;
    assert !Waits(s1, id);
  }

  lemma Unset<K, V>(m: map<K, V>, k: K, v: V)
    requires k !in m
    ensures m[k := v] - {k} == m && m - {k} == m
  {
  }

  lemma SpentAlone(s: Index, id: AccountId, utxo: Utxo)
    requires Unknown(s, id, utxo)
    ensures
      var b := BoundTo(s, id, utxo);
      && Owners(b, {utxo.ref}) == {id}
      && s.rollback + Spent(b, {utxo.ref}) == s.rollback[utxo.ref := (id, Indexed(utxo, EMPTY_STORE))]
  {
  }

  lemma SpendsIt(s: Index, id: AccountId, utxo: Utxo)
    requires Unknown(s, id, utxo)
    ensures ObserveTransaction(BoundTo(s, id, utxo), {utxo.ref}, []) == SpentOf(s, id, utxo)
  {
    var b := BoundTo(s, id, utxo);
    SpentAlone(s, id, utxo);
    ConsumeFields(b, {utxo.ref});
    hide ConsumeAll, Owners, Spent;
    Unset(s.byRef, utxo.ref, id);
    Unset(s.byAccount, id, Indexed(utxo, EMPTY_STORE));
    Unset(s.unbound, utxo.ref, utxo);
    MinusAbsent(s.predicted, utxo.ref);
  }

  lemma MinusAbsent<K, V>(m: map<K, V>, k: K)
    requires k !in m
    ensures m - {k} == m
  {
  }

  // One step of a run.
  ghost predicate Took(cx: Cx, s: Index, step: Step, s': Index, strings: set<Bytes>) {
    Enabled(cx, s, step, strings) && Next(cx, s, step, s')
  }

  lemma TookKeeps(cx: Cx, s: Index, step: Step, s': Index, strings: set<Bytes>)
    requires Valid(s) && Stores(cx, s) && Took(cx, s, step, s', strings)
    ensures Valid(s') && Stores(cx, s')
  {
    hide Valid, Stores, Enabled, Next;
    IndexRuns.StepKeeps(cx, s, step, s', strings);
  }

  lemma SeenAndBound(cx: Cx, s: Index, id: AccountId, utxo: Utxo, strings: set<Bytes>)
    requires Unknown(s, id, utxo)
    ensures Took(cx, s, TxStep({}, [utxo]), Seen(s, utxo), strings)
    ensures BindOnce(Seen(s, utxo), id, utxo.ref) == Success(BoundTo(s, id, utxo))
    ensures Took(cx, Seen(s, utxo), BindStep(id, utxo.ref), BoundTo(s, id, utxo), strings)
  {
    hide Unknown, ObserveTransaction, BindOnce, AllFresh, Seen, BoundTo;
    SeesIt(s, id, utxo);
    BindsIt(s, id, utxo);
  }

  lemma BoundAndSpent(cx: Cx, s: Index, id: AccountId, utxo: Utxo, strings: set<Bytes>)
    requires Unknown(s, id, utxo)
    ensures Took(cx, BoundTo(s, id, utxo), TxStep({utxo.ref}, []), SpentOf(s, id, utxo), strings)
  {
    hide Unknown, ObserveTransaction, BoundTo, SpentOf;
    SpendsIt(s, id, utxo);
  }

  lemma Restarts(cx: Cx, s: Index, strings: set<Bytes>)
    requires Valid(s) && Stores(cx, s) && s.byAccount == map[] && s.persisted == map[]
    ensures Took(cx, s, RestartStep, EMPTY_INDEX.(plans := s.plans, nextId := s.nextId), strings)
  {
    hide Valid, Stores, Kept, IsLoaded, Save;
    RestartRestores(cx, s, EMPTY_INDEX.(persisted := Kept(s), plans := s.plans, nextId := s.nextId));
    KeptOfNone(s);
  }

  lemma {:induction false} RunOfSteps(cx: Cx, states: seq<Index>, steps: seq<Step>, strings: set<Bytes>)
    requires |states| == |steps| + 1
    requires forall i :: 0 <= i < |steps| ==> Took(cx, states[i], steps[i], states[i + 1], strings)
    ensures IndexRuns.Run(cx, states, steps, strings)
  {
    hide Enabled, Next;
    forall i | 0 <= i < |steps|
      ensures Enabled(cx, states[i], steps[i], strings) && Next(cx, states[i], steps[i], states[i + 1])
    {
      assert Took(cx, states[i], steps[i], states[i + 1], strings);
    }
  }

  lemma EmptyKnowsNone(id: AccountId, utxo: Utxo)
    requires utxo.output.storeRoot == EMPTY_STORE.root
    ensures Unknown(EMPTY_INDEX, id, utxo)
  {
  }

  // ----- one id bound twice -----

  // Bound and spent without a successor, then forgotten by a restart.
  lemma SpentAndForgotten(cx: Cx, id: AccountId, utxo: Utxo)
    requires Unknown(EMPTY_INDEX, id, utxo)
    ensures Took(cx, SpentOf(EMPTY_INDEX, id, utxo), RestartStep, EMPTY_INDEX, {})
  {
    hide Valid, Stores, Took, Unknown, Seen, BoundTo;
    EmptyIsValid(cx);
    SeenAndBound(cx, EMPTY_INDEX, id, utxo, {});
    BoundAndSpent(cx, EMPTY_INDEX, id, utxo, {});
    TookKeeps(cx, EMPTY_INDEX, TxStep({}, [utxo]), Seen(EMPTY_INDEX, utxo), {});
    TookKeeps(cx, Seen(EMPTY_INDEX, utxo), BindStep(id, utxo.ref), BoundTo(EMPTY_INDEX, id, utxo), {});
    TookKeeps(cx, BoundTo(EMPTY_INDEX, id, utxo), TxStep({utxo.ref}, []), SpentOf(EMPTY_INDEX, id, utxo), {});
    Restarts(cx, SpentOf(EMPTY_INDEX, id, utxo), {});
  }

  // A run in which one id is bound twice: observed, bound, spent without a successor, restarted, another
  // output observed, bound again.
  lemma BindsTwice(cx: Cx, id: AccountId, first: Utxo, second: Utxo) returns (states: seq<Index>, steps: seq<Step>)
    requires first.output.storeRoot == EMPTY_STORE.root && second.output.storeRoot == EMPTY_STORE.root
    ensures IndexRuns.Run(cx, states, steps, {}) && states[0] == EMPTY_INDEX && |steps| == 6
    ensures steps[1] == BindStep(id, first.ref) && BindOnce(states[1], id, first.ref).Success?
    ensures steps[5] == BindStep(id, second.ref) && BindOnce(states[5], id, second.ref).Success?
  {
    hide *;
    var none := EMPTY_INDEX;
    EmptyKnowsNone(id, first);
    EmptyKnowsNone(id, second);
    SeenAndBound(cx, none, id, first, {});
    BoundAndSpent(cx, none, id, first, {});
    SpentAndForgotten(cx, id, first);
    SeenAndBound(cx, none, id, second, {});
    states := [none, Seen(none, first), BoundTo(none, id, first), SpentOf(none, id, first),
      none, Seen(none, second), BoundTo(none, id, second)];
    steps := [TxStep({}, [first]), BindStep(id, first.ref), TxStep({first.ref}, []),
      RestartStep, TxStep({}, [second]), BindStep(id, second.ref)];
    RunOfSteps(cx, states, steps, {});
  }

  // ----- a plan on another account's store -----

  lemma NoStrings(h: HashFn, key: Bytes)
    ensures InjectiveOn(h, {}) && ProofForMissing(h, map[], key) == Success([])
    ensures MissingStrings(h, map[], key, []) <= {key}
    ensures RootStrings(h, PathMap(h, map[]), 0) + ExcludingStrings(h, h(key), 0, []) == {}
  {
    assert MpfLeaves(h, map[]) == [];
    assert PathMap(h, map[]) == map[];
  }

  lemma EmptyCollisionless(cx: Cx, key: Bytes)
    ensures Collisionless(cx.h, Digests(EMPTY_STORE.leaves), key, {key})
  {
    assert Digests(EMPTY_STORE.leaves) == map[];
    NoStrings(cx.h, key);
    hide ProofForMissing, MissingStrings, RootStrings, ExcludingStrings, PathMap, Digests;
  }

  lemma EmptyInsertable(h: HashFn, key: Bytes)
    ensures InjectiveOn(h, {}) && Insertable(h, map[], key)
  {
    assert PathMap(h, map[]) == map[];
  }

  // The first intent of an empty store is accepted.
  lemma FirstIntent(cx: Cx, key: Bytes, order: OrderId, intent: Intention) returns (predicted: Store)
    ensures Usable(cx, EMPTY_STORE) && OpResult(cx, EMPTY_STORE, InsertOp(key, order, intent)) == Success(predicted)
  {
    EmptyIsConsistent(cx);
    EmptyCollisionless(cx, key);
    EmptyInsertable(cx.h, key);
    assert Digests(EMPTY_STORE.leaves) == map[];
    hide Collisionless, Insertable, Inserted, Digests;
    var s', delta := InsertKeepsRoot(cx, EMPTY_STORE, key, order, intent, {key});
    predicted := s';
  }

  function PlanOf(id: AccountId, ref: OutputRef, predicted: Store): Index {
    EMPTY_INDEX.(plans := map[0 := PendingStore(id, ref, predicted)], nextId := 1)
  }

  lemma Plans(cx: Cx, id: AccountId, utxo: Utxo, key: Bytes, order: OrderId, intent: Intention)
    returns (predicted: Store)
    requires Unknown(EMPTY_INDEX, id, utxo)
    ensures Took(cx, BoundTo(EMPTY_INDEX, id, utxo), PlanStep(id, utxo.ref, InsertOp(key, order, intent)),
      SpentOf(PlanOf(id, utxo.ref, predicted), id, utxo), {key})
  {
    predicted := FirstIntent(cx, key, order, intent);
    EmptyCollisionless(cx, key);
    var s := BoundTo(EMPTY_INDEX, id, utxo);
    assert StoreForPlanning(s, id, utxo.ref) == Some(EMPTY_STORE);
    hide StoreForPlanning, OpResult, Collisionless, Usable;
    ReservesFirst(id, utxo, predicted);
    hide Reserve, DropPlans, SpentOf, PlanOf;
  }

  lemma ReservesFirst(id: AccountId, utxo: Utxo, predicted: Store)
    requires Unknown(EMPTY_INDEX, id, utxo)
    ensures
      var s := BoundTo(EMPTY_INDEX, id, utxo);
      Reserve(DropPlans(s, id, utxo.ref), id, utxo.ref, predicted) == SpentOf(PlanOf(id, utxo.ref, predicted), id, utxo)
  {
    var s := BoundTo(EMPTY_INDEX, id, utxo);
    var s1 := DropPlans(s, id, utxo.ref);
    assert s1 == s by { NothingDropped(s, id, utxo.ref); }
    hide DropPlans;
    Unset(EMPTY_INDEX.byRef, utxo.ref, id);
    Unset(EMPTY_INDEX.byAccount, id, Indexed(utxo, EMPTY_STORE));
    assert s.plans[0 := PendingStore(id, utxo.ref, predicted)] == map[0 := PendingStore(id, utxo.ref, predicted)];
  }

  lemma NothingDropped(s: Index, id: AccountId, ref: OutputRef)
    requires s.plans == map[] && s.planByRef == map[]
    ensures DropPlans(s, id, ref) == s
  {
    var s1 := DropPlans(s, id, ref);
    assert s1.plans == map[];
    assert s1.planByRef == map[];
  }

  lemma Extends(cx: Cx, states: seq<Index>, steps: seq<Step>, step: Step, s': Index, strings: set<Bytes>)
    requires IndexRuns.Run(cx, states, steps, strings) && Took(cx, states[|steps|], step, s', strings)
    ensures IndexRuns.Run(cx, states + [s'], steps + [step], strings)
  {
    hide Enabled, Next;
  }

  // Observed, bound and planned on, then restarted: only the plan is left.
  lemma PlannedAndRestarted(
    cx: Cx, id: AccountId, utxo: Utxo, key: Bytes, order: OrderId, intent: Intention)
    returns (predicted: Store, states: seq<Index>, steps: seq<Step>)
    requires Unknown(EMPTY_INDEX, id, utxo)
    ensures IndexRuns.Run(cx, states, steps, {key}) && |steps| == 4 && states[0] == EMPTY_INDEX
    ensures states[4] == PlanOf(id, utxo.ref, predicted)
  {
    hide *;
    var none := EMPTY_INDEX;
    var seen, bound := Seen(none, utxo), BoundTo(none, id, utxo);
    var plan := PlanStep(id, utxo.ref, InsertOp(key, order, intent));
    SeenAndBound(cx, none, id, utxo, {key});
    predicted := Plans(cx, id, utxo, key, order, intent);
    var left := PlanOf(id, utxo.ref, predicted);
    var planned := SpentOf(left, id, utxo);
    EmptyIsValid(cx);
    TookKeeps(cx, none, TxStep({}, [utxo]), seen, {key});
    TookKeeps(cx, seen, BindStep(id, utxo.ref), bound, {key});
    TookKeeps(cx, bound, plan, planned, {key});
    PlannedFields(id, utxo, predicted);
    Restarts(cx, planned, {key});
    states := [none, seen, bound, planned, left];
    steps := [TxStep({}, [utxo]), BindStep(id, utxo.ref), plan, RestartStep];
    RunOfSteps(cx, states, steps, {key});
  }

  lemma PlannedFields(id: AccountId, utxo: Utxo, predicted: Store)
    ensures
      var left := PlanOf(id, utxo.ref, predicted);
      var planned := SpentOf(left, id, utxo);
      && planned.byAccount == map[] && planned.persisted == map[]
      && EMPTY_INDEX.(plans := planned.plans, nextId := planned.nextId) == left
  {
  }

  // An account observed, bound and spent, at the end of a run.
  lemma Cycled(
    cx: Cx, states: seq<Index>, steps: seq<Step>, id: AccountId, utxo: Utxo, strings: set<Bytes>)
    returns (states': seq<Index>, steps': seq<Step>)
    requires IndexRuns.Run(cx, states, steps, strings) && Unknown(states[|steps|], id, utxo)
    ensures IndexRuns.Run(cx, states', steps', strings) && states'[0] == states[0]
    ensures states'[|steps'|] == SpentOf(states[|steps|], id, utxo)
  {
    RunLength(cx, states, steps, strings);
    hide *;
    var s := states[|steps|];
    SeenAndBound(cx, s, id, utxo, strings);
    BoundAndSpent(cx, s, id, utxo, strings);
    Extends(cx, states, steps, TxStep({}, [utxo]), Seen(s, utxo), strings);
    states', steps' := states + [Seen(s, utxo)], steps + [TxStep({}, [utxo])];
    Extends(cx, states', steps', BindStep(id, utxo.ref), BoundTo(s, id, utxo), strings);
    states', steps' := states' + [BoundTo(s, id, utxo)], steps' + [BindStep(id, utxo.ref)];
    Extends(cx, states', steps', TxStep({utxo.ref}, []), SpentOf(s, id, utxo), strings);
    states', steps' := states' + [SpentOf(s, id, utxo)], steps' + [TxStep({utxo.ref}, [])];
  }

  lemma RunLength(cx: Cx, states: seq<Index>, steps: seq<Step>, strings: set<Bytes>)
    requires IndexRuns.Run(cx, states, steps, strings)
    ensures |states| == |steps| + 1
  {
  }

  lemma OtherOwner(a: AccountId, b: AccountId, first: Utxo, second: Utxo, predicted: Store)
    requires a != b && first.ref != second.ref
    requires first.output.storeRoot == EMPTY_STORE.root && second.output.storeRoot == EMPTY_STORE.root
    ensures
      var left := PlanOf(a, first.ref, predicted);
      var s := SpentOf(SpentOf(left, b, first), a, second);
      && Unknown(left, b, first) && Unknown(SpentOf(left, b, first), a, second)
      && StoreForPlanning(s, a, first.ref).Some? && a !in s.byAccount
      && first.ref in s.rollback && s.rollback[first.ref].0 == b
  {
    var left := PlanOf(a, first.ref, predicted);
    var s := SpentOf(SpentOf(left, b, first), a, second);
    assert HasPlan(s, a, first.ref) by { assert 0 in s.plans; }
  }

  // A run in which a plan starts from another account's store: `a` plans on its output, the process restarts,
  // `b` is bound to that output and spends it, `a` is bound to another one and spends it; then `a` may plan on
  // its old output again, and the store it starts from is the one `b` had there.
  lemma PlansOnAnothersStore(
    cx: Cx, a: AccountId, b: AccountId, first: Utxo, second: Utxo, key: Bytes, order: OrderId, intent: Intention)
    returns (states: seq<Index>, steps: seq<Step>)
    requires a != b && first.ref != second.ref
    requires first.output.storeRoot == EMPTY_STORE.root && second.output.storeRoot == EMPTY_STORE.root
    ensures IndexRuns.Run(cx, states, steps, {key}) && |states| == |steps| + 1 && states[0] == EMPTY_INDEX
    ensures
      var s := states[|steps|];
      && StoreForPlanning(s, a, first.ref).Some? && a !in s.byAccount
      && first.ref in s.rollback && s.rollback[first.ref].0 == b
  {
    hide *;
    EmptyKnowsNone(a, first);
    var predicted: Store;
    predicted, states, steps := PlannedAndRestarted(cx, a, first, key, order, intent);
    OtherOwner(a, b, first, second, predicted);
    states, steps := Cycled(cx, states, steps, b, first, {key});
    states, steps := Cycled(cx, states, steps, a, second, {key});
    RunLength(cx, states, steps, {key});
  }
}
