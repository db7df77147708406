/**
 Whose store a plan starts from: its own account's, through every run in which nobody else is bound to an
 output a plan waits on.
 */
module IndexOwnPlans {
  import opened Bytes
  import opened Ledger
  import opened AccountStores
  import opened AccountIndexes
  import opened IndexInvariant
  import opened IndexStores
  import opened IndexPlanning
  import opened IndexSaved
  import opened IndexRuns

  // Whoever is bound, or kept for rollback, at the output of a plan is the plan's account.
  ghost predicate OwnPlans(s: Index) {
    forall n :: n in s.plans ==> OwnPlan(s, s.plans[n])
  }

  ghost predicate OwnPlan(s: Index, plan: PendingStore) {
    && (plan.oldRef in s.rollback ==> s.rollback[plan.oldRef].0 == plan.account)
    && (plan.oldRef in s.byRef ==> s.byRef[plan.oldRef] == plan.account)
  }

  // Every plan on `ref` is the account's own.
  ghost predicate OwnBinding(s: Index, id: AccountId, ref: OutputRef) {
    forall n :: n in s.plans && s.plans[n].oldRef == ref ==> s.plans[n].account == id
  }

  // The accounts a transaction may bind at `ref`: those it spends, those with a plan on what it spends, and
  // those foreseen there.
  ghost predicate Claims(s: Index, consumed: set<OutputRef>, ref: OutputRef, a: AccountId) {
    a in Owners(s, consumed) || Planner(s, consumed, a) || Foresees(s, ref, a)
  }

  // Nobody but the plan's account comes to an output a plan waits on.
  ghost predicate Guarded(s: Index, step: Step) {
    match step
    case BindStep(id, ref) => BindOnce(s, id, ref).Success? ==> OwnBinding(s, id, ref)
    case TxStep(consumed, produced) =>
      forall i, a :: 0 <= i < |produced| && Claims(s, consumed, produced[i].ref, a) ==>
        OwnBinding(s, a, produced[i].ref)
    case _ => true
  }

  // ----- one step -----

  lemma BindOwn(s: Index, id: AccountId, ref: OutputRef)
    requires Valid(s) && OwnPlans(s) && BindOnce(s, id, ref).Success?
    ensures OwnPlans(BindOnce(s, id, ref).value) <==> OwnBinding(s, id, ref)
  {
    var s' := BindOnce(s, id, ref).value;
    assert s'.plans == s.plans && s'.rollback == s.rollback && s'.byRef == s.byRef[ref := id] by {
      BindMoves(s, id, ref);
    }
    assert ref !in s.rollback;
    hide Valid, BindOnce;
    if OwnPlans(s') {
      forall n | n in s.plans && s.plans[n].oldRef == ref
        ensures s.plans[n].account == id
      {
        assert OwnPlan(s', s'.plans[n]);
      }
    }
  }

  lemma BindMoves(s: Index, id: AccountId, ref: OutputRef)
    requires OwnKeys(s) && BindOnce(s, id, ref).Success?
    ensures
      var s' := BindOnce(s, id, ref).value;
      s'.plans == s.plans && s'.rollback == s.rollback && s'.byRef == s.byRef[ref := id]
  {
    assert s.unbound[ref].ref == ref;
  }

  // Fewer plans and fewer places change nothing.
  lemma OwnWithin(s: Index, s': Index)
    requires OwnPlans(s) && Within(s.plans, s'.plans) && Within(s.rollback, s'.rollback) && Within(s.byRef, s'.byRef)
    ensures OwnPlans(s')
  {
    forall n | n in s'.plans
      ensures OwnPlan(s', s'.plans[n])
    {
      assert OwnPlan(s, s.plans[n]);
    }
  }

  // The account is bound there, or already kept for rollback there.
  lemma ReserveOwn(s: Index, id: AccountId, oldRef: OutputRef, store: Store)
    requires OwnPlans(s) && OwnBinding(s, id, oldRef)
    requires id in s.byAccount || (oldRef in s.rollback ==> s.rollback[oldRef].0 == id)
    ensures OwnPlans(Reserve(s, id, oldRef, store))
  {
    var s' := Reserve(s, id, oldRef, store);
    forall n | n in s'.plans
      ensures OwnPlan(s', s'.plans[n])
    {
      if n != s.nextId { assert OwnPlan(s, s.plans[n]); }
    }
  }

  lemma PlanOwn(s: Index, id: AccountId, oldRef: OutputRef, store: Store)
    requires Valid(s) && OwnPlans(s) && StoreForPlanning(s, id, oldRef).Some?
    ensures OwnPlans(Reserve(DropPlans(s, id, oldRef), id, oldRef, store))
  {
    OwnBase(s, id, oldRef);
    BaseBound(s, id, oldRef);
    hide Valid, StoreForPlanning, Reserve;
    var s1 := DropPlans(s, id, oldRef);
    assert Within(s.plans, s1.plans) && s1.rollback == s.rollback && s1.byRef == s.byRef;
    OwnWithin(s, s1);
    assert OwnBinding(s1, id, oldRef) by {
      forall n | n in s1.plans && s1.plans[n].oldRef == oldRef
        ensures s1.plans[n].account == id
      {
        assert OwnPlan(s, s.plans[n]);
      }
    }
    ReserveOwn(s1, id, oldRef, store);
  }

  lemma BaseBound(s: Index, id: AccountId, oldRef: OutputRef)
    requires Valid(s) && StoreForPlanning(s, id, oldRef).Some?
    ensures id in s.byAccount ==> oldRef in s.byRef && s.byRef[oldRef] == id
    ensures id !in s.byAccount ==> oldRef in s.rollback
  {
  }

  lemma RollbackOwn(s: Index, ref: OutputRef)
    requires OwnPlans(s) && OwnKeys(s)
    ensures OwnPlans(ObserveRollbackConsumed(s, ref))
  {
    var s' := ObserveRollbackConsumed(s, ref);
    forall n | n in s'.plans
      ensures OwnPlan(s', s'.plans[n])
    {
      assert OwnPlan(s, s.plans[n]);
    }
  }

  lemma RemovedOwn(s: Index, ref: OutputRef)
    requires OwnPlans(s)
    ensures OwnPlans(ObserveRemoved(s, ref))
  {
    hide OwnPlans;
    OwnWithin(s, ObserveRemoved(s, ref));
  }

  lemma ConsumeOwn(s: Index, consumed: set<OutputRef>)
    requires Valid(s) && OwnPlans(s)
    ensures OwnPlans(ConsumeAll(s, consumed))
  {
    var c := ConsumeAll(s, consumed);
    hide Owners;
    forall n | n in c.plans
      ensures OwnPlan(c, c.plans[n])
    {
      assert OwnPlan(s, s.plans[n]);
    }
  }

  // Somebody bound after the step was bound there before, or is the one bound by it.
  lemma BoundBefore(s: Index, s': Index, x: Option<AccountId>, utxo: Utxo, r: OutputRef)
    requires Inverse(s.byAccount, s.byRef) && Inverse(s'.byAccount, s'.byRef)
    requires Outcome(s, s', x, utxo) && r in s'.byRef
    ensures (r in s.byRef && s.byRef[r] == s'.byRef[r]) || (x == Some(s'.byRef[r]) && r == utxo.ref)
  {
    var a := s'.byRef[r];
    assert s'.byAccount[a].utxo.ref == r;
    if x.Some? { BoundStands(s, s', x.value, utxo); }
  }

  lemma OutcomeOwn(s: Index, s': Index, x: Option<AccountId>, utxo: Utxo)
    requires Inverse(s.byAccount, s.byRef) && Inverse(s'.byAccount, s'.byRef) && Outcome(s, s', x, utxo)
    requires OwnPlans(s) && (x.Some? ==> OwnBinding(s, x.value, utxo.ref))
    ensures OwnPlans(s')
  {
    assert s'.rollback == s.rollback && Within(s.plans, s'.plans);
    forall n | n in s'.plans
      ensures OwnPlan(s', s'.plans[n])
    {
      assert OwnPlan(s, s.plans[n]);
      if s.plans[n].oldRef in s'.byRef { BoundBefore(s, s', x, utxo, s.plans[n].oldRef); }
    }
    hide Inverse, Outcome;
  }

  // Fewer plans and less foresight make no new claims.
  lemma FewerClaims(s: Index, s': Index, consumed: set<OutputRef>, owners: set<AccountId>, ref: OutputRef, a: AccountId)
    requires Narrower(s, s') && (a in owners || Planner(s', consumed, a) || Foresees(s', ref, a))
    ensures a in owners || Planner(s, consumed, a) || Foresees(s, ref, a)
  {
    hide Narrower, Planner, Foresees;
    if Planner(s', consumed, a) { FewerPlanners(s, s', consumed, a); }
    if Foresees(s', ref, a) { LessForeseen(s, s', ref, a); }
  }

  ghost predicate GuardedOutputs(s: Index, consumed: set<OutputRef>, owners: set<AccountId>, produced: seq<Utxo>) {
    forall i, a ::
      0 <= i < |produced| && (a in owners || Planner(s, consumed, a) || Foresees(s, produced[i].ref, a)) ==>
      OwnBinding(s, a, produced[i].ref)
  }

  lemma OneProducedOwn(
    s: Index, s1: Index, consumed: set<OutputRef>, owners: set<AccountId>, produced: seq<Utxo>, i: nat)
    requires i < |produced| && GuardedOutputs(s, consumed, owners, produced) && Narrower(s, s1) && OwnPlans(s1)
    requires
      var s' := ObserveProduced(s1, consumed, owners, produced[i]);
      Inverse(s1.byAccount, s1.byRef) && Inverse(s'.byAccount, s'.byRef)
    ensures OwnPlans(ObserveProduced(s1, consumed, owners, produced[i]))
    ensures Narrower(s, ObserveProduced(s1, consumed, owners, produced[i]))
  {
    hide ObserveProduced, Planner, Foresees, Narrower, Inverse, OwnPlans, BoundAt, OtherPlansStay, OwnBinding;
    var x := ProducedBinds(s1, consumed, owners, produced[i]);
    NarrowerTransitive(s, s1, ObserveProduced(s1, consumed, owners, produced[i]));
    if x.Some? {
      FewerClaims(s, s1, consumed, owners, produced[i].ref, x.value);
      OwnBindingWithin(s, s1, x.value, produced[i].ref);
    }
    OutcomeOwn(s1, ObserveProduced(s1, consumed, owners, produced[i]), x, produced[i]);
  }

  lemma ValidInverse(s: Index)
    requires Valid(s)
    ensures Inverse(s.byAccount, s.byRef)
  {
  }

  lemma FirstFresh(s: Index, produced: seq<Utxo>, n: nat)
    requires AllFresh(s, produced) && n <= |produced|
    ensures AllFresh(s, produced[..n])
  {
  }

  lemma {:induction false} ProducedOwn(
    s: Index, consumed: set<OutputRef>, owners: set<AccountId>, produced: seq<Utxo>, n: nat)
    requires Valid(s) && AllFresh(s, produced) && OwnPlans(s) && GuardedOutputs(s, consumed, owners, produced)
    requires n <= |produced|
    ensures OwnPlans(ObserveAllProduced(s, consumed, owners, produced[..n]))
    ensures Narrower(s, ObserveAllProduced(s, consumed, owners, produced[..n]))
    decreases n
  {
    hide Valid, ObserveProduced, GuardedOutputs, Inverse, OwnPlans, AllFresh, Narrower;
    if n == 0 {
      NarrowerSelf(s);
    } else {
      ProducedOwn(s, consumed, owners, produced, n - 1);
      FirstFresh(s, produced, n - 1);
      FirstFresh(s, produced, n);
      AllProducedKeep(s, consumed, owners, produced[..n - 1]);
      AllProducedKeep(s, consumed, owners, produced[..n]);
      var s1 := ObserveAllProduced(s, consumed, owners, produced[..n - 1]);
      assert produced[..n][..n - 1] == produced[..n - 1];
      assert ObserveAllProduced(s, consumed, owners, produced[..n]) ==
        ObserveProduced(s1, consumed, owners, produced[n - 1]);
      ValidInverse(s1);
      ValidInverse(ObserveProduced(s1, consumed, owners, produced[n - 1]));
      OneProducedOwn(s, s1, consumed, owners, produced, n - 1);
    }
  }

  lemma OwnBindingWithin(s: Index, s': Index, id: AccountId, ref: OutputRef)
    requires Narrower(s, s') && OwnBinding(s, id, ref)
    ensures OwnBinding(s', id, ref)
  {
  }

  lemma ConsumeGuards(s: Index, consumed: set<OutputRef>, produced: seq<Utxo>)
    requires Guarded(s, TxStep(consumed, produced))
    ensures GuardedOutputs(ConsumeAll(s, consumed), consumed, Owners(s, consumed), produced)
  {
    var c := ConsumeAll(s, consumed);
    assert Narrower(s, c) && c.plans == s.plans;
    hide ConsumeAll, Owners, Planner, Foresees, Narrower;
    forall i, a | 0 <= i < |produced| &&
      (a in Owners(s, consumed) || Planner(c, consumed, a) || Foresees(c, produced[i].ref, a))
      ensures OwnBinding(c, a, produced[i].ref)
    {
      FewerClaims(s, c, consumed, Owners(s, consumed), produced[i].ref, a);
      assert Claims(s, consumed, produced[i].ref, a);
    }
  }

  lemma TransactionOwn(s: Index, consumed: set<OutputRef>, produced: seq<Utxo>)
    requires Valid(s) && AllFresh(s, produced) && OwnPlans(s) && Guarded(s, TxStep(consumed, produced))
    ensures OwnPlans(ObserveTransaction(s, consumed, produced))
  {
    hide Valid, OwnPlans, ConsumeAll, Owners, Guarded, GuardedOutputs, ObserveAllProduced, Fresh;
    ConsumeKeeps(s, consumed);
    ConsumeOwn(s, consumed);
    ConsumeGuards(s, consumed, produced);
    ProducedOwn(ConsumeAll(s, consumed), consumed, Owners(s, consumed), produced, |produced|);
    assert produced[..|produced|] == produced;
  }

  lemma RestartOwn(cx: Cx, s: Index, s': Index)
    requires Valid(s) && Stores(cx, s) && IsLoaded(cx, Save(s), s')
    ensures OwnPlans(s')
  {
    RestartRestores(cx, s, s');
    hide Valid, Stores, IsLoaded, Save, Kept;
  }

  lemma PlanStepOwn(cx: Cx, s: Index, step: Step, s': Index)
    requires step.PlanStep? && Valid(s) && OwnPlans(s) && Next(cx, s, step, s')
    ensures OwnPlans(s')
  {
    hide Valid, OwnPlans, OpResult, Usable, StoreForPlanning, Reserve, DropPlans;
    var (id, oldRef, op) := (step.id, step.oldRef, step.op);
    if Plan(cx, s, id, oldRef, op).Planned? { PlanOwn(s, id, oldRef, Plan(cx, s, id, oldRef, op).predicted); }
  }

  lemma TxStepOwn(cx: Cx, s: Index, step: Step, s': Index, strings: set<Bytes>)
    requires step.TxStep? && Valid(s) && OwnPlans(s) && Enabled(cx, s, step, strings) && Next(cx, s, step, s')
    requires Guarded(s, step)
    ensures OwnPlans(s')
  {
    hide Valid, OwnPlans, ObserveTransaction, AllFresh, OwnBinding, Claims;
    TransactionOwn(s, step.consumed, step.produced);
  }

  lemma SmallStepOwn(cx: Cx, s: Index, step: Step, s': Index)
    requires step.AttachStep? || step.RemovedStep? || step.RollbackStep? || step.BindStep?
    requires Valid(s) && OwnPlans(s) && Next(cx, s, step, s') && Guarded(s, step)
    ensures OwnPlans(s')
  {
    assert OwnKeys(s);
    hide Valid, OwnKeys, OwnPlans, ObserveRollbackConsumed, ObserveRemoved, BindOnce, OwnBinding;
    match step
    case AttachStep(snapshot, ref) => OwnWithin(s, s');
    case RemovedStep(ref) => RemovedOwn(s, ref);
    case RollbackStep(ref) => RollbackOwn(s, ref);
    case BindStep(id, ref) => if BindOnce(s, id, ref).Success? { BindOwn(s, id, ref); }
  }

  // Every guarded step keeps it, restarts included.
  lemma StepOwn(cx: Cx, s: Index, step: Step, s': Index, strings: set<Bytes>)
    requires Valid(s) && Stores(cx, s) && OwnPlans(s) && Enabled(cx, s, step, strings) && Next(cx, s, step, s')
    requires Guarded(s, step)
    ensures OwnPlans(s')
  {
    hide Valid, Stores, OwnPlans, Enabled, Next, Guarded;
    match step
    case PlanStep(_, _, _) => PlanStepOwn(cx, s, step, s');
    case TxStep(_, _) => TxStepOwn(cx, s, step, s', strings);
    case RestartStep =>
      RestartNext(cx, s, s');
      RestartOwn(cx, s, s');
    case _ => SmallStepOwn(cx, s, step, s');
  }

  // ----- without restarts -----

  // The output a plan spends is kept for rollback under the plan's own account.
  ghost predicate PlansBacked(s: Index) {
    forall n :: n in s.plans ==>
      s.plans[n].oldRef in s.rollback && s.rollback[s.plans[n].oldRef].0 == s.plans[n].account
  }

  lemma BackedWithin(s: Index, s': Index)
    requires PlansBacked(s) && Within(s.plans, s'.plans) && Within(s'.rollback, s.rollback)
    ensures PlansBacked(s')
  {
  }

  lemma {:induction false} AllProducedSpend(
    s: Index, consumed: set<OutputRef>, owners: set<AccountId>, produced: seq<Utxo>)
    ensures ObserveAllProduced(s, consumed, owners, produced).rollback == s.rollback
    ensures Within(s.plans, ObserveAllProduced(s, consumed, owners, produced).plans)
    decreases |produced|
  {
    hide ObserveProduced, Foresees, Planner, BoundAt, OtherPlansStay;
    if produced != [] {
      var last := |produced| - 1;
      AllProducedSpend(s, consumed, owners, produced[..last]);
      var s1 := ObserveAllProduced(s, consumed, owners, produced[..last]);
      var _ := ProducedBinds(s1, consumed, owners, produced[last]);
    }
  }

  lemma TransactionBacked(s: Index, consumed: set<OutputRef>, produced: seq<Utxo>)
    requires Apart(s) && PlansBacked(s)
    ensures PlansBacked(ObserveTransaction(s, consumed, produced))
  {
    var c := ConsumeAll(s, consumed);
    assert Within(c.rollback, s.rollback) && c.plans == s.plans;
    hide ConsumeAll, Owners, PlansBacked, ObserveAllProduced;
    AllProducedSpend(c, consumed, Owners(s, consumed), produced);
    BackedWithin(s, ObserveTransaction(s, consumed, produced));
  }

  lemma RollbackBacked(s: Index, ref: OutputRef)
    requires PlansBacked(s)
    ensures PlansBacked(ObserveRollbackConsumed(s, ref))
  {
  }

  lemma PlanBacked(s: Index, id: AccountId, oldRef: OutputRef, store: Store)
    requires Valid(s) && PlansBacked(s) && StoreForPlanning(s, id, oldRef).Some?
    ensures PlansBacked(Reserve(DropPlans(s, id, oldRef), id, oldRef, store))
  {
    assert id in s.byAccount ==> oldRef in s.byRef && oldRef !in s.rollback;
    hide Valid;
  }

  lemma QuietBacked(cx: Cx, s: Index, step: Step, s': Index)
    requires PlansBacked(s) && Next(cx, s, step, s') && (step.AttachStep? || step.RemovedStep? || step.BindStep?)
    ensures PlansBacked(s')
  {
    hide PlansBacked, FromObservedRoot;
    assert s'.plans == s.plans && s'.rollback == s.rollback;
    BackedWithin(s, s');
  }

  lemma StepBacked(cx: Cx, s: Index, step: Step, s': Index)
    requires Valid(s) && PlansBacked(s) && Next(cx, s, step, s') && !step.RestartStep?
    ensures PlansBacked(s')
  {
    assert Apart(s);
    hide Valid, Apart, PlansBacked, ObserveTransaction, ObserveRollbackConsumed, ObserveRemoved, BindOnce, Attach,
         OpResult, Usable, StoreForPlanning, Reserve, DropPlans;
    match step
    case PlanStep(id, oldRef, op) =>
      if Plan(cx, s, id, oldRef, op).Planned? { PlanBacked(s, id, oldRef, Plan(cx, s, id, oldRef, op).predicted); }
    case TxStep(consumed, produced) => TransactionBacked(s, consumed, produced);
    case RollbackStep(ref) => RollbackBacked(s, ref);
    case _ => QuietBacked(cx, s, step, s');
  }

  // ----- runs -----

  lemma {:induction false} BackedInProcess(
    cx: Cx, states: seq<Index>, steps: seq<Step>, strings: set<Bytes>, i: nat)
    requires IndexRuns.Run(cx, states, steps, strings) && states[0] == EMPTY_INDEX && i < |states|
    requires forall k :: 0 <= k < i ==> !steps[k].RestartStep?
    ensures PlansBacked(states[i])
  {
    hide Valid, Stores, Enabled, Next;
    if i > 0 {
      BackedInProcess(cx, states, steps, strings, i - 1);
      ReachableIsValid(cx, states, steps, strings, i - 1);
      StepBacked(cx, states[i - 1], steps[i - 1], states[i]);
    }
  }

  // As long as every plan's output is kept for rollback nobody can come to it, so every step is guarded.
  lemma BackedIsGuarded(cx: Cx, s: Index, step: Step, strings: set<Bytes>)
    requires Valid(s) && PlansBacked(s) && Enabled(cx, s, step, strings)
    ensures Guarded(s, step)
  {
    assert s.unbound.Keys !! s.rollback.Keys;
    hide Valid, Claims;
    match step
    case BindStep(id, ref) => if BindOnce(s, id, ref).Success? { assert ref in s.unbound; }
    case TxStep(consumed, produced) => assert forall i :: 0 <= i < |produced| ==> Fresh(s, produced[i].ref);
    case _ =>
  }

  // Over every run, restarts included, in which nobody else is bound to an output a plan waits on, every plan,
  // first or repeated, starts from its own account's store.
  lemma {:induction false} PlansOwnStore(
    cx: Cx, states: seq<Index>, steps: seq<Step>, strings: set<Bytes>, i: nat, id: AccountId, oldRef: OutputRef)
    requires IndexRuns.Run(cx, states, steps, strings) && states[0] == EMPTY_INDEX && i < |states|
    requires forall k :: 0 <= k < i ==> Guarded(states[k], steps[k])
    ensures OwnPlans(states[i])
    ensures StoreForPlanning(states[i], id, oldRef).Some? ==>
      id in states[i].byAccount || states[i].rollback[oldRef].0 == id
  {
    hide Valid, Stores, Enabled, Next, Guarded;
    if i > 0 {
      PlansOwnStore(cx, states, steps, strings, i - 1, id, oldRef);
      ReachableIsValid(cx, states, steps, strings, i - 1);
      StepOwn(cx, states[i - 1], steps[i - 1], states[i], strings);
    }
    if StoreForPlanning(states[i], id, oldRef).Some? { OwnBase(states[i], id, oldRef); }
  }

  lemma OwnBase(s: Index, id: AccountId, oldRef: OutputRef)
    requires OwnPlans(s) && StoreForPlanning(s, id, oldRef).Some?
    ensures id in s.byAccount || s.rollback[oldRef].0 == id
  {
    if id !in s.byAccount {
      var n :| n in s.plans && s.plans[n].account == id && s.plans[n].oldRef == oldRef;
      assert OwnPlan(s, s.plans[n]);
    }
  }

  // A process that has not been restarted needs no guard.
  lemma ProcessIsGuarded(cx: Cx, states: seq<Index>, steps: seq<Step>, strings: set<Bytes>, i: nat)
    requires IndexRuns.Run(cx, states, steps, strings) && states[0] == EMPTY_INDEX && i < |steps|
    requires forall k :: 0 <= k < i ==> !steps[k].RestartStep?
    ensures Guarded(states[i], steps[i])
  {
    ReachableIsValid(cx, states, steps, strings, i);
    BackedInProcess(cx, states, steps, strings, i);
    hide Valid, Stores, Next, Guarded, Enabled, PlansBacked;
    BackedIsGuarded(cx, states[i], steps[i], strings);
  }
}
