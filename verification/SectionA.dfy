/** The dispatcher's effect machine: one live step, one durable step, and why the constants
    the durable step reads are the composition of the transition table. */
module SectionA {
  import opened Wrappers
  import opened Schema
  import opened Events
  import opened Projection

  /** A section-A state; RECONCILED carries its disposition. */
  datatype MachineA = MachineA(name: StateA, disposition: Option<Disposition>)

  const GENESIS_A: MachineA := MachineA(Genesis, None)

  /** One live step; None is an illegal (state, event) pair. */
  function ApplyA(state: MachineA, e: EffectEvent): Option<MachineA> {
    if state.name != FromA(e.variant) then None
    else match e.variant
      case ReconcileReplayIdentity => if state.disposition == e.disposition then Some(state) else None
      case ReconcileAccept => Some(MachineA(Reconciled, e.disposition))
      case ReconcileRejectRestoreHold => Some(MachineA(Held, None))
      case _ => Some(MachineA(ToA(e.variant), None))
  }

  // ----- epoch algebra, shared by both machines ------------------------------

  predicate Accepting(d: Disposition) {
    d.AcceptOurs? || d.AcceptForeignAdvanced? || d.ActorVerifiedAuto?
  }

  /** The per-row epoch algebra. `carriesNewOid` says whether the row's family has a
      new_oid field at all. An accepting disposition may, but need not, advance. */
  predicate EpochAlgebraOk(effect: EpochEffect, before: string, after: string, newOid: Option<string>,
                           disposition: Option<Disposition>, carriesNewOid: bool)
  {
    match effect
    case NoEffect => before == after
    case AssignNewOid => before != after && newOid == Some(after)
    case PerDisposition | AsAcceptOurs =>
      var accepting := effect.AsAcceptOurs? || (disposition.Some? && Accepting(disposition.value));
      && (!accepting ==> before == after)
      && (disposition == Some(AcceptOurs) && carriesNewOid ==> newOid == Some(after))
  }

  predicate EpochOkA(e: EffectEvent) {
    EpochAlgebraOk(EpochEffectA(e.variant), e.epochBefore, e.epochAfter, e.newOid, e.disposition,
                   RequiresNewOid(e.variant) || MayCarryNewOid(e.variant))
  }

  // ----- the projection machine ----------------------------------------------

  predicate Durable(s: StateA) {
    !MemoryOnly(s)
  }

  /** The generated frontier: live states a durable event's audit `from` may name. */
  function Frontier(d: StateA): set<StateA> {
    match d
    case Genesis => {Genesis}
    case Prepared => {EffectObserved, OutcomeUnknown, Prepared, RejectedNoEffect, Submitted}
    case Held => {Held}
    case Explained => {Explained}
    case Reconciled => {Reconciled}
    case _ => {}
  }

  /** The generated durable edges. */
  const PROJECTION_EDGES: set<(StateA, StateA)> :=
    {(Genesis, Prepared), (Held, Held), (Held, Reconciled), (Prepared, Explained), (Prepared, Held),
     (Reconciled, Reconciled)}

  /** One durable step from the current durable state; None halts the base. */
  function StepA(cur: MachineA, e: EffectEvent): Option<MachineA> {
    if MemoryOnly(ToA(e.variant)) then None
    else if !EpochOkA(e) then None
    else if cur.name.Reconciled? && e.variant.ReconcileAccept? then
      if cur.disposition == e.disposition then Some(cur) else None
    else if FromA(e.variant) !in Frontier(cur.name) then None
    else if (cur.name, ToA(e.variant)) !in PROJECTION_EDGES then None
    else if OperatorRowA(e.variant) then ApplyA(cur, e)
    else Some(MachineA(ToA(e.variant), None))
  }

  // ----- one durable step, row by row ----------------------------------------

  /** The record keeps the epoch. */
  predicate KeepsEpoch(e: EffectEvent) {
    e.epochBefore == e.epochAfter
  }

  /** What an accepting reconcile pins: ACCEPT_OURS must land on the new object it names; the
      epoch need not move. */
  predicate PinsItsObject(e: EffectEvent) {
    e.disposition == Some(AcceptOurs) ==> e.newOid == Some(e.epochAfter)
  }

  /** Exactly which records a reduced movement accepts, by state and payload, and the state each
      leaves it in. */
  lemma StepByRow(cur: MachineA, e: EffectEvent)
    requires Durable(cur.name)
    ensures StepA(cur, e) ==
            match cur.name
            case Genesis =>
              if e.variant.Prepare? && KeepsEpoch(e) then Some(MachineA(Prepared, None)) else None
            case Prepared => (
              match e.variant
              case ExplainedByMatch =>
                if e.epochBefore != e.epochAfter && e.newOid == Some(e.epochAfter) then Some(MachineA(Explained, None))
                else None
              case RejectExplained => if KeepsEpoch(e) then Some(MachineA(Explained, None)) else None
              case CrashRecoveryFromPrepared | CrashRecoveryFromSubmitted | CrashRecoveryFromOutcomeUnknown
                 | LaterObservationFromPrepared | LaterObservationFromSubmitted | LaterObservationFromOutcomeUnknown
                 | MoveToHoldFromPrepared | ObserveEffectParentMismatch =>
                if KeepsEpoch(e) then Some(MachineA(Held, None)) else None
              case _ => None)
            case Held => (
              match e.variant
              case ReconcileAccept => if PinsItsObject(e) then Some(MachineA(Reconciled, e.disposition)) else None
              case ReconcileRejectRestoreHold => if KeepsEpoch(e) then Some(MachineA(Held, None)) else None
              case _ => None)
            case Reconciled => (
              match e.variant
              case ReconcileAccept => if PinsItsObject(e) && cur.disposition == e.disposition then Some(cur) else None
              case ReconcileReplayIdentity => if KeepsEpoch(e) && cur.disposition == e.disposition then Some(cur)
                else None
              case _ => None)
            case _ => None
  {
    assert (cur.name, ToA(e.variant)) in PROJECTION_EDGES <==>
             match cur.name
             case Genesis => ToA(e.variant).Prepared?
             case Prepared => ToA(e.variant).Explained? || ToA(e.variant).Held?
             case Held => ToA(e.variant).Held? || ToA(e.variant).Reconciled?
             case Reconciled => ToA(e.variant).Reconciled?
             case _ => false;
  }

  // ----- the generated constants are the composed table ----------------------

  const SECTION_A_ROWS: seq<Row<StateA>> := [
    Row([Genesis], Prepared),
    Row([Prepared], Submitted),
    Row([Prepared], OutcomeUnknown),
    Row([Prepared], Held),
    Row([Submitted], EffectObserved),
    Row([Submitted], Held),
    Row([Submitted], RejectedNoEffect),
    Row([Submitted], OutcomeUnknown),
    Row([Submitted], Held),
    Row([EffectObserved], Explained),
    Row([RejectedNoEffect], Explained),
    Row([OutcomeUnknown], Held),
    Row([Held], Reconciled),
    Row([Held], Held),
    Row([Reconciled], Reconciled),
    Default, Default, Default]

  const MEMORY_ONLY: set<StateA> := {Submitted, EffectObserved, RejectedNoEffect, OutcomeUnknown}

  /** The row of the table each event variant transcribes. */
  function RowOf(v: EffectVariant): nat {
    match v
    case Prepare => 0
    case Submit => 1
    case SubmitOutcomeUnknown => 2
    case CrashRecoveryFromPrepared | LaterObservationFromPrepared | MoveToHoldFromPrepared => 3
    case ObserveEffectMatched => 4
    case ObserveEffectParentMismatch => 5
    case ObserveReject => 6
    case TimeoutUnknown => 7
    case CrashRecoveryFromSubmitted | LaterObservationFromSubmitted => 8
    case ExplainedByMatch => 9
    case RejectExplained => 10
    case LaterObservationFromOutcomeUnknown | CrashRecoveryFromOutcomeUnknown => 11
    case ReconcileAccept => 12
    case ReconcileRejectRestoreHold => 13
    case ReconcileReplayIdentity => 14
  }

  /** A row's guard. Which parent pair was observed is decided before the event is made. */
  datatype Guard = Unguarded | ParentPairMatch | ParentPairMismatch | AcceptingOnly | RejectOnly | SameDisposition

  /** The rest of a row: its triggers, its guard, and its effects on the epoch and the hold. */
  datatype RowSpec = RowSpec(id: string, triggers: seq<string>, guard: Guard, epoch: EpochEffect, hold: string)

  const SECTION_A_SPECS: seq<RowSpec> := [
    RowSpec("prepare", ["prepare"], Unguarded, NoEffect, "NONE"),
    RowSpec("submit", ["submit"], Unguarded, NoEffect, "NONE"),
    RowSpec("submit_outcome_unknown", ["submit_outcome_unknown"], Unguarded, NoEffect, "NONE"),
    RowSpec("prepared_to_held", ["crash_recovery", "later_observation", "move_to_hold"], Unguarded, NoEffect,
            "CREATED"),
    RowSpec("observe_effect_matched", ["observe_effect"], ParentPairMatch, NoEffect, "NONE"),
    RowSpec("observe_effect_mismatch", ["observe_effect"], ParentPairMismatch, NoEffect, "CREATED"),
    RowSpec("observe_reject", ["observe_reject"], Unguarded, NoEffect, "NONE"),
    RowSpec("timeout_unknown", ["timeout_unknown"], Unguarded, NoEffect, "NONE"),
    RowSpec("submitted_to_held", ["crash_recovery", "later_observation"], Unguarded, NoEffect, "CREATED"),
    RowSpec("explained", ["match_in_memory"], Unguarded, AssignNewOid, "NONE"),
    RowSpec("reject_explained", ["match_in_memory"], Unguarded, NoEffect, "NONE"),
    RowSpec("unknown_to_held", ["later_observation", "crash_recovery"], Unguarded, NoEffect, "CREATED"),
    RowSpec("reconcile_accept", ["operator_reconcile"], AcceptingOnly, PerDisposition, "RELEASED"),
    RowSpec("reconcile_reject_restore_hold", ["operator_reconcile"], RejectOnly, NoEffect, "RETAINED"),
    RowSpec("reconcile_replay_identity", ["operator_reconcile"], SameDisposition, NoEffect, "NONE")]

  /** What a typed event of a guarded row carries; the replay's sameness is checked against
      the machine when it steps. */
  predicate GuardHolds(g: Guard, e: EffectEvent) {
    match g
    case AcceptingOnly | SameDisposition => e.disposition.Some? && OperatorAccepting(e.disposition.value)
    case RejectOnly => e.disposition == Some(RejectRestoreHold)
    case _ => true
  }

  lemma VariantStates(v: EffectVariant)
    ensures SECTION_A_ROWS[RowOf(v)] == Row([FromA(v)], ToA(v))
  {
  }

  lemma VariantGuard(e: EffectEvent)
    ensures RowOf(e.variant) < |SECTION_A_SPECS| && GuardHolds(SECTION_A_SPECS[RowOf(e.variant)].guard, e)
  {
  }

  lemma VariantSpec(v: EffectVariant)
    ensures RowOf(v) < |SECTION_A_SPECS|
    ensures var spec := SECTION_A_SPECS[RowOf(v)];
            TriggerA(v) in spec.triggers && EpochEffectA(v) == spec.epoch && HoldEffectA(v) == spec.hold
  {
    assert "crash_recovery" in ["crash_recovery", "later_observation"]
           && "later_observation" in ["crash_recovery", "later_observation"];
  }

  /** Each variant transcribes its row: source, target, a trigger of the row, the epoch and
      the hold effect, and its events satisfy the row's guard. */
  lemma VariantTakesRow(v: EffectVariant)
    ensures RowOf(v) < |SECTION_A_SPECS| && SECTION_A_ROWS[RowOf(v)] == Row([FromA(v)], ToA(v))
    ensures var spec := SECTION_A_SPECS[RowOf(v)];
            && TriggerA(v) in spec.triggers && EpochEffectA(v) == spec.epoch && HoldEffectA(v) == spec.hold
            && forall e: EffectEvent :: e.variant == v ==> GuardHolds(spec.guard, e)
  {
    hide GuardHolds, TriggerA, EpochEffectA, HoldEffectA, EffectOk;
    VariantStates(v);
    VariantSpec(v);
    forall e: EffectEvent | e.variant == v ensures GuardHolds(SECTION_A_SPECS[RowOf(v)].guard, e) {
      VariantGuard(e);
    }
  }

  /** And every trigger of every row has a variant that transcribes it. */
  lemma TriggerHasVariant(i: nat, k: nat) returns (v: EffectVariant)
    requires i < |SECTION_A_SPECS| && k < |SECTION_A_SPECS[i].triggers|
    ensures RowOf(v) == i && TriggerA(v) == SECTION_A_SPECS[i].triggers[k]
  {
    v := if i < 8 then EarlyVariant(i, k) else LateVariant(i, k);
  }

  function EarlyVariant(i: nat, k: nat): (v: EffectVariant)
    requires i < 8 && k < |SECTION_A_SPECS[i].triggers|
    ensures RowOf(v) == i && TriggerA(v) == SECTION_A_SPECS[i].triggers[k]
  {
    if i == 0 then Prepare else if i == 1 then Submit else if i == 2 then SubmitOutcomeUnknown
    else if i == 3 then (if k == 0 then CrashRecoveryFromPrepared
                         else if k == 1 then LaterObservationFromPrepared else MoveToHoldFromPrepared)
    else if i == 4 then ObserveEffectMatched else if i == 5 then ObserveEffectParentMismatch
    else if i == 6 then ObserveReject else TimeoutUnknown
  }

  function LateVariant(i: nat, k: nat): (v: EffectVariant)
    requires 8 <= i < |SECTION_A_SPECS| && k < |SECTION_A_SPECS[i].triggers|
    ensures RowOf(v) == i && TriggerA(v) == SECTION_A_SPECS[i].triggers[k]
  {
    if i == 8 then (if k == 0 then CrashRecoveryFromSubmitted else LaterObservationFromSubmitted)
    else if i == 9 then ExplainedByMatch else if i == 10 then RejectExplained
    else if i == 11 then (if k == 0 then LaterObservationFromOutcomeUnknown else CrashRecoveryFromOutcomeUnknown)
    else if i == 12 then ReconcileAccept else if i == 13 then ReconcileRejectRestoreHold
    else ReconcileReplayIdentity
  }

  /** The live steps, row by row. */
  predicate LiveStep(a: StateA, b: StateA) {
    match a
    case Genesis => b.Prepared?
    case Prepared => b.Submitted? || b.OutcomeUnknown? || b.Held?
    case Submitted => b.EffectObserved? || b.Held? || b.RejectedNoEffect? || b.OutcomeUnknown?
    case EffectObserved | RejectedNoEffect => b.Explained?
    case OutcomeUnknown => b.Held?
    case Held => b.Reconciled? || b.Held?
    case Explained => false
    case Reconciled => b.Reconciled?
  }

  function VariantFor(a: StateA, b: StateA): (v: EffectVariant)
    requires LiveStep(a, b)
    ensures FromA(v) == a && ToA(v) == b
  {
    match a
    case Genesis => Prepare
    case Prepared =>
      if b.Submitted? then Submit else if b.OutcomeUnknown? then SubmitOutcomeUnknown else MoveToHoldFromPrepared
    case Submitted =>
      if b.EffectObserved? then ObserveEffectMatched
      else if b.Held? then ObserveEffectParentMismatch
      else if b.RejectedNoEffect? then ObserveReject
      else TimeoutUnknown
    case EffectObserved => ExplainedByMatch
    case RejectedNoEffect => RejectExplained
    case OutcomeUnknown => CrashRecoveryFromOutcomeUnknown
    case Held => if b.Held? then ReconcileRejectRestoreHold else ReconcileAccept
    case Reconciled => ReconcileReplayIdentity
  }

  lemma RowsAreLiveSteps(a: StateA, b: StateA)
    ensures Step(SECTION_A_ROWS, a, b) <==> LiveStep(a, b)
  {
    if LiveStep(a, b) {
      var v := VariantFor(a, b);
      VariantStates(v);
      assert a in SECTION_A_ROWS[RowOf(v)].from;
    }
  }

  /** The composition facts need only that the rows generate the live steps. */
  ghost predicate Generates(rows: seq<Row<StateA>>) {
    forall a, b :: Step(rows, a, b) <==> LiveStep(a, b)
  }

  lemma SectionARowsGenerate()
    ensures Generates(SECTION_A_ROWS)
  {
    forall a, b ensures Step(SECTION_A_ROWS, a, b) <==> LiveStep(a, b) {
      RowsAreLiveSteps(a, b);
    }
  }

  lemma FrontierIsComposed(rows: seq<Row<StateA>>, d: StateA, x: StateA)
    requires Generates(rows) && Durable(d)
    ensures x in Frontier(d) <==> InFrontier(rows, MEMORY_ONLY, d, x)
  {
    if x in Frontier(d) {
      FrontierStart(rows, MEMORY_ONLY, d);
      if x != d {
        FrontierStep(rows, MEMORY_ONLY, d, Prepared, Submitted);
        FrontierStep(rows, MEMORY_ONLY, d, Prepared, OutcomeUnknown);
        FrontierStep(rows, MEMORY_ONLY, d, Submitted, EffectObserved);
        FrontierStep(rows, MEMORY_ONLY, d, Submitted, RejectedNoEffect);
      }
    }
    if InFrontier(rows, MEMORY_ONLY, d, x) {
      ClosedContainsFrontier(rows, MEMORY_ONLY, Frontier(d), d, x);
    }
  }

  lemma EdgesAreComposed(rows: seq<Row<StateA>>, d: StateA, n: StateA)
    requires Generates(rows) && Durable(d)
    ensures (d, n) in PROJECTION_EDGES <==> IsEdge(rows, MEMORY_ONLY, d, n)
  {
    hide Step, InFrontier;
    if (d, n) in PROJECTION_EDGES {
      var x := if n.Explained? then EffectObserved else d;
      FrontierIsComposed(rows, d, x);
      assert Step(rows, x, n);
    }
    if IsEdge(rows, MEMORY_ONLY, d, n) {
      var x :| InFrontier(rows, MEMORY_ONLY, d, x) && Step(rows, x, n);
      FrontierIsComposed(rows, d, x);
    }
  }

  /** The emitted projection constants are exactly the composition of the row table. */
  lemma ProjectionConstantsExact(rows: seq<Row<StateA>>)
    requires Generates(rows)
    ensures forall d, x :: Durable(d) ==> (x in Frontier(d) <==> InFrontier(rows, MEMORY_ONLY, d, x))
    ensures forall d, n :: Durable(d) ==> ((d, n) in PROJECTION_EDGES <==> IsEdge(rows, MEMORY_ONLY, d, n))
  {
    forall d, x | Durable(d) ensures x in Frontier(d) <==> InFrontier(rows, MEMORY_ONLY, d, x) {
      FrontierIsComposed(rows, d, x);
    }
    forall d, n | Durable(d) ensures (d, n) in PROJECTION_EDGES <==> IsEdge(rows, MEMORY_ONLY, d, n) {
      EdgesAreComposed(rows, d, n);
    }
  }

  const DURABLE_STATES: set<StateA> := {Genesis, Prepared, Held, Explained, Reconciled}

  /** The generator, run on rows describing the section-A machine, emits the constants the
      reducer reads. */
  method GenerateProjection(rows: seq<Row<StateA>>)
    returns (reachable: map<StateA, set<StateA>>, edges: set<(StateA, StateA)>)
    requires Generates(rows)
    ensures reachable.Keys == DURABLE_STATES
    ensures forall d :: d in reachable ==> reachable[d] == Frontier(d)
    ensures edges == PROJECTION_EDGES
  {
    hide Step, InFrontier, IsEdge, Frontier, LiveStep;
    reachable, edges := ComposeProjection(rows, MEMORY_ONLY, DURABLE_STATES);
    forall d | d in reachable ensures reachable[d] == Frontier(d) {
      forall x ensures x in reachable[d] <==> x in Frontier(d) {
        FrontierIsComposed(rows, d, x);
      }
    }
    forall d, n ensures (d, n) in edges <==> (d, n) in PROJECTION_EDGES {
      if Durable(d)
    {
        EdgesAreComposed(rows, d, n);
      }
    }
    forall p ensures p in edges <==> p in PROJECTION_EDGES {
      assert p == (p.0, p.1);
    }
  }
}
