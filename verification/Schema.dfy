/** The closed vocabularies and the transition rows of the two lifecycle machines. */
module Schema {
  import opened Wrappers
  import opened Wire

  // ----- dispositions and epoch effects --------------------------------------

  datatype Disposition = AcceptOurs | AcceptForeignAdvanced | RejectRestoreHold | ActorVerifiedAuto | Standing

  predicate OperatorAccepting(d: Disposition) {
    d.AcceptOurs? || d.AcceptForeignAdvanced?
  }

  function DispositionNamed(name: string): Option<Disposition> {
    if name == "ACCEPT_OURS" then Some(AcceptOurs)
    else if name == "ACCEPT_FOREIGN_ADVANCED" then Some(AcceptForeignAdvanced)
    else if name == "REJECT_RESTORE_HOLD" then Some(RejectRestoreHold)
    else if name == "ACTOR_VERIFIED_AUTO" then Some(ActorVerifiedAuto)
    else if name == "STANDING" then Some(Standing)
    else None
  }

  function ModeNamed(name: string): Option<CredentialMode> {
    if name == "SHARED" then Some(Shared) else if name == "SEPARATED" then Some(Separated) else None
  }

  datatype EpochEffect = NoEffect | AssignNewOid | PerDisposition | AsAcceptOurs

  // ----- section A: the dispatcher's own effects -----------------------------

  datatype StateA =
    | Genesis | Prepared | Submitted | EffectObserved | RejectedNoEffect | OutcomeUnknown
    | Held | Explained | Reconciled

  /** States that exist only in the dispatcher's memory. */
  predicate MemoryOnly(s: StateA) {
    s.Submitted? || s.EffectObserved? || s.RejectedNoEffect? || s.OutcomeUnknown?
  }

  datatype EffectVariant =
    | Prepare | Submit | SubmitOutcomeUnknown
    | CrashRecoveryFromPrepared | LaterObservationFromPrepared | MoveToHoldFromPrepared
    | ObserveEffectMatched | ObserveEffectParentMismatch | ObserveReject | TimeoutUnknown
    | CrashRecoveryFromSubmitted | LaterObservationFromSubmitted
    | ExplainedByMatch | RejectExplained
    | LaterObservationFromOutcomeUnknown | CrashRecoveryFromOutcomeUnknown
    | ReconcileAccept | ReconcileRejectRestoreHold | ReconcileReplayIdentity

  function StateNameA(s: StateA): string {
    match s
    case Genesis => "GENESIS"
    case Prepared => "PREPARED"
    case Submitted => "SUBMITTED"
    case EffectObserved => "EFFECT_OBSERVED"
    case RejectedNoEffect => "REJECTED_NO_EFFECT"
    case OutcomeUnknown => "OUTCOME_UNKNOWN"
    case Held => "HELD"
    case Explained => "EXPLAINED"
    case Reconciled => "RECONCILED"
  }

  function EffectVariantNamed(name: string): Option<EffectVariant> {
    if name == "CrashRecoveryFromPrepared" then Some(CrashRecoveryFromPrepared)
    else if name == "Prepare" then Some(Prepare)
    else if name == "Submit" then Some(Submit)
    else if name == "SubmitOutcomeUnknown" then Some(SubmitOutcomeUnknown)
    else if name == "LaterObservationFromPrepared" then Some(LaterObservationFromPrepared)
    else if name == "MoveToHoldFromPrepared" then Some(MoveToHoldFromPrepared)
    else if name == "ObserveEffectMatched" then Some(ObserveEffectMatched)
    else if name == "ObserveEffectParentMismatch" then Some(ObserveEffectParentMismatch)
    else if name == "ObserveReject" then Some(ObserveReject)
    else if name == "TimeoutUnknown" then Some(TimeoutUnknown)
    else if name == "CrashRecoveryFromSubmitted" then Some(CrashRecoveryFromSubmitted)
    else if name == "LaterObservationFromSubmitted" then Some(LaterObservationFromSubmitted)
    else if name == "Explained" then Some(ExplainedByMatch)
    else if name == "RejectExplained" then Some(RejectExplained)
    else if name == "LaterObservationFromOutcomeUnknown" then Some(LaterObservationFromOutcomeUnknown)
    else if name == "CrashRecoveryFromOutcomeUnknown" then Some(CrashRecoveryFromOutcomeUnknown)
    else if name == "ReconcileAccept" then Some(ReconcileAccept)
    else if name == "ReconcileRejectRestoreHold" then Some(ReconcileRejectRestoreHold)
    else if name == "ReconcileReplayIdentity" then Some(ReconcileReplayIdentity)
    else None
  }

  function FromA(v: EffectVariant): StateA {
    match v
    case Prepare => Genesis
    case Submit | SubmitOutcomeUnknown | CrashRecoveryFromPrepared
       | LaterObservationFromPrepared | MoveToHoldFromPrepared => Prepared
    case ObserveEffectMatched | ObserveEffectParentMismatch | ObserveReject | TimeoutUnknown
       | CrashRecoveryFromSubmitted | LaterObservationFromSubmitted => Submitted
    case ExplainedByMatch => EffectObserved
    case RejectExplained => RejectedNoEffect
    case LaterObservationFromOutcomeUnknown | CrashRecoveryFromOutcomeUnknown => OutcomeUnknown
    case ReconcileAccept | ReconcileRejectRestoreHold => Held
    case ReconcileReplayIdentity => Reconciled
  }

  function ToA(v: EffectVariant): StateA {
    match v
    case Prepare => Prepared
    case Submit => Submitted
    case SubmitOutcomeUnknown | TimeoutUnknown => OutcomeUnknown
    case ObserveEffectMatched => EffectObserved
    case ObserveReject => RejectedNoEffect
    case ExplainedByMatch | RejectExplained => Explained
    case ReconcileAccept | ReconcileReplayIdentity => Reconciled
    case CrashRecoveryFromPrepared | LaterObservationFromPrepared | MoveToHoldFromPrepared
       | ObserveEffectParentMismatch | CrashRecoveryFromSubmitted | LaterObservationFromSubmitted
       | LaterObservationFromOutcomeUnknown | CrashRecoveryFromOutcomeUnknown
       | ReconcileRejectRestoreHold => Held
  }

  function TriggerA(v: EffectVariant): string {
    match v
    case Prepare => "prepare"
    case Submit => "submit"
    case SubmitOutcomeUnknown => "submit_outcome_unknown"
    case CrashRecoveryFromPrepared | CrashRecoveryFromSubmitted
       | CrashRecoveryFromOutcomeUnknown => "crash_recovery"
    case LaterObservationFromPrepared | LaterObservationFromSubmitted
       | LaterObservationFromOutcomeUnknown => "later_observation"
    case MoveToHoldFromPrepared => "move_to_hold"
    case ObserveEffectMatched | ObserveEffectParentMismatch => "observe_effect"
    case ObserveReject => "observe_reject"
    case TimeoutUnknown => "timeout_unknown"
    case ExplainedByMatch | RejectExplained => "match_in_memory"
    case ReconcileAccept | ReconcileRejectRestoreHold | ReconcileReplayIdentity => "operator_reconcile"
  }

  /** The rows triggered by an operator's reconcile. */
  predicate OperatorRowA(v: EffectVariant) {
    v.ReconcileAccept? || v.ReconcileRejectRestoreHold? || v.ReconcileReplayIdentity?
  }

  function EpochEffectA(v: EffectVariant): EpochEffect {
    match v
    case ExplainedByMatch => AssignNewOid
    case ReconcileAccept => PerDisposition
    case _ => NoEffect
  }

  function HoldEffectA(v: EffectVariant): string {
    if v.ReconcileAccept? then "RELEASED"
    else if v.ReconcileRejectRestoreHold? then "RETAINED"
    else if ToA(v).Held? then "CREATED"
    else "NONE"
  }

  predicate RequiresAuthorization(v: EffectVariant) {
    v.Prepare? || v.Submit? || v.ObserveEffectMatched? || v.ObserveEffectParentMismatch? || v.ObserveReject?
  }

  predicate ForbidsAuthorization(v: EffectVariant) {
    v.CrashRecoveryFromPrepared? || v.CrashRecoveryFromSubmitted? || v.CrashRecoveryFromOutcomeUnknown?
    || OperatorRowA(v)
  }

  predicate RequiresNewOid(v: EffectVariant) {
    v.ObserveEffectMatched? || v.ObserveEffectParentMismatch? || v.ExplainedByMatch?
  }

  /** The two rows whose payload may, and for ACCEPT_OURS must, name the new object. */
  predicate MayCarryNewOid(v: EffectVariant) {
    v.ReconcileAccept? || v.ReconcileReplayIdentity?
  }

  const ENVELOPE: seq<string> :=
    ["schema_major", "schema_minor", "event_id", "ts", "run_id", "trace_id", "protocol_epoch", "family"]

  const EFFECT_COMMON: seq<string> :=
    ["movement_id", "base_key", "trigger_event", "from", "to", "authority", "epoch_before", "epoch_after",
     "hold_effect", "actor_context", "credential_mode"]

  function RequiredA(v: EffectVariant): seq<string> {
    ENVELOPE + EFFECT_COMMON
    + (if RequiresAuthorization(v) then ["authorization_id"] else [])
    + (if RequiresNewOid(v) then ["new_oid"] else [])
    + (if OperatorRowA(v) then ["disposition"] else [])
  }

  function OptionalA(v: EffectVariant): seq<string> {
    ["subject_digest", "attempt_id", "reason"]
    + (if RequiresAuthorization(v) || ForbidsAuthorization(v) then [] else ["authorization_id"])
    + (if MayCarryNewOid(v) then ["new_oid"] else [])
  }

  function ForbiddenA(v: EffectVariant): seq<string> {
    if ForbidsAuthorization(v) then ["authorization_id"] else []
  }

  // ----- section B: foreign holds --------------------------------------------

  datatype StateB = Unborn | HeldForeign | Released | StandingHold

  datatype HoldVariant =
    | ObserveDelta | ObserveDeltaRedelivery | ObserveDeltaNewDeliveryOnOpenHold
    | AutoRelease
    | HoldReconcileAccept | HoldReconcileRejectRestoreHold | HoldReconcileStanding | HoldReconcileReplayIdentity

  function StateNamedB(name: string): Option<StateB> {
    if name == "GENESIS" then Some(Unborn)
    else if name == "HELD_FOREIGN" then Some(HeldForeign)
    else if name == "RELEASED" then Some(Released)
    else if name == "STANDING" then Some(StandingHold)
    else None
  }

  function HoldVariantNamed(name: string): Option<HoldVariant> {
    if name == "ObserveDelta" then Some(ObserveDelta)
    else if name == "ObserveDeltaRedelivery" then Some(ObserveDeltaRedelivery)
    else if name == "ObserveDeltaNewDeliveryOnOpenHold" then Some(ObserveDeltaNewDeliveryOnOpenHold)
    else if name == "ActorVerifiedAuto" then Some(AutoRelease)
    else if name == "HoldReconcileAccept" then Some(HoldReconcileAccept)
    else if name == "HoldReconcileRejectRestoreHold" then Some(HoldReconcileRejectRestoreHold)
    else if name == "HoldReconcileStanding" then Some(HoldReconcileStanding)
    else if name == "HoldReconcileReplayIdentity" then Some(HoldReconcileReplayIdentity)
    else None
  }

  predicate ObservesDelta(v: HoldVariant) {
    v.ObserveDelta? || v.ObserveDeltaRedelivery? || v.ObserveDeltaNewDeliveryOnOpenHold?
  }

  predicate OperatorRowB(v: HoldVariant) {
    v.HoldReconcileAccept? || v.HoldReconcileRejectRestoreHold? || v.HoldReconcileStanding?
      || v.HoldReconcileReplayIdentity?
  }

  /** States a row may be stamped from, the re-entry from STANDING included. */
  function FromB(v: HoldVariant): set<StateB> {
    match v
    case ObserveDelta => {Unborn}
    case ObserveDeltaRedelivery => {HeldForeign, Released, StandingHold}
    case ObserveDeltaNewDeliveryOnOpenHold => {HeldForeign, StandingHold}
    case AutoRelease => {HeldForeign}
    case HoldReconcileAccept | HoldReconcileRejectRestoreHold | HoldReconcileStanding => {HeldForeign, StandingHold}
    case HoldReconcileReplayIdentity => {Released}
  }

  /** The row's target; None for the two rows that leave the state unchanged. */
  function ToB(v: HoldVariant): Option<StateB> {
    match v
    case ObserveDelta | HoldReconcileRejectRestoreHold => Some(HeldForeign)
    case ObserveDeltaRedelivery | ObserveDeltaNewDeliveryOnOpenHold => None
    case AutoRelease | HoldReconcileAccept | HoldReconcileReplayIdentity => Some(Released)
    case HoldReconcileStanding => Some(StandingHold)
  }

  function StateNameB(s: StateB): string {
    match s
    case Unborn => "GENESIS"
    case HeldForeign => "HELD_FOREIGN"
    case Released => "RELEASED"
    case StandingHold => "STANDING"
  }

  function TriggerB(v: HoldVariant): string {
    if ObservesDelta(v) then "observe_delta"
    else if v.AutoRelease? then "actor_verified_match"
    else "operator_reconcile"
  }

  function EpochEffectB(v: HoldVariant): EpochEffect {
    match v
    case AutoRelease => AsAcceptOurs
    case HoldReconcileAccept => PerDisposition
    case _ => NoEffect
  }

  const HOLD_COMMON: seq<string> :=
    ["base_key", "trigger_event", "from", "to", "epoch_before", "epoch_after", "ref", "mode",
     "actor_verification", "actor_display"]

  function RequiredB(v: HoldVariant): seq<string> {
    ENVELOPE + HOLD_COMMON
    + match v
      case ObserveDelta => ["delta_old_oid", "delta_new_oid"]
      case ObserveDeltaRedelivery | ObserveDeltaNewDeliveryOnOpenHold =>
        ["source_delivery_id", "delta_old_oid", "delta_new_oid"]
      case AutoRelease => ["hold_id", "actor_node_id", "matched_subject_digest", "source_delivery_id"]
      case _ => ["hold_id", "disposition", "actor_node_id"]
  }

  /** Every hold field a row does not require is optional on it. */
  const HOLD_OPTIONAL: seq<string> :=
    ["subject_digest", "movement_id", "attempt_id", "hold_id", "delta_old_oid", "delta_new_oid",
     "source_delivery_id", "actor_node_id", "matched_subject_digest", "matched_movement_id", "disposition"]
}
