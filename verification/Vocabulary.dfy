/** The names of rows and states on the wire. */
module Vocabulary {
  import opened Wrappers
  import opened Wire
  import opened Schema
  import opened Events
  import opened Intakes

  function EffectName(v: EffectVariant): string {
    match v
    case Prepare => "Prepare"
    case Submit => "Submit"
    case SubmitOutcomeUnknown => "SubmitOutcomeUnknown"
    case CrashRecoveryFromPrepared => "CrashRecoveryFromPrepared"
    case LaterObservationFromPrepared => "LaterObservationFromPrepared"
    case MoveToHoldFromPrepared => "MoveToHoldFromPrepared"
    case ObserveEffectMatched => "ObserveEffectMatched"
    case ObserveEffectParentMismatch => "ObserveEffectParentMismatch"
    case ObserveReject => "ObserveReject"
    case TimeoutUnknown => "TimeoutUnknown"
    case CrashRecoveryFromSubmitted => "CrashRecoveryFromSubmitted"
    case LaterObservationFromSubmitted => "LaterObservationFromSubmitted"
    case ExplainedByMatch => "Explained"
    case RejectExplained => "RejectExplained"
    case LaterObservationFromOutcomeUnknown => "LaterObservationFromOutcomeUnknown"
    case CrashRecoveryFromOutcomeUnknown => "CrashRecoveryFromOutcomeUnknown"
    case ReconcileAccept => "ReconcileAccept"
    case ReconcileRejectRestoreHold => "ReconcileRejectRestoreHold"
    case ReconcileReplayIdentity => "ReconcileReplayIdentity"
  }

  function HoldName(v: HoldVariant): string {
    match v
    case ObserveDelta => "ObserveDelta"
    case ObserveDeltaRedelivery => "ObserveDeltaRedelivery"
    case ObserveDeltaNewDeliveryOnOpenHold => "ObserveDeltaNewDeliveryOnOpenHold"
    case AutoRelease => "ActorVerifiedAuto"
    case HoldReconcileAccept => "HoldReconcileAccept"
    case HoldReconcileRejectRestoreHold => "HoldReconcileRejectRestoreHold"
    case HoldReconcileStanding => "HoldReconcileStanding"
    case HoldReconcileReplayIdentity => "HoldReconcileReplayIdentity"
  }

  lemma EffectNames()
    ensures EffectName(Prepare) == "Prepare" && EffectName(Submit) == "Submit"
    ensures EffectName(SubmitOutcomeUnknown) == "SubmitOutcomeUnknown"
            && EffectName(CrashRecoveryFromPrepared) == "CrashRecoveryFromPrepared"
    ensures EffectName(LaterObservationFromPrepared) == "LaterObservationFromPrepared"
            && EffectName(MoveToHoldFromPrepared) == "MoveToHoldFromPrepared"
    ensures EffectName(ObserveEffectMatched) == "ObserveEffectMatched"
            && EffectName(ObserveEffectParentMismatch) == "ObserveEffectParentMismatch"
    ensures EffectName(ObserveReject) == "ObserveReject" && EffectName(TimeoutUnknown) == "TimeoutUnknown"
    ensures EffectName(CrashRecoveryFromSubmitted) == "CrashRecoveryFromSubmitted"
            && EffectName(LaterObservationFromSubmitted) == "LaterObservationFromSubmitted"
    ensures EffectName(ExplainedByMatch) == "Explained" && EffectName(RejectExplained) == "RejectExplained"
    ensures EffectName(LaterObservationFromOutcomeUnknown) == "LaterObservationFromOutcomeUnknown"
            && EffectName(CrashRecoveryFromOutcomeUnknown) == "CrashRecoveryFromOutcomeUnknown"
    ensures EffectName(ReconcileAccept) == "ReconcileAccept"
            && EffectName(ReconcileRejectRestoreHold) == "ReconcileRejectRestoreHold"
    ensures EffectName(ReconcileReplayIdentity) == "ReconcileReplayIdentity"
  {
  }

  lemma EffectNamed(v: EffectVariant)
    ensures EffectVariantNamed(EffectName(v)) == Some(v)
  {
    EffectNames();
    hide EffectName;
  }

  lemma NamedEffect(name: string)
    ensures EffectVariantNamed(name).Some? ==> EffectName(EffectVariantNamed(name).value) == name
  {
    EffectNames();
    hide EffectName;
  }

  lemma HoldNamed(v: HoldVariant)
    ensures HoldVariantNamed(HoldName(v)) == Some(v)
  {
  }

  lemma NamedHold(name: string)
    ensures HoldVariantNamed(name).Some? ==> HoldName(HoldVariantNamed(name).value) == name
  {
  }

  /** Every row of either machine has a name of its own, and a record is of the row it names. */
  lemma RowNamesExact(ev: Wire, v: EffectVariant, w: HoldVariant)
    ensures EffectVariantNamed(VariantNameOf(ev)) == Some(v) <==> Get(ev, "variant") == Str(EffectName(v))
    ensures HoldVariantNamed(VariantNameOf(ev)) == Some(w) <==> Get(ev, "variant") == Str(HoldName(w))
  {
    EffectNamed(v);
    HoldNamed(w);
    NamedEffect(VariantNameOf(ev));
    NamedHold(VariantNameOf(ev));
    NoNameNoRow();
    hide EffectVariantNamed, HoldVariantNamed, EffectName, HoldName;
  }

  lemma NoNameNoRow()
    ensures EffectVariantNamed("").None? && HoldVariantNamed("").None?
  {
  }

  /** The states of the two machines by name; a name means one state of each at most. */
  lemma StateNamesExact(name: string, a: StateA, b: StateB)
    ensures StateNameA(a) == name <==>
              || (a.Genesis? && name == "GENESIS")
              || (a.Prepared? && name == "PREPARED")
              || (a.Submitted? && name == "SUBMITTED")
              || (a.EffectObserved? && name == "EFFECT_OBSERVED")
              || (a.RejectedNoEffect? && name == "REJECTED_NO_EFFECT")
              || (a.OutcomeUnknown? && name == "OUTCOME_UNKNOWN")
              || (a.Held? && name == "HELD")
              || (a.Explained? && name == "EXPLAINED")
              || (a.Reconciled? && name == "RECONCILED")
    ensures StateNamedB(name) == Some(b) <==>
              || (b.Unborn? && name == "GENESIS")
              || (b.HeldForeign? && name == "HELD_FOREIGN")
              || (b.Released? && name == "RELEASED")
              || (b.StandingHold? && name == "STANDING")
    ensures StateNameB(b) == name <==> StateNamedB(name) == Some(b)
  {
  }
}
