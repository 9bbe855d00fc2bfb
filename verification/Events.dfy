/** The typed lifecycle events, and what their constructors guarantee. */
module Events {
  import opened Wrappers
  import opened Text
  import opened Wire
  import opened Schema

  // ----- typed events --------------------------------------------------------

  datatype EffectRecord = EffectRecord(
    variant: EffectVariant,
    baseKey: string,
    movementId: string,
    epochBefore: string,
    epochAfter: string,
    newOid: Option<string>,
    disposition: Option<Disposition>)

  /** What the constructor of each section-A variant guarantees. */
  predicate EffectOk(e: EffectRecord) {
    && NewlineFree(e.baseKey) && NewlineFree(e.movementId)
    && (RequiresNewOid(e.variant) ==> e.newOid.Some?)
    && (MayCarryNewOid(e.variant) ==> e.disposition.Some? && OperatorAccepting(e.disposition.value))
    && (MayCarryNewOid(e.variant) && e.disposition == Some(AcceptOurs) ==> e.newOid.Some?)
    && (e.variant.ReconcileRejectRestoreHold? ==> e.disposition == Some(RejectRestoreHold))
  }

  type EffectEvent = e: EffectRecord | EffectOk(e)
    witness EffectRecord(Prepare, "b", "m", "e", "e", None, None)

  /** The delta a foreign movement is identified by, within its base. */
  datatype Delta = Delta(ref: string, old_: string, new_: string)

  predicate Clean(d: Delta) {
    NewlineFree(d.ref) && NewlineFree(d.old_) && NewlineFree(d.new_)
  }

  datatype HoldRecord = HoldRecord(
    variant: HoldVariant,
    baseKey: string,
    from: StateB,
    epochBefore: string,
    epochAfter: string,
    ref: string,
    mode: CredentialMode,
    holdId: Option<Id>,
    deltaOld: Option<string>,
    deltaNew: Option<string>,
    delivery: Option<Id>,
    digest: Option<Id>,
    movement: Option<Id>,
    disposition: Option<Disposition>,
    derivedId: bool)

  /** What the constructor of each section-B variant guarantees. */
  predicate HoldOk(e: HoldRecord) {
    && NewlineFree(e.baseKey)
    && e.from in FromB(e.variant)
    && (ObservesDelta(e.variant) ==>
          e.deltaOld.Some? && e.deltaNew.Some? && Clean(Delta(e.ref, e.deltaOld.value, e.deltaNew.value)))
    && (!ObservesDelta(e.variant) ==> e.holdId.Some?)
    && (e.variant.AutoRelease? ==> e.delivery.Some? && e.digest.Some? && e.mode.Separated?)
    && (OperatorRowB(e.variant) ==> e.disposition.Some?)
    && (e.variant.HoldReconcileAccept? || e.variant.HoldReconcileReplayIdentity? ==>
          OperatorAccepting(e.disposition.value))
    && (e.variant.HoldReconcileRejectRestoreHold? ==> e.disposition.value == RejectRestoreHold)
    && (e.variant.HoldReconcileStanding? ==> e.disposition.value == Standing)
  }

  type HoldEvent = e: HoldRecord | HoldOk(e)
    witness HoldRecord(ObserveDelta, "b", Unborn, "e", "e", "r", Shared, None, Some("o"), Some("n"),
                       None, None, None, None, false)

  function DeltaOf(e: HoldEvent): Delta
    requires ObservesDelta(e.variant)
  {
    Delta(e.ref, e.deltaOld.value, e.deltaNew.value)
  }

  // ----- intake result ---------------------------------------------------------

  /** A record constructed as what its family says it is. */
  datatype Built = Effect(effect: EffectEvent) | Hold(hold: HoldEvent) | Single
}
