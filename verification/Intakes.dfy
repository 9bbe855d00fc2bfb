/** Fail-closed construction of typed lifecycle events from wire records. */
module Intakes {
  import opened Wrappers
  import opened Text
  import opened Wire
  import opened Schema
  import opened Events

  // ----- field marshalling ---------------------------------------------------

  const ENUM_FIELDS: map<string, set<string>> := map[
    "disposition" := {"ACCEPT_OURS", "ACCEPT_FOREIGN_ADVANCED", "REJECT_RESTORE_HOLD", "ACTOR_VERIFIED_AUTO",
                      "STANDING"},
    "credential_mode" := {"SHARED", "SEPARATED"},
    "mode" := {"SHARED", "SEPARATED"},
    "actor_verification" := {"VERIFIED_API", "DISPLAY_ONLY"},
    "protection_mode" := {"PREVENT", "DETECT"},
    "hold_effect" := {"NONE", "CREATED", "RELEASED", "RETAINED"}]

  const INT_FIELDS: set<string> := {"schema_major", "schema_minor", "duration_ms"}

  predicate FieldOk(rules: Rules, field: string, v: Value) {
    if field in ENUM_FIELDS then v.Str? && v.s in ENUM_FIELDS[field]
    else if field in INT_FIELDS then v.Int? && (field == "schema_major" ==> v.n == 1)
    else v.Str? && v.s != "" && NewlineFree(v.s) && (field == "ts" ==> rules.validTs(v.s))
  }

  predicate MarshalOk(rules: Rules, required: seq<string>, optional: seq<string>, forbidden: seq<string>, ev: Wire) {
    && (forall i :: 0 <= i < |required| ==> FieldOk(rules, required[i], Get(ev, required[i])))
    && (forall i :: 0 <= i < |optional| ==>
        Get(ev, optional[i]) == Null || FieldOk(rules, optional[i], Get(ev, optional[i])))
    && (forall i :: 0 <= i < |forbidden| ==> Get(ev, forbidden[i]) == Null)
  }

  function DispositionField(ev: Wire): Option<Disposition> {
    var v := Get(ev, "disposition");
    if v.Str? then DispositionNamed(v.s) else None
  }

  function VariantNameOf(ev: Wire): string {
    var v := Get(ev, "variant");
    if v.Str? then v.s else ""
  }

  /** The typed fields of a section-A record; present whenever the marshalling passed. */
  function RawEffect(v: EffectVariant, d: Option<Disposition>, ev: Wire): Option<EffectRecord> {
    var base, mid := TextField(ev, "base_key"), TextField(ev, "movement_id");
    var before, after := TextField(ev, "epoch_before"), TextField(ev, "epoch_after");
    var oid := if RequiresNewOid(v) || MayCarryNewOid(v) then TextField(ev, "new_oid") else None;
    if base.None? || mid.None? || before.None? || after.None? then None
    else Some(EffectRecord(v, base.value, mid.value, before.value, after.value, oid, d))
  }

  /** Construct a section-A event. Schema breaches are decided before guard breaches, as
      the wire construction precedes the constructor's own checks. */
  function BuildEffect(rules: Rules, ev: Wire): Result<EffectEvent, Code> {
    var found := EffectVariantNamed(VariantNameOf(ev));
    if found.None? then Err(SchemaMajorUnknown) else
    var v := found.value;
    var d := DispositionField(ev);
    if Get(ev, "family") != Str("effect_lifecycle")
       || !MarshalOk(rules, RequiredA(v), OptionalA(v), ForbiddenA(v), ev)
       || Get(ev, "trigger_event") != Str(TriggerA(v))
       || Get(ev, "to") != Str(StateNameA(ToA(v)))
       || (MayCarryNewOid(v) && d == Some(AcceptOurs) && TextField(ev, "new_oid").None?)
    then Err(SchemaMajorUnknown)
    else if Get(ev, "from") != Str(StateNameA(FromA(v)))
            || Get(ev, "hold_effect") != Str(HoldEffectA(v))
            || (MayCarryNewOid(v) && !(d.Some? && OperatorAccepting(d.value)))
            || (v.ReconcileRejectRestoreHold? && d != Some(RejectRestoreHold))
    then Err(IllegalTransition)
    else
      var raw := RawEffect(v, d, ev);
      if raw.Some? && EffectOk(raw.value) then Ok(raw.value) else Err(SchemaMajorUnknown)
  }

  /** The audit target a row demands of a record stamped from `from`. */
  function WantedTo(v: HoldVariant, from: Value): Value {
    if ToB(v).Some? then Str(StateNameB(ToB(v).value)) else from
  }

  function FromField(ev: Wire): Option<StateB> {
    var v := Get(ev, "from");
    if v.Str? then StateNamedB(v.s) else None
  }

  function ModeField(ev: Wire): Option<CredentialMode> {
    var v := Get(ev, "mode");
    if v.Str? then ModeNamed(v.s) else None
  }

  /** The guards in the constructors of the section-B variants. */
  predicate HoldGuardsHold(v: HoldVariant, mode: Option<CredentialMode>, d: Option<Disposition>, ev: Wire) {
    && (v.AutoRelease? ==>
          && Get(ev, "actor_verification") == Str("VERIFIED_API")
          && d == Some(ActorVerifiedAuto)
          && mode == Some(Separated))
    && (v.HoldReconcileAccept? || v.HoldReconcileReplayIdentity? ==> d.Some? && OperatorAccepting(d.value))
    && (v.HoldReconcileRejectRestoreHold? ==> d == Some(RejectRestoreHold))
    && (v.HoldReconcileStanding? ==> d == Some(Standing))
  }

  /** The typed fields of a section-B record; present whenever the marshalling passed. */
  function RawHold(hash: Digest, v: HoldVariant, from: StateB, mode: Option<CredentialMode>, d: Option<Disposition>,
                   ev: Wire): Option<HoldRecord> {
    var base, ref := TextField(ev, "base_key"), TextField(ev, "ref");
    var before, after := TextField(ev, "epoch_before"), TextField(ev, "epoch_after");
    if base.None? || ref.None? || before.None? || after.None? || mode.None? then None
    else
      Some(HoldRecord(v, base.value, from, before.value, after.value, ref.value, mode.value,
                      TextField(ev, "hold_id"), TextField(ev, "delta_old_oid"), TextField(ev, "delta_new_oid"),
                      TextField(ev, "source_delivery_id"), TextField(ev, "matched_subject_digest"),
                      TextField(ev, "matched_movement_id"), d, IsDerivedId(hash, ev)))
  }

  /** Construct a section-B event. */
  function BuildHold(rules: Rules, ev: Wire): Result<HoldEvent, Code> {
    var found := HoldVariantNamed(VariantNameOf(ev));
    if found.None? then Err(SchemaMajorUnknown) else
    var v := found.value;
    var d, mode, from := DispositionField(ev), ModeField(ev), FromField(ev);
    if Get(ev, "family") != Str("hold_lifecycle")
       || !MarshalOk(rules, RequiredB(v), HOLD_OPTIONAL, ["authorization_id"], ev)
       || Get(ev, "trigger_event") != Str(TriggerB(v))
       || Get(ev, "to") != WantedTo(v, Get(ev, "from"))
       || (Get(ev, "actor_verification") == Str("VERIFIED_API") && Get(ev, "actor_node_id") == Null)
    then Err(SchemaMajorUnknown)
    else if from.None? || from.value !in FromB(v) || !HoldGuardsHold(v, mode, d, ev) then Err(IllegalTransition)
    else
      var raw := RawHold(rules.hash, v, from.value, mode, d, ev);
      if raw.Some? && HoldOk(raw.value) then Ok(raw.value) else Err(SchemaMajorUnknown)
  }

  // ----- intake --------------------------------------------------------------

  const FAMILIES: set<string> :=
    {"effect_lifecycle", "hold_lifecycle", "classification_evaluated", "panel_decided", "merge_planned",
     "approval_evaluated", "authorization_granted", "consent", "protocol_genesis", "merge_unit_declared",
     "merge_unit_member_added", "protocol_epoch_advanced", "panel_roster_declared", "panel_roster_augmented",
     "seat_result"}

  datatype Family = EffectFamily | HoldFamily | SingleFamily

  /** The envelope checks every record passes; None halts as an unknown schema. */
  function Classify(ev: Wire): Option<Family> {
    var family := Get(ev, "family");
    if Get(ev, "schema_major") != Int(1) then None
    else if !family.Str? || family.s !in FAMILIES then None
    else if family.s == "effect_lifecycle" then Some(EffectFamily)
    else if family.s == "hold_lifecycle" then Some(HoldFamily)
    else Some(SingleFamily)
  }

  /** A reduced record names a variant, and not one of the other family. */
  predicate TaggedFor(family: Family, ev: Wire) {
    var name := VariantNameOf(ev);
    && Get(ev, "variant") != Null
    && (family.EffectFamily? ==> EffectVariantNamed(name).Some? || HoldVariantNamed(name).None?)
    && (family.HoldFamily? ==> HoldVariantNamed(name).Some? || EffectVariantNamed(name).None?)
  }

  function Intake(rules: Rules, ev: Wire): Result<Built, Code> {
    match Classify(ev)
    case None => Err(SchemaMajorUnknown)
    case Some(SingleFamily) =>
      if Get(ev, "epoch_before") != Null || Get(ev, "epoch_after") != Null then Err(SchemaMajorUnknown)
      else (match rules.checkSingle(ev) case Some(code) => Err(code) case None => Ok(Single))
    case Some(EffectFamily) =>
      if !TaggedFor(EffectFamily, ev) then Err(SchemaMajorUnknown)
      else (match BuildEffect(rules, ev) case Ok(e) => Ok(Effect(e)) case Err(code) => Err(code))
    case Some(HoldFamily) =>
      if !TaggedFor(HoldFamily, ev) then Err(SchemaMajorUnknown)
      else (match BuildHold(rules, ev) case Ok(e) => Ok(Hold(e)) case Err(code) => Err(code))
  }
}
