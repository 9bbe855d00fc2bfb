/** The boundary's own record rules satisfy what the walk relies on. */
module Instance {
  import opened Wrappers
  import opened Text
  import opened Wire
  import opened Schema
  import opened Events
  import opened Intakes
  import opened Reducer

  /** The context the boundary runs in, over its own record rules. */
  function Standard(mode: CredentialMode, anchors: map<string, Value>, rules: Rules): Env {
    Env(mode, anchors, rules.hash, ev => Intake(rules, ev), ev => Canonical(rules.hash, ev))
  }

  lemma StandardIntakeBase(rules: Rules, ev: Wire)
    ensures Intake(rules, ev).Ok? && Intake(rules, ev).value.Effect? ==>
            Intake(rules, ev).value.effect.baseKey == BaseHint(ev)
    ensures Intake(rules, ev).Ok? && Intake(rules, ev).value.Hold? ==>
            Intake(rules, ev).value.hold.baseKey == BaseHint(ev)
  {
    hide MarshalOk, HoldOk, EffectOk, EffectVariantNamed, HoldVariantNamed, IsDerivedId;
  }

  lemma StandardIsLocal(mode: CredentialMode, anchors: map<string, Value>, rules: Rules)
    ensures Local(Standard(mode, anchors, rules))
  {
    var env := Standard(mode, anchors, rules);
    forall ev
      ensures env.intake(ev).Ok? && env.intake(ev).value.Effect? ==> env.intake(ev).value.effect.baseKey == BaseHint(ev)
      ensures env.intake(ev).Ok? && env.intake(ev).value.Hold? ==> env.intake(ev).value.hold.baseKey == BaseHint(ev)
    {
      StandardIntakeBase(rules, ev);
    }
    forall x, y | env.canonical(x) == env.canonical(y) ensures BaseHint(x) == BaseHint(y) {
      CanonicalFixesBase(rules.hash, x, y);
    }
  }

  // ----- construction never fails silently -----------------------------------

  lemma MarshalledField(rules: Rules, required: seq<string>, optional: seq<string>, forbidden: seq<string>, ev: Wire,
                        i: nat)
    requires MarshalOk(rules, required, optional, forbidden, ev) && i < |required|
    ensures FieldOk(rules, required[i], Get(ev, required[i]))
  {
    hide FieldOk;
  }

  lemma TextIsPresent(rules: Rules, ev: Wire, field: string)
    requires FieldOk(rules, field, Get(ev, field)) && field !in ENUM_FIELDS && field !in INT_FIELDS
    ensures TextField(ev, field).Some?
  {
  }

  lemma RequiredEffectText(rules: Rules, v: EffectVariant, ev: Wire)
    requires MarshalOk(rules, RequiredA(v), OptionalA(v), ForbiddenA(v), ev)
    ensures TextField(ev, "base_key").Some? && TextField(ev, "movement_id").Some?
    ensures TextField(ev, "epoch_before").Some? && TextField(ev, "epoch_after").Some?
    ensures RequiresNewOid(v) ==> TextField(ev, "new_oid").Some?
  {
    hide MarshalOk, FieldOk, TextField;
    var r := RequiredA(v);
    RequiredPositions(v);
    hide RequiredA, OptionalA, ForbiddenA;
    MarshalledText(rules, r, OptionalA(v), ForbiddenA(v), ev, 8, "movement_id");
    MarshalledText(rules, r, OptionalA(v), ForbiddenA(v), ev, 9, "base_key");
    MarshalledText(rules, r, OptionalA(v), ForbiddenA(v), ev, 14, "epoch_before");
    MarshalledText(rules, r, OptionalA(v), ForbiddenA(v), ev, 15, "epoch_after");
    if RequiresNewOid(v) {
      MarshalledText(rules, r, OptionalA(v), ForbiddenA(v), ev, |r| - 1, "new_oid");
    }
  }

  lemma RequiredPositions(v: EffectVariant)
    ensures var r := RequiredA(v);
            && |r| >= 19 && r[8] == "movement_id" && r[9] == "base_key" && r[14] == "epoch_before"
               && r[15] == "epoch_after"
            && (RequiresNewOid(v) ==> r[|r| - 1] == "new_oid")
  {
    hide RequiresAuthorization;
  }

  lemma MarshalledText(rules: Rules, required: seq<string>, optional: seq<string>, forbidden: seq<string>, ev: Wire,
                       i: nat, field: string)
    requires MarshalOk(rules, required, optional, forbidden, ev) && i < |required| && required[i] == field
    requires field !in ENUM_FIELDS && field !in INT_FIELDS
    ensures TextField(ev, field).Some?
  {
    hide FieldOk, TextField;
    MarshalledField(rules, required, optional, forbidden, ev, i);
    TextIsPresent(rules, ev, field);
  }

  /** What the field rules and the constructor of a section-A variant demand of a record. */
  ghost predicate EffectRules(rules: Rules, ev: Wire, v: EffectVariant) {
    && Get(ev, "family") == Str("effect_lifecycle")
    && MarshalOk(rules, RequiredA(v), OptionalA(v), ForbiddenA(v), ev)
    && Get(ev, "trigger_event") == Str(TriggerA(v))
    && Get(ev, "from") == Str(StateNameA(FromA(v))) && Get(ev, "to") == Str(StateNameA(ToA(v)))
    && Get(ev, "hold_effect") == Str(HoldEffectA(v))
    && (MayCarryNewOid(v) ==>
          && DispositionField(ev).Some? && OperatorAccepting(DispositionField(ev).value)
          && (DispositionField(ev) == Some(AcceptOurs) ==> TextField(ev, "new_oid").Some?))
    && (v.ReconcileRejectRestoreHold? ==> DispositionField(ev) == Some(RejectRestoreHold))
  }

  /** A section-A record is constructed exactly when it meets them, as the variant it names:
      no record they accept is refused, and none they refuse is constructed. */
  lemma EffectIsConstructed(rules: Rules, ev: Wire, v: EffectVariant)
    requires EffectVariantNamed(VariantNameOf(ev)) == Some(v)
    ensures BuildEffect(rules, ev).Ok? <==> EffectRules(rules, ev, v)
    ensures BuildEffect(rules, ev).Ok? ==> BuildEffect(rules, ev).value.variant == v
  {
    if EffectRules(rules, ev, v) {
      RequiredEffectText(rules, v, ev);
    }
    hide MarshalOk, RequiredA, OptionalA, ForbiddenA, EffectVariantNamed, TriggerA, StateNameA, HoldEffectA, FromA, ToA,
         DispositionField, TextField;
  }

  lemma HoldPositions(v: HoldVariant)
    ensures var r := RequiredB(v);
            && |r| >= 20 && r[8] == "base_key" && r[12] == "epoch_before" && r[13] == "epoch_after" && r[14] == "ref"
               && r[15] == "mode"
            && (v.ObserveDelta? ==> r[18] == "delta_old_oid" && r[19] == "delta_new_oid")
            && (ObservesDelta(v) && !v.ObserveDelta? ==>
                |r| == 21 && r[19] == "delta_old_oid" && r[20] == "delta_new_oid")
            && (!ObservesDelta(v) ==> r[18] == "hold_id")
            && (v.AutoRelease? ==> |r| == 22 && r[20] == "matched_subject_digest" && r[21] == "source_delivery_id")
  {
  }

  lemma ModeIsPresent(rules: Rules, ev: Wire)
    requires FieldOk(rules, "mode", Get(ev, "mode"))
    ensures ModeField(ev).Some?
  {
  }

  lemma RequiredHoldText(rules: Rules, v: HoldVariant, ev: Wire)
    requires MarshalOk(rules, RequiredB(v), HOLD_OPTIONAL, ["authorization_id"], ev)
    ensures TextField(ev, "base_key").Some? && TextField(ev, "ref").Some?
    ensures TextField(ev, "epoch_before").Some? && TextField(ev, "epoch_after").Some? && ModeField(ev).Some?
    ensures ObservesDelta(v) ==> TextField(ev, "delta_old_oid").Some? && TextField(ev, "delta_new_oid").Some?
    ensures !ObservesDelta(v) ==> TextField(ev, "hold_id").Some?
    ensures v.AutoRelease? ==>
            TextField(ev, "matched_subject_digest").Some? && TextField(ev, "source_delivery_id").Some?
  {
    hide MarshalOk, FieldOk, TextField, ModeField;
    var r := RequiredB(v);
    HoldPositions(v);
    hide RequiredB;
    MarshalledText(rules, r, HOLD_OPTIONAL, ["authorization_id"], ev, 8, "base_key");
    MarshalledText(rules, r, HOLD_OPTIONAL, ["authorization_id"], ev, 12, "epoch_before");
    MarshalledText(rules, r, HOLD_OPTIONAL, ["authorization_id"], ev, 13, "epoch_after");
    MarshalledText(rules, r, HOLD_OPTIONAL, ["authorization_id"], ev, 14, "ref");
    MarshalledField(rules, r, HOLD_OPTIONAL, ["authorization_id"], ev, 15);
    ModeIsPresent(rules, ev);
    if ObservesDelta(v) {
      MarshalledText(rules, r, HOLD_OPTIONAL, ["authorization_id"], ev, if v.ObserveDelta? then 18 else 19,
                     "delta_old_oid");
      MarshalledText(rules, r, HOLD_OPTIONAL, ["authorization_id"], ev, if v.ObserveDelta? then 19 else 20,
                     "delta_new_oid");
    } else {
      MarshalledText(rules, r, HOLD_OPTIONAL, ["authorization_id"], ev, 18, "hold_id");
    }
    if v.AutoRelease? {
      MarshalledText(rules, r, HOLD_OPTIONAL, ["authorization_id"], ev, 20, "matched_subject_digest");
      MarshalledText(rules, r, HOLD_OPTIONAL, ["authorization_id"], ev, 21, "source_delivery_id");
    }
  }

  /** What the field rules and the constructor of a section-B variant demand of a record. */
  ghost predicate HoldRules(rules: Rules, ev: Wire, v: HoldVariant) {
    && Get(ev, "family") == Str("hold_lifecycle")
    && MarshalOk(rules, RequiredB(v), HOLD_OPTIONAL, ["authorization_id"], ev)
    && Get(ev, "trigger_event") == Str(TriggerB(v)) && Get(ev, "to") == WantedTo(v, Get(ev, "from"))
    && !(Get(ev, "actor_verification") == Str("VERIFIED_API") && Get(ev, "actor_node_id") == Null)
    && FromField(ev).Some? && FromField(ev).value in FromB(v)
    && HoldGuardsHold(v, ModeField(ev), DispositionField(ev), ev)
  }

  /** The same for section B. */
  lemma HoldIsConstructed(rules: Rules, ev: Wire, v: HoldVariant)
    requires HoldVariantNamed(VariantNameOf(ev)) == Some(v)
    ensures BuildHold(rules, ev).Ok? <==> HoldRules(rules, ev, v)
    ensures BuildHold(rules, ev).Ok? ==> BuildHold(rules, ev).value.variant == v
  {
    hide MarshalOk, RequiredB, HoldVariantNamed, TriggerB, DispositionField, ModeField, FromField, WantedTo, RawHold,
         HoldOk, TextField, HoldGuardsHold, FromB;
    if HoldRules(rules, ev, v) {
      RequiredHoldText(rules, v, ev);
      RawHoldIsTyped(rules.hash, v, FromField(ev).value, ModeField(ev), DispositionField(ev), ev);
    } else if FromField(ev).Some? {
      RawVariant(rules.hash, v, FromField(ev).value, ModeField(ev), DispositionField(ev), ev);
    }
  }

  lemma RawVariant(hash: Digest, v: HoldVariant, from: StateB, mode: Option<CredentialMode>, d: Option<Disposition>,
                   ev: Wire)
    ensures var raw := RawHold(hash, v, from, mode, d, ev); raw.Some? ==> raw.value.variant == v
  {
    hide TextField, IsDerivedId;
  }

  lemma RawHoldIsTyped(hash: Digest, v: HoldVariant, from: StateB, mode: Option<CredentialMode>, d: Option<Disposition>,
                       ev: Wire)
    requires TextField(ev, "base_key").Some? && TextField(ev, "ref").Some?
    requires TextField(ev, "epoch_before").Some? && TextField(ev, "epoch_after").Some? && mode.Some?
    requires ObservesDelta(v) ==> TextField(ev, "delta_old_oid").Some? && TextField(ev, "delta_new_oid").Some?
    requires !ObservesDelta(v) ==> TextField(ev, "hold_id").Some?
    requires v.AutoRelease? ==>
             TextField(ev, "matched_subject_digest").Some? && TextField(ev, "source_delivery_id").Some?
    requires from in FromB(v) && HoldGuardsHold(v, mode, d, ev)
    ensures var raw := RawHold(hash, v, from, mode, d, ev); raw.Some? && HoldOk(raw.value) && raw.value.variant == v
  {
    TextIsClean(ev, "base_key");
    TextIsClean(ev, "ref");
    TextIsClean(ev, "delta_old_oid");
    TextIsClean(ev, "delta_new_oid");
    hide TextField, IsDerivedId, NewlineFree, FromB;
  }

  lemma TextIsClean(ev: Wire, field: string)
    ensures TextField(ev, field).Some? ==> NewlineFree(TextField(ev, field).value)
  {
  }
}
