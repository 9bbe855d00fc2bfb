/** The whole intake: which records are taken as what, with which fields, and with which code
    the others are refused. */
module Typing {
  import opened Wrappers
  import opened Text
  import opened Wire
  import opened Schema
  import opened Events
  import opened Intakes
  import opened Instance
  import opened Fields
  import opened Vocabulary
  import opened Copies

  /** The families that neither machine reduces. */
  const SINGLE_FAMILIES: set<string> :=
    {"classification_evaluated", "panel_decided", "merge_planned", "approval_evaluated", "authorization_granted",
     "consent", "protocol_genesis", "merge_unit_declared", "merge_unit_member_added", "protocol_epoch_advanced",
     "panel_roster_declared", "panel_roster_augmented", "seat_result"}

  /** A section-A record of its row: the row's fields, states and hold effect, an accepting
      disposition, with the object it takes, where the movement ends reconciled, and the refusing
      one on the row that restores the hold. */
  ghost predicate IsEffect(rules: Rules, ev: Wire, v: EffectVariant) {
    && Get(ev, "variant") == Str(EffectName(v))
    && Get(ev, "family") == Str("effect_lifecycle") && HasEffectFields(rules, ev, v)
    && Get(ev, "trigger_event") == Str(TriggerA(v)) && Get(ev, "hold_effect") == Str(HoldEffectA(v))
    && Get(ev, "from") == Str(StateNameA(FromA(v))) && Get(ev, "to") == Str(StateNameA(ToA(v)))
    && (ToA(v).Reconciled? ==>
          Get(ev, "disposition") == Str("ACCEPT_FOREIGN_ADVANCED")
          || (Get(ev, "disposition") == Str("ACCEPT_OURS") && HasText(ev, "new_oid")))
    && (v.ReconcileRejectRestoreHold? ==> Get(ev, "disposition") == Str("REJECT_RESTORE_HOLD"))
  }

  /** What a section-B row demands beside its fields: an automatic release is by a verified actor in
      separated mode, and a decision names its own disposition. */
  ghost predicate GuardsSpelled(ev: Wire, v: HoldVariant) {
    && (v.AutoRelease? ==>
          Get(ev, "actor_verification") == Str("VERIFIED_API")
          && Get(ev, "disposition") == Str("ACTOR_VERIFIED_AUTO") && Get(ev, "mode") == Str("SEPARATED"))
    && (v.HoldReconcileAccept? || v.HoldReconcileReplayIdentity? ==>
          Get(ev, "disposition") == Str("ACCEPT_OURS") || Get(ev, "disposition") == Str("ACCEPT_FOREIGN_ADVANCED"))
    && (v.HoldReconcileRejectRestoreHold? ==> Get(ev, "disposition") == Str("REJECT_RESTORE_HOLD"))
    && (v.HoldReconcileStanding? ==> Get(ev, "disposition") == Str("STANDING"))
  }

  ghost predicate FromSpelled(ev: Wire, v: HoldVariant) {
    exists s :: s in FromB(v) && Get(ev, "from") == Str(StateNameB(s))
  }

  /** A section-B record of its row, with the verified actor named. */
  ghost predicate IsHold(rules: Rules, ev: Wire, v: HoldVariant) {
    && Get(ev, "variant") == Str(HoldName(v))
    && Get(ev, "family") == Str("hold_lifecycle") && HasHoldFields(rules, ev, v)
    && Get(ev, "trigger_event") == Str(TriggerB(v))
    && FromSpelled(ev, v)
    && Get(ev, "to") == (if ToB(v).Some? then Str(StateNameB(ToB(v).value)) else Get(ev, "from"))
    && (Get(ev, "actor_verification") == Str("VERIFIED_API") ==> HasText(ev, "actor_node_id"))
    && GuardsSpelled(ev, v)
  }

  /** The record names the disposition, or none of them. */
  ghost predicate Names(ev: Wire, d: Option<Disposition>) {
    && (d == Some(AcceptOurs) <==> Get(ev, "disposition") == Str("ACCEPT_OURS"))
    && (d == Some(AcceptForeignAdvanced) <==> Get(ev, "disposition") == Str("ACCEPT_FOREIGN_ADVANCED"))
    && (d == Some(RejectRestoreHold) <==> Get(ev, "disposition") == Str("REJECT_RESTORE_HOLD"))
    && (d == Some(ActorVerifiedAuto) <==> Get(ev, "disposition") == Str("ACTOR_VERIFIED_AUTO"))
    && (d == Some(Standing) <==> Get(ev, "disposition") == Str("STANDING"))
  }

  lemma DispositionNames(ev: Wire)
    ensures Names(ev, DispositionField(ev))
  {
  }

  lemma ModeNames(ev: Wire)
    ensures ModeField(ev) == Some(Shared) <==> Get(ev, "mode") == Str("SHARED")
    ensures ModeField(ev) == Some(Separated) <==> Get(ev, "mode") == Str("SEPARATED")
  {
  }

  lemma FromNames(ev: Wire, s: StateB)
    ensures FromField(ev) == Some(s) <==> Get(ev, "from") == Str(StateNameB(s))
  {
  }

  lemma RowNames(ev: Wire)
    ensures forall v :: EffectVariantNamed(VariantNameOf(ev)) == Some(v) <==> Get(ev, "variant") == Str(EffectName(v))
    ensures forall v :: HoldVariantNamed(VariantNameOf(ev)) == Some(v) <==> Get(ev, "variant") == Str(HoldName(v))
  {
    hide EffectVariantNamed, HoldVariantNamed, VariantNameOf, EffectName, HoldName;
    forall v ensures EffectVariantNamed(VariantNameOf(ev)) == Some(v) <==> Get(ev, "variant") == Str(EffectName(v)) {
      RowNamesExact(ev, v, ObserveDelta);
    }
    forall w ensures HoldVariantNamed(VariantNameOf(ev)) == Some(w) <==> Get(ev, "variant") == Str(HoldName(w)) {
      RowNamesExact(ev, Prepare, w);
    }
  }

  lemma EffectSpelled(rules: Rules, ev: Wire, v: EffectVariant)
    requires EffectVariantNamed(VariantNameOf(ev)) == Some(v)
    ensures EffectRules(rules, ev, v) <==> IsEffect(rules, ev, v)
  {
    EffectFieldsExact(rules, ev, v);
    DispositionNames(ev);
    TriggersTell(v);
    RowNames(ev);
    hide EffectName, MarshalOk, RequiredA, OptionalA, ForbiddenA, EffectVariantNamed, TriggerA, StateNameA, HoldEffectA,
         FromA, ToA, DispositionField, HasEffectFields, VariantNameOf;
  }

  lemma GuardsAre(ev: Wire, v: HoldVariant)
    ensures HoldGuardsHold(v, ModeField(ev), DispositionField(ev), ev) <==> GuardsSpelled(ev, v)
  {
    DispositionNames(ev);
    ModeNames(ev);
    hide DispositionField, ModeField;
  }

  lemma FromIs(ev: Wire, v: HoldVariant)
    ensures FromField(ev).Some? && FromField(ev).value in FromB(v) <==> FromSpelled(ev, v)
  {
    forall s: StateB ensures FromField(ev) == Some(s) <==> Get(ev, "from") == Str(StateNameB(s)) {
      FromNames(ev, s);
    }
    hide FromField, FromB, StateNameB;
  }

  lemma HoldSpelled(rules: Rules, ev: Wire, v: HoldVariant)
    requires HoldVariantNamed(VariantNameOf(ev)) == Some(v)
    ensures HoldRules(rules, ev, v) <==> IsHold(rules, ev, v)
  {
    HoldFieldsExact(rules, ev, v);
    GuardsAre(ev, v);
    FromIs(ev, v);
    NodeIsText(rules, ev, v);
    RowNames(ev);
    hide HoldName, MarshalOk, RequiredB, HoldVariantNamed, TriggerB, StateNameB, FromB, DispositionField, ModeField,
         FromField, HasHoldFields, VariantNameOf, HasText, GuardsSpelled, FromSpelled, HoldGuardsHold, ToB;
  }

  lemma NodeIsText(rules: Rules, ev: Wire, v: HoldVariant)
    ensures HasHoldFields(rules, ev, v) ==> (HasText(ev, "actor_node_id") <==> Get(ev, "actor_node_id") != Null)
  {
    hide HasEnvelope, HasEpochs, HasStep, IsOneOf;
  }

  /** A record of another family is taken when its own rules pass and it carries no epoch. */
  ghost predicate IsSingle(rules: Rules, ev: Wire) {
    && Get(ev, "family").Str? && Get(ev, "family").s in SINGLE_FAMILIES
    && Get(ev, "epoch_before") == Null && Get(ev, "epoch_after") == Null && rules.checkSingle(ev).None?
  }

  lemma FamiliesAre(family: string)
    ensures family in FAMILIES <==>
            family == "effect_lifecycle" || family == "hold_lifecycle" || family in SINGLE_FAMILIES
    ensures family == "effect_lifecycle" || family == "hold_lifecycle" ==> family !in SINGLE_FAMILIES
  {
    assert FAMILIES == {"effect_lifecycle", "hold_lifecycle"} + SINGLE_FAMILIES;
    if family == "effect_lifecycle" || family == "hold_lifecycle" {
      forall f | f in SINGLE_FAMILIES ensures f != "" && f[0] != 'e' && f[0] != 'h' {
      }
    }
  }

  /** A record is taken as an effect, as a hold event or as another kind of record exactly when
      it has the one known schema version and meets the rules of that kind; never as two. */
  lemma IntakeExact(rules: Rules, ev: Wire)
    ensures var r := Intake(rules, ev);
            && (r.Ok? && r.value.Effect? <==> Get(ev, "schema_major") == Int(1) && exists v :: IsEffect(rules, ev, v))
            && (r.Ok? && r.value.Hold? <==> Get(ev, "schema_major") == Int(1) && exists v :: IsHold(rules, ev, v))
            && (r.Ok? && r.value.Single? <==> Get(ev, "schema_major") == Int(1) && IsSingle(rules, ev))
  {
    IntakeIs(rules, ev);
    EffectBuilt(rules, ev);
    HoldBuilt(rules, ev);
    FamiliesAre("effect_lifecycle");
    FamiliesAre("hold_lifecycle");
    hide Intake, BuildEffect, BuildHold, SINGLE_FAMILIES, IsEffect, IsHold, EffectOk, HoldOk;
  }

  /** The intake, family by family. */
  lemma IntakeIs(rules: Rules, ev: Wire)
    ensures var family := Get(ev, "family");
            Intake(rules, ev) ==
            if Get(ev, "schema_major") != Int(1) then Err(SchemaMajorUnknown)
            else if family == Str("effect_lifecycle") then
              match BuildEffect(rules, ev) case Ok(e) => Ok(Effect(e)) case Err(code) => Err(code)
            else if family == Str("hold_lifecycle") then
              match BuildHold(rules, ev) case Ok(e) => Ok(Hold(e)) case Err(code) => Err(code)
            else if !family.Str? || family.s !in SINGLE_FAMILIES then Err(SchemaMajorUnknown)
            else if Get(ev, "epoch_before") != Null || Get(ev, "epoch_after") != Null then Err(SchemaMajorUnknown)
            else match rules.checkSingle(ev) case Some(code) => Err(code) case None => Ok(Single)
  {
    var family := Get(ev, "family");
    if family.Str? {
      FamiliesAre(family.s);
    }
    NoNameNoVariant(ev);
    EffectNeedsVariant(rules, ev);
    HoldNeedsVariant(rules, ev);
    hide EffectVariantNamed, HoldVariantNamed, BuildEffect, BuildHold, FAMILIES, SINGLE_FAMILIES, VariantNameOf,
         EffectOk, HoldOk;
  }

  lemma NoNameNoVariant(ev: Wire)
    ensures Get(ev, "variant") == Null ==>
              EffectVariantNamed(VariantNameOf(ev)).None? && HoldVariantNamed(VariantNameOf(ev)).None?
  {
  }

  lemma EffectBuilt(rules: Rules, ev: Wire)
    ensures BuildEffect(rules, ev).Ok? <==> exists v :: IsEffect(rules, ev, v)
    ensures BuildEffect(rules, ev).Ok? ==>
              Get(ev, "family") == Str("effect_lifecycle") && EffectVariantNamed(VariantNameOf(ev)).Some?
  {
    EffectNeedsVariant(rules, ev);
    var named := EffectVariantNamed(VariantNameOf(ev));
    if named.Some? {
      EffectIsConstructed(rules, ev, named.value);
      EffectSpelled(rules, ev, named.value);
    }
    TakenAsNamed(rules, ev);
    hide EffectVariantNamed, BuildEffect, EffectRules, VariantNameOf, IsEffect;
  }

  lemma HoldBuilt(rules: Rules, ev: Wire)
    ensures BuildHold(rules, ev).Ok? <==> exists v :: IsHold(rules, ev, v)
    ensures BuildHold(rules, ev).Ok? ==>
              Get(ev, "family") == Str("hold_lifecycle") && HoldVariantNamed(VariantNameOf(ev)).Some?
  {
    HoldNeedsVariant(rules, ev);
    var named := HoldVariantNamed(VariantNameOf(ev));
    if named.Some? {
      HoldIsConstructed(rules, ev, named.value);
      HoldSpelled(rules, ev, named.value);
    }
    TakenAsNamed(rules, ev);
    hide HoldVariantNamed, BuildHold, HoldRules, VariantNameOf, IsHold;
  }

  lemma TakenAsNamed(rules: Rules, ev: Wire)
    ensures forall v :: IsEffect(rules, ev, v) ==> EffectVariantNamed(VariantNameOf(ev)) == Some(v)
    ensures forall v :: IsHold(rules, ev, v) ==> HoldVariantNamed(VariantNameOf(ev)) == Some(v)
  {
    RowNames(ev);
    hide EffectName, HoldName, HasEffectFields, HasHoldFields, EffectVariantNamed, HoldVariantNamed, VariantNameOf;
  }

  lemma EffectNeedsVariant(rules: Rules, ev: Wire)
    ensures EffectVariantNamed(VariantNameOf(ev)).None? ==> BuildEffect(rules, ev) == Err(SchemaMajorUnknown)
    ensures BuildEffect(rules, ev).Ok? ==> Get(ev, "family") == Str("effect_lifecycle")
  {
    hide EffectVariantNamed, MarshalOk, EffectOk;
  }

  lemma HoldNeedsVariant(rules: Rules, ev: Wire)
    ensures HoldVariantNamed(VariantNameOf(ev)).None? ==> BuildHold(rules, ev) == Err(SchemaMajorUnknown)
    ensures BuildHold(rules, ev).Ok? ==> Get(ev, "family") == Str("hold_lifecycle")
  {
    hide HoldVariantNamed, MarshalOk, HoldOk;
  }

  // ----- the fields of a typed event -----------------------------------------

  /** A field's text as the record carries it; none when it is absent or not plain text. */
  ghost predicate Carries(ev: Wire, field: string, value: Option<string>) {
    match value
    case Some(s) => Get(ev, field) == Str(s) && s != "" && NewlineFree(s)
    case None => !Get(ev, field).Str? || Get(ev, field).s == "" || !NewlineFree(Get(ev, field).s)
  }

  lemma TextFieldCarries(ev: Wire, field: string)
    ensures Carries(ev, field, match TextField(ev, field) case Some(s) => Some(s) case None => None)
  {
  }

  /** A typed effect carries exactly what the record says. */
  lemma EffectFields(rules: Rules, ev: Wire)
    requires BuildEffect(rules, ev).Ok?
    ensures var e := BuildEffect(rules, ev).value;
            && Get(ev, "variant") == Str(EffectName(e.variant))
            && Get(ev, "base_key") == Str(e.baseKey) && Get(ev, "movement_id") == Str(e.movementId)
            && Get(ev, "epoch_before") == Str(e.epochBefore) && Get(ev, "epoch_after") == Str(e.epochAfter)
            && Carries(ev, "new_oid", if RequiresNewOid(e.variant) || MayCarryNewOid(e.variant) then e.newOid
                                      else TextOf(ev, "new_oid"))
            && Names(ev, e.disposition)
  {
    TextFieldCarries(ev, "new_oid");
    DispositionNames(ev);
    RowNames(ev);
    hide EffectName, EffectVariantNamed, VariantNameOf, MarshalOk, EffectOk, RequiredA, OptionalA, ForbiddenA, TriggerA,
         StateNameA, DispositionField, Names;
  }

  function TextOf(ev: Wire, field: string): Option<string> {
    match TextField(ev, field) case Some(s) => Some(s) case None => None
  }

  /** And a typed hold event likewise. */
  lemma HoldFields(rules: Rules, ev: Wire)
    requires BuildHold(rules, ev).Ok?
    ensures var e := BuildHold(rules, ev).value;
            && Get(ev, "variant") == Str(HoldName(e.variant))
            && Get(ev, "base_key") == Str(e.baseKey) && Get(ev, "ref") == Str(e.ref)
            && Get(ev, "epoch_before") == Str(e.epochBefore) && Get(ev, "epoch_after") == Str(e.epochAfter)
            && Carries(ev, "hold_id", e.holdId) && Carries(ev, "source_delivery_id", e.delivery)
            && Carries(ev, "delta_old_oid", e.deltaOld) && Carries(ev, "delta_new_oid", e.deltaNew)
            && Carries(ev, "matched_subject_digest", e.digest) && Carries(ev, "matched_movement_id", e.movement)
            && Get(ev, "from") == Str(StateNameB(e.from))
            && Get(ev, "mode") == Str(if e.mode.Shared? then "SHARED" else "SEPARATED")
            && Names(ev, e.disposition)
            && (e.derivedId <==> DerivedRecovery(rules.hash, ev) || DerivedRelease(rules.hash, ev))
  {
    DerivedIdExact(rules.hash, ev);
    TextFieldCarries(ev, "hold_id");
    TextFieldCarries(ev, "source_delivery_id");
    TextFieldCarries(ev, "delta_old_oid");
    TextFieldCarries(ev, "delta_new_oid");
    TextFieldCarries(ev, "matched_subject_digest");
    TextFieldCarries(ev, "matched_movement_id");
    DispositionNames(ev);
    ModeNames(ev);
    RowNames(ev);
    forall s: StateB ensures FromField(ev) == Some(s) <==> Get(ev, "from") == Str(StateNameB(s)) {
      FromNames(ev, s);
    }
    hide HoldName, HoldVariantNamed, VariantNameOf, MarshalOk, HoldOk, RequiredB, TriggerB, WantedTo, HoldGuardsHold,
         IsDerivedId, DerivedRecovery, DerivedRelease, Carries, DispositionField, ModeField, FromField, StateNameB,
         Names;
  }

  // ----- the codes -----------------------------------------------------------

  /** The wire form of an effect is right: what the schema alone can check. */
  ghost predicate EffectShape(rules: Rules, ev: Wire, v: EffectVariant) {
    && HasEffectFields(rules, ev, v)
    && Get(ev, "trigger_event") == Str(TriggerA(v)) && Get(ev, "to") == Str(StateNameA(ToA(v)))
    && (ToA(v).Reconciled? && Get(ev, "disposition") == Str("ACCEPT_OURS") ==> HasText(ev, "new_oid"))
  }

  ghost predicate HoldShape(rules: Rules, ev: Wire, v: HoldVariant) {
    && HasHoldFields(rules, ev, v)
    && Get(ev, "trigger_event") == Str(TriggerB(v))
    && Get(ev, "to") == (if ToB(v).Some? then Str(StateNameB(ToB(v).value)) else Get(ev, "from"))
    && !(Get(ev, "actor_verification") == Str("VERIFIED_API") && Get(ev, "actor_node_id") == Null)
  }

  /** A record of a reduced family is refused as an illegal transition exactly when its wire form
      is right but its source, its hold effect or a guard of its row is not; every other
      refusal of it is an unknown schema. */
  lemma RefusalCode(rules: Rules, ev: Wire)
    requires Intake(rules, ev).Err? && Get(ev, "schema_major") == Int(1)
    requires Get(ev, "family") == Str("effect_lifecycle") || Get(ev, "family") == Str("hold_lifecycle")
    ensures Get(ev, "family") == Str("effect_lifecycle") ==>
              Intake(rules, ev).error ==
              if exists v :: Get(ev, "variant") == Str(EffectName(v)) && EffectShape(rules, ev, v)
              then IllegalTransition else SchemaMajorUnknown
    ensures Get(ev, "family") == Str("hold_lifecycle") ==>
              Intake(rules, ev).error ==
              if exists v :: Get(ev, "variant") == Str(HoldName(v)) && HoldShape(rules, ev, v)
              then IllegalTransition else SchemaMajorUnknown
  {
    IntakeIs(rules, ev);
    if Get(ev, "family") == Str("effect_lifecycle") {
      EffectCode(rules, ev);
    } else {
      HoldCode(rules, ev);
    }
    hide Intake, BuildEffect, BuildHold, EffectShape, HoldShape, SINGLE_FAMILIES, EffectVariantNamed, HoldVariantNamed,
         VariantNameOf, EffectOk, HoldOk, EffectName, HoldName;
  }

  lemma EffectCode(rules: Rules, ev: Wire)
    requires BuildEffect(rules, ev).Err? && Get(ev, "family") == Str("effect_lifecycle")
    ensures BuildEffect(rules, ev).error ==
            if exists v :: Get(ev, "variant") == Str(EffectName(v)) && EffectShape(rules, ev, v)
            then IllegalTransition else SchemaMajorUnknown
  {
    DispositionNames(ev);
    EffectNeedsVariant(rules, ev);
    RowNames(ev);
    var named := EffectVariantNamed(VariantNameOf(ev));
    if named.Some? {
      EffectIsConstructed(rules, ev, named.value);
      EffectFieldsExact(rules, ev, named.value);
      TriggersTell(named.value);
      hide EffectName, HasEffectFields, MarshalOk, RequiredA, OptionalA, ForbiddenA, EffectVariantNamed, TriggerA,
           StateNameA, HoldEffectA, FromA, ToA, DispositionField, TextField, RawEffect, EffectOk;
      assert EffectShape(rules, ev, named.value) <==> BuildEffect(rules, ev).error == IllegalTransition;
    }
    hide BuildEffect, EffectShape, EffectVariantNamed, VariantNameOf, EffectOk, EffectName;
  }

  lemma HoldCode(rules: Rules, ev: Wire)
    requires BuildHold(rules, ev).Err? && Get(ev, "family") == Str("hold_lifecycle")
    ensures BuildHold(rules, ev).error ==
            if exists v :: Get(ev, "variant") == Str(HoldName(v)) && HoldShape(rules, ev, v)
            then IllegalTransition else SchemaMajorUnknown
  {
    HoldNeedsVariant(rules, ev);
    RowNames(ev);
    var named := HoldVariantNamed(VariantNameOf(ev));
    if named.Some? {
      HoldIsConstructed(rules, ev, named.value);
      HoldFieldsExact(rules, ev, named.value);
      hide HoldName, HasHoldFields, StateNameB, MarshalOk, RequiredB, HoldVariantNamed, TriggerB, DispositionField,
           ModeField, FromField, WantedTo, RawHold, HoldOk, TextField, HoldGuardsHold, FromB;
      assert HoldShape(rules, ev, named.value) <==> BuildHold(rules, ev).error == IllegalTransition;
    }
    hide BuildHold, HoldShape, HoldVariantNamed, VariantNameOf, HoldOk, HoldName;
  }
}
