/** The fields of a record of either machine, each with what it must hold. */
module Fields {
  import opened Text
  import opened Wire
  import opened Schema
  import opened Intakes

  ghost predicate IsText(v: Value) {
    v.Str? && v.s != "" && NewlineFree(v.s)
  }

  ghost predicate HasText(ev: Wire, field: string) {
    IsText(Get(ev, field))
  }

  /** Absent, or a text. */
  ghost predicate MayHaveText(ev: Wire, field: string) {
    Get(ev, field) == Null || HasText(ev, field)
  }

  ghost predicate IsOneOf(v: Value, names: set<string>) {
    v.Str? && v.s in names
  }

  const DISPOSITIONS: set<string> :=
    {"ACCEPT_OURS", "ACCEPT_FOREIGN_ADVANCED", "REJECT_RESTORE_HOLD", "ACTOR_VERIFIED_AUTO", "STANDING"}

  ghost predicate HasEnvelope(rules: Rules, ev: Wire) {
    && Get(ev, "schema_major") == Int(1) && Get(ev, "schema_minor").Int?
    && HasText(ev, "ts") && rules.validTs(Get(ev, "ts").s)
    && HasText(ev, "event_id") && HasText(ev, "run_id") && HasText(ev, "trace_id")
    && HasText(ev, "protocol_epoch") && HasText(ev, "family")
  }

  ghost predicate HasEpochs(ev: Wire) {
    HasText(ev, "base_key") && HasText(ev, "epoch_before") && HasText(ev, "epoch_after")
  }

  ghost predicate HasStep(ev: Wire) {
    HasText(ev, "trigger_event") && HasText(ev, "from") && HasText(ev, "to")
  }

  // ----- what one field must hold --------------------------------------------

  predicate Plain(field: string) {
    field !in ENUM_FIELDS && field !in INT_FIELDS && field != "ts"
  }

  lemma PlainField(rules: Rules, ev: Wire, field: string)
    requires Plain(field)
    ensures FieldOk(rules, field, Get(ev, field)) <==> HasText(ev, field)
  {
  }

  lemma ChosenField(rules: Rules, field: string, v: Value)
    ensures field == "disposition" ==> (FieldOk(rules, field, v) <==> IsOneOf(v, DISPOSITIONS))
    ensures field == "mode" || field == "credential_mode" ==>
              (FieldOk(rules, field, v) <==> IsOneOf(v, {"SHARED", "SEPARATED"}))
    ensures field == "actor_verification" ==>
            (FieldOk(rules, field, v) <==> IsOneOf(v, {"VERIFIED_API", "DISPLAY_ONLY"}))
    ensures field == "hold_effect" ==>
              (FieldOk(rules, field, v) <==> IsOneOf(v, {"NONE", "CREATED", "RELEASED", "RETAINED"}))
  {
  }

  lemma StampedField(rules: Rules, field: string, v: Value)
    ensures field == "schema_major" ==> (FieldOk(rules, field, v) <==> v == Int(1))
    ensures field == "schema_minor" ==> (FieldOk(rules, field, v) <==> v.Int?)
    ensures field == "ts" ==> (FieldOk(rules, field, v) <==> IsText(v) && rules.validTs(v.s))
  {
  }

  // ----- lists of fields -----------------------------------------------------

  ghost predicate All(rules: Rules, names: seq<string>, ev: Wire) {
    forall f :: f in names ==> FieldOk(rules, f, Get(ev, f))
  }

  ghost predicate AllMay(rules: Rules, names: seq<string>, ev: Wire) {
    forall f :: f in names ==> Get(ev, f) == Null || FieldOk(rules, f, Get(ev, f))
  }

  ghost predicate AllNull(names: seq<string>, ev: Wire) {
    forall f :: f in names ==> Get(ev, f) == Null
  }

  lemma MarshalMeans(rules: Rules, required: seq<string>, optional: seq<string>, forbidden: seq<string>, ev: Wire)
    ensures MarshalOk(rules, required, optional, forbidden, ev) <==>
              All(rules, required, ev) && AllMay(rules, optional, ev) && AllNull(forbidden, ev)
  {
    hide FieldOk;
  }

  lemma AllOfBoth(rules: Rules, a: seq<string>, b: seq<string>, ev: Wire)
    ensures All(rules, a + b, ev) <==> All(rules, a, ev) && All(rules, b, ev)
    ensures AllMay(rules, a + b, ev) <==> AllMay(rules, a, ev) && AllMay(rules, b, ev)
  {
    hide FieldOk;
    assert forall f :: f in a + b <==> f in a || f in b;
  }

  lemma AllOfFew(rules: Rules, a: string, b: string, c: string, d: string, ev: Wire)
    ensures All(rules, [a], ev) <==> FieldOk(rules, a, Get(ev, a))
    ensures All(rules, [a, b], ev) <==> FieldOk(rules, a, Get(ev, a)) && FieldOk(rules, b, Get(ev, b))
    ensures All(rules, [a, b, c], ev) <==>
              FieldOk(rules, a, Get(ev, a)) && FieldOk(rules, b, Get(ev, b)) && FieldOk(rules, c, Get(ev, c))
    ensures All(rules, [a, b, c, d], ev) <==>
              FieldOk(rules, a, Get(ev, a)) && FieldOk(rules, b, Get(ev, b)) && FieldOk(rules, c, Get(ev, c))
                && FieldOk(rules, d, Get(ev, d))
  {
    hide FieldOk;
  }

  lemma MayOfFew(rules: Rules, a: string, b: string, c: string, ev: Wire)
    ensures AllMay(rules, [a], ev) <==> Get(ev, a) == Null || FieldOk(rules, a, Get(ev, a))
    ensures AllMay(rules, [a, b, c], ev) <==>
              && (Get(ev, a) == Null || FieldOk(rules, a, Get(ev, a)))
              && (Get(ev, b) == Null || FieldOk(rules, b, Get(ev, b)))
              && (Get(ev, c) == Null || FieldOk(rules, c, Get(ev, c)))
  {
    hide FieldOk;
  }

  lemma AllOfMany(rules: Rules, a: seq<string>, b: seq<string>, c: seq<string>, ev: Wire)
    ensures All(rules, a + b + c, ev) <==> All(rules, a, ev) && All(rules, b, ev) && All(rules, c, ev)
  {
    hide All;
    AllOfBoth(rules, a + b, c, ev);
    AllOfBoth(rules, a, b, ev);
  }

  lemma EnvelopeMeans(rules: Rules, ev: Wire)
    ensures All(rules, ENVELOPE, ev) <==> HasEnvelope(rules, ev)
  {
    hide FieldOk, IsText, All;
    assert ENVELOPE == ["schema_major", "schema_minor", "event_id", "ts"]
           + ["run_id", "trace_id", "protocol_epoch", "family"];
    AllOfBoth(rules, ["schema_major", "schema_minor", "event_id", "ts"],
              ["run_id", "trace_id", "protocol_epoch", "family"],
              ev);
    AllOfFew(rules, "schema_major", "schema_minor", "event_id", "ts", ev);
    AllOfFew(rules, "run_id", "trace_id", "protocol_epoch", "family", ev);
    StampedField(rules, "schema_major", Get(ev, "schema_major"));
    StampedField(rules, "schema_minor", Get(ev, "schema_minor"));
    StampedField(rules, "ts", Get(ev, "ts"));
    PlainField(rules, ev, "event_id");
    PlainField(rules, ev, "run_id");
    PlainField(rules, ev, "trace_id");
    PlainField(rules, ev, "protocol_epoch");
    PlainField(rules, ev, "family");
    assert HasText(ev, "ts") <==> IsText(Get(ev, "ts"));
  }

  // ----- section A -----------------------------------------------------------

  /** The fields of a section-A record: the envelope, the step, the epochs and the context on
      all; an authorization on what the dispatcher does or observes, and never on what a
      recovery or an operator writes; the object where one was observed; an operator's
      disposition. */
  ghost predicate HasEffectFields(rules: Rules, ev: Wire, v: EffectVariant) {
    && HasEnvelope(rules, ev) && HasStep(ev) && HasEpochs(ev)
    && HasText(ev, "movement_id") && HasText(ev, "authority") && HasText(ev, "actor_context")
    && IsOneOf(Get(ev, "hold_effect"), {"NONE", "CREATED", "RELEASED", "RETAINED"})
    && IsOneOf(Get(ev, "credential_mode"), {"SHARED", "SEPARATED"})
    && MayHaveText(ev, "subject_digest") && MayHaveText(ev, "attempt_id") && MayHaveText(ev, "reason")
    && (if TriggerA(v) in {"prepare", "submit", "observe_effect", "observe_reject"} then HasText(ev, "authorization_id")
        else if TriggerA(v) in {"crash_recovery", "operator_reconcile"} then Get(ev, "authorization_id") == Null
        else MayHaveText(ev, "authorization_id"))
    && (TriggerA(v) == "observe_effect" || FromA(v).EffectObserved? ==> HasText(ev, "new_oid"))
    && (ToA(v).Reconciled? ==> MayHaveText(ev, "new_oid"))
    && (TriggerA(v) == "operator_reconcile" ==> IsOneOf(Get(ev, "disposition"), DISPOSITIONS))
  }

  lemma EffectCommonMeans(rules: Rules, ev: Wire)
    ensures All(rules, EFFECT_COMMON, ev) <==>
              && HasStep(ev) && HasEpochs(ev)
              && HasText(ev, "movement_id") && HasText(ev, "authority") && HasText(ev, "actor_context")
              && IsOneOf(Get(ev, "hold_effect"), {"NONE", "CREATED", "RELEASED", "RETAINED"})
              && IsOneOf(Get(ev, "credential_mode"), {"SHARED", "SEPARATED"})
  {
    hide FieldOk, HasText, IsOneOf, All;
    assert EFFECT_COMMON == ["movement_id", "base_key", "trigger_event", "from"]
                            + ["to", "authority", "epoch_before", "epoch_after"]
                            + ["hold_effect", "actor_context", "credential_mode"];
    AllOfMany(rules, ["movement_id", "base_key", "trigger_event", "from"],
              ["to", "authority", "epoch_before", "epoch_after"], ["hold_effect", "actor_context", "credential_mode"],
              ev);
    AllOfFew(rules, "movement_id", "base_key", "trigger_event", "from", ev);
    AllOfFew(rules, "to", "authority", "epoch_before", "epoch_after", ev);
    AllOfFew(rules, "hold_effect", "actor_context", "credential_mode", "", ev);
    StepFields(rules, ev);
    ContextFields(rules, ev);
    ChosenField(rules, "hold_effect", Get(ev, "hold_effect"));
    ChosenField(rules, "credential_mode", Get(ev, "credential_mode"));
  }

  ghost predicate Means(rules: Rules, ev: Wire, field: string) {
    FieldOk(rules, field, Get(ev, field)) <==> HasText(ev, field)
  }

  lemma StepFields(rules: Rules, ev: Wire)
    ensures Means(rules, ev, "movement_id") && Means(rules, ev, "base_key") && Means(rules, ev, "trigger_event")
    ensures Means(rules, ev, "from") && Means(rules, ev, "to")
  {
    hide FieldOk, HasText;
    PlainField(rules, ev, "movement_id");
    PlainField(rules, ev, "base_key");
    PlainField(rules, ev, "trigger_event");
    PlainField(rules, ev, "from");
    PlainField(rules, ev, "to");
  }

  lemma ContextFields(rules: Rules, ev: Wire)
    ensures Means(rules, ev, "authority") && Means(rules, ev, "epoch_before") && Means(rules, ev, "epoch_after")
    ensures Means(rules, ev, "actor_context") && Means(rules, ev, "ref") && Means(rules, ev, "actor_display")
  {
    hide FieldOk, HasText;
    PlainField(rules, ev, "authority");
    PlainField(rules, ev, "epoch_before");
    PlainField(rules, ev, "epoch_after");
    PlainField(rules, ev, "actor_context");
    PlainField(rules, ev, "ref");
    PlainField(rules, ev, "actor_display");
  }

  lemma SubjectFields(rules: Rules, ev: Wire)
    ensures Means(rules, ev, "authorization_id") && Means(rules, ev, "new_oid") && Means(rules, ev, "subject_digest")
    ensures Means(rules, ev, "attempt_id") && Means(rules, ev, "reason") && Means(rules, ev, "movement_id")
  {
    hide FieldOk, HasText;
    PlainField(rules, ev, "authorization_id");
    PlainField(rules, ev, "new_oid");
    PlainField(rules, ev, "subject_digest");
    PlainField(rules, ev, "attempt_id");
    PlainField(rules, ev, "reason");
    PlainField(rules, ev, "movement_id");
  }

  lemma HoldOwnFields(rules: Rules, ev: Wire)
    ensures Means(rules, ev, "hold_id") && Means(rules, ev, "actor_node_id") && Means(rules, ev, "source_delivery_id")
    ensures Means(rules, ev, "delta_old_oid") && Means(rules, ev, "delta_new_oid")
  {
    hide FieldOk, HasText;
    PlainField(rules, ev, "hold_id");
    PlainField(rules, ev, "actor_node_id");
    PlainField(rules, ev, "source_delivery_id");
    PlainField(rules, ev, "delta_old_oid");
    PlainField(rules, ev, "delta_new_oid");
  }

  lemma MatchFields(rules: Rules, ev: Wire)
    ensures Means(rules, ev, "matched_subject_digest") && Means(rules, ev, "matched_movement_id")
  {
    hide FieldOk, HasText;
    PlainField(rules, ev, "matched_subject_digest");
    PlainField(rules, ev, "matched_movement_id");
  }

  /** The lists of a section-A row say exactly that. */
  lemma EffectFieldsExact(rules: Rules, ev: Wire, v: EffectVariant)
    ensures MarshalOk(rules, RequiredA(v), OptionalA(v), ForbiddenA(v), ev) <==> HasEffectFields(rules, ev, v)
  {
    MarshalMeans(rules, RequiredA(v), OptionalA(v), ForbiddenA(v), ev);
    EffectRequired(rules, ev, v);
    EffectOptional(rules, ev, v);
    AllOfIf(rules, ForbidsAuthorization(v), "authorization_id", ev);
    EnvelopeMeans(rules, ev);
    EffectCommonMeans(rules, ev);
    assert ForbiddenA(v) == If(ForbidsAuthorization(v), "authorization_id");
    TriggersTell(v);
    hide MarshalOk, ForbiddenA, AllNull, If, ENVELOPE, EFFECT_COMMON, RequiredA, OptionalA, All, AllMay, HasText,
         IsOneOf, TriggerA, FromA, ToA, DISPOSITIONS, RequiresAuthorization, ForbidsAuthorization, RequiresNewOid,
         MayCarryNewOid, OperatorRowA, HasEnvelope, HasStep, HasEpochs;
  }

  lemma TriggersTell(v: EffectVariant)
    ensures RequiresAuthorization(v) <==> TriggerA(v) in {"prepare", "submit", "observe_effect", "observe_reject"}
    ensures ForbidsAuthorization(v) <==> TriggerA(v) in {"crash_recovery", "operator_reconcile"}
    ensures !(RequiresAuthorization(v) && ForbidsAuthorization(v))
    ensures RequiresNewOid(v) <==> TriggerA(v) == "observe_effect" || FromA(v).EffectObserved?
    ensures MayCarryNewOid(v) <==> ToA(v).Reconciled?
    ensures OperatorRowA(v) <==> TriggerA(v) == "operator_reconcile"
  {
  }

  /** A field that some rows have. */
  function If(b: bool, field: string): seq<string> {
    if b then [field] else []
  }

  lemma AllOfIf(rules: Rules, b: bool, field: string, ev: Wire)
    ensures All(rules, If(b, field), ev) <==> (b ==> FieldOk(rules, field, Get(ev, field)))
    ensures AllMay(rules, If(b, field), ev) <==> (b ==> Get(ev, field) == Null || FieldOk(rules, field, Get(ev, field)))
    ensures AllNull(If(b, field), ev) <==> (b ==> Get(ev, field) == Null)
  {
    hide FieldOk;
  }

  lemma AllOfFive(rules: Rules, a: seq<string>, b: seq<string>, c: seq<string>, d: seq<string>, e: seq<string>,
                  ev: Wire)
    ensures All(rules, a + b + c + d + e, ev) <==>
              All(rules, a, ev) && All(rules, b, ev) && All(rules, c, ev) && All(rules, d, ev) && All(rules, e, ev)
    ensures AllMay(rules, a + b + c, ev) <==> AllMay(rules, a, ev) && AllMay(rules, b, ev) && AllMay(rules, c, ev)
  {
    hide All, AllMay;
    AllOfBoth(rules, a + b + c + d, e, ev);
    AllOfBoth(rules, a + b + c, d, ev);
    AllOfBoth(rules, a + b, c, ev);
    AllOfBoth(rules, a, b, ev);
  }

  lemma EffectRequired(rules: Rules, ev: Wire, v: EffectVariant)
    ensures All(rules, RequiredA(v), ev) <==>
              && All(rules, ENVELOPE, ev) && All(rules, EFFECT_COMMON, ev)
              && (RequiresAuthorization(v) ==> HasText(ev, "authorization_id"))
              && (RequiresNewOid(v) ==> HasText(ev, "new_oid"))
              && (OperatorRowA(v) ==> IsOneOf(Get(ev, "disposition"), DISPOSITIONS))
  {
    hide ENVELOPE, EFFECT_COMMON, FieldOk, HasText, IsOneOf, DISPOSITIONS, All, RequiresAuthorization, RequiresNewOid,
         OperatorRowA;
    AllOfFive(rules, ENVELOPE, EFFECT_COMMON, If(RequiresAuthorization(v), "authorization_id"),
              If(RequiresNewOid(v), "new_oid"), If(OperatorRowA(v), "disposition"), ev);
    AllOfIf(rules, RequiresAuthorization(v), "authorization_id", ev);
    AllOfIf(rules, RequiresNewOid(v), "new_oid", ev);
    AllOfIf(rules, OperatorRowA(v), "disposition", ev);
    SubjectFields(rules, ev);
    ChosenField(rules, "disposition", Get(ev, "disposition"));
  }

  lemma EffectOptional(rules: Rules, ev: Wire, v: EffectVariant)
    ensures AllMay(rules, OptionalA(v), ev) <==>
              && MayHaveText(ev, "subject_digest") && MayHaveText(ev, "attempt_id") && MayHaveText(ev, "reason")
              && (RequiresAuthorization(v) || ForbidsAuthorization(v) || MayHaveText(ev, "authorization_id"))
              && (MayCarryNewOid(v) ==> MayHaveText(ev, "new_oid"))
  {
    hide FieldOk, HasText, AllMay, RequiresAuthorization, ForbidsAuthorization, MayCarryNewOid;
    var other := !(RequiresAuthorization(v) || ForbidsAuthorization(v));
    AllOfFive(rules, ["subject_digest", "attempt_id", "reason"], If(other, "authorization_id"),
              If(MayCarryNewOid(v), "new_oid"), [], [], ev);
    MayOfFew(rules, "subject_digest", "attempt_id", "reason", ev);
    AllOfIf(rules, other, "authorization_id", ev);
    AllOfIf(rules, MayCarryNewOid(v), "new_oid", ev);
    SubjectFields(rules, ev);
  }

  // ----- section B -----------------------------------------------------------

  /** The fields of a section-B record. */
  ghost predicate HasHoldFields(rules: Rules, ev: Wire, v: HoldVariant) {
    && HasEnvelope(rules, ev) && HasStep(ev) && HasEpochs(ev)
    && HasText(ev, "ref") && HasText(ev, "actor_display")
    && IsOneOf(Get(ev, "mode"), {"SHARED", "SEPARATED"})
    && IsOneOf(Get(ev, "actor_verification"), {"VERIFIED_API", "DISPLAY_ONLY"})
    && MayHaveText(ev, "subject_digest") && MayHaveText(ev, "movement_id") && MayHaveText(ev, "attempt_id")
    && MayHaveText(ev, "matched_movement_id") && Get(ev, "authorization_id") == Null
    && MayHaveText(ev, "hold_id") && MayHaveText(ev, "actor_node_id") && MayHaveText(ev, "source_delivery_id")
    && MayHaveText(ev, "delta_old_oid") && MayHaveText(ev, "delta_new_oid")
    && MayHaveText(ev, "matched_subject_digest")
    && (Get(ev, "disposition") == Null || IsOneOf(Get(ev, "disposition"), DISPOSITIONS))
    && (if TriggerB(v) == "observe_delta"
        then HasText(ev, "delta_old_oid") && HasText(ev, "delta_new_oid")
        else HasText(ev, "hold_id") && HasText(ev, "actor_node_id"))
    && (TriggerB(v) == "observe_delta" && !v.ObserveDelta? ==> HasText(ev, "source_delivery_id"))
    && (TriggerB(v) == "actor_verified_match" ==>
          HasText(ev, "source_delivery_id") && HasText(ev, "matched_subject_digest"))
    && (TriggerB(v) == "operator_reconcile" ==> IsOneOf(Get(ev, "disposition"), DISPOSITIONS))
  }

  lemma HoldCommonMeans(rules: Rules, ev: Wire)
    ensures All(rules, HOLD_COMMON, ev) <==>
              && HasStep(ev) && HasEpochs(ev) && HasText(ev, "ref") && HasText(ev, "actor_display")
              && IsOneOf(Get(ev, "mode"), {"SHARED", "SEPARATED"})
              && IsOneOf(Get(ev, "actor_verification"), {"VERIFIED_API", "DISPLAY_ONLY"})
  {
    hide FieldOk, HasText, IsOneOf, All;
    assert HOLD_COMMON == ["base_key", "trigger_event", "from", "to"] + ["epoch_before", "epoch_after", "ref", "mode"]
                          + ["actor_verification", "actor_display"];
    AllOfMany(rules, ["base_key", "trigger_event", "from", "to"], ["epoch_before", "epoch_after", "ref", "mode"],
              ["actor_verification", "actor_display"], ev);
    AllOfFew(rules, "base_key", "trigger_event", "from", "to", ev);
    AllOfFew(rules, "epoch_before", "epoch_after", "ref", "mode", ev);
    AllOfFew(rules, "actor_verification", "actor_display", "", "", ev);
    StepFields(rules, ev);
    ContextFields(rules, ev);
    ChosenField(rules, "mode", Get(ev, "mode"));
    ChosenField(rules, "actor_verification", Get(ev, "actor_verification"));
  }

  lemma HoldOptional(rules: Rules, ev: Wire)
    ensures AllMay(rules, HOLD_OPTIONAL, ev) <==>
              && MayHaveText(ev, "subject_digest") && MayHaveText(ev, "movement_id") && MayHaveText(ev, "attempt_id")
              && MayHaveText(ev, "hold_id") && MayHaveText(ev, "delta_old_oid") && MayHaveText(ev, "delta_new_oid")
              && MayHaveText(ev, "source_delivery_id") && MayHaveText(ev, "actor_node_id")
              && MayHaveText(ev, "matched_subject_digest") && MayHaveText(ev, "matched_movement_id")
              && (Get(ev, "disposition") == Null || IsOneOf(Get(ev, "disposition"), DISPOSITIONS))
  {
    hide FieldOk, HasText, AllMay, IsOneOf, DISPOSITIONS;
    var a, b := ["subject_digest", "movement_id", "attempt_id"], ["hold_id", "delta_old_oid", "delta_new_oid"];
    var c, d := ["source_delivery_id", "actor_node_id", "matched_subject_digest"], ["matched_movement_id"];
    assert HOLD_OPTIONAL == (a + b + c) + (d + ["disposition"]);
    AllOfBoth(rules, a + b + c, d + ["disposition"], ev);
    AllOfFive(rules, a, b, c, [], [], ev);
    AllOfBoth(rules, d, ["disposition"], ev);
    MayOfFew(rules, "subject_digest", "movement_id", "attempt_id", ev);
    MayOfFew(rules, "hold_id", "delta_old_oid", "delta_new_oid", ev);
    MayOfFew(rules, "source_delivery_id", "actor_node_id", "matched_subject_digest", ev);
    MayOfFew(rules, "matched_movement_id", "", "", ev);
    MayOfFew(rules, "disposition", "", "", ev);
    SubjectFields(rules, ev);
    HoldOwnFields(rules, ev);
    MatchFields(rules, ev);
    ChosenField(rules, "disposition", Get(ev, "disposition"));
  }

  /** The fields a section-B row adds. */
  function OwnB(v: HoldVariant): seq<string> {
    match v
    case ObserveDelta => ["delta_old_oid", "delta_new_oid"]
    case ObserveDeltaRedelivery | ObserveDeltaNewDeliveryOnOpenHold =>
      ["source_delivery_id", "delta_old_oid", "delta_new_oid"]
    case AutoRelease => ["hold_id", "actor_node_id", "matched_subject_digest", "source_delivery_id"]
    case _ => ["hold_id", "disposition", "actor_node_id"]
  }

  lemma HoldRequired(rules: Rules, ev: Wire, v: HoldVariant)
    ensures All(rules, RequiredB(v), ev) <==>
              && All(rules, ENVELOPE, ev) && All(rules, HOLD_COMMON, ev) && All(rules, OwnB(v), ev)
  {
    assert RequiredB(v) == ENVELOPE + HOLD_COMMON + OwnB(v) by {
      hide ENVELOPE, HOLD_COMMON;
    }
    hide RequiredB, OwnB, All, ENVELOPE, HOLD_COMMON;
    AllOfMany(rules, ENVELOPE, HOLD_COMMON, OwnB(v), ev);
  }

  lemma HoldOwnMeans(rules: Rules, ev: Wire, v: HoldVariant)
    ensures All(rules, OwnB(v), ev) <==>
              if v.ObserveDelta? then HasText(ev, "delta_old_oid") && HasText(ev, "delta_new_oid")
              else if ObservesDelta(v) then
                HasText(ev, "source_delivery_id") && HasText(ev, "delta_old_oid") && HasText(ev, "delta_new_oid")
              else if v.AutoRelease? then
                HasText(ev, "hold_id") && HasText(ev, "actor_node_id") && HasText(ev, "matched_subject_digest")
                  && HasText(ev, "source_delivery_id")
              else
                HasText(ev, "hold_id") && HasText(ev, "actor_node_id")
                  && IsOneOf(Get(ev, "disposition"), DISPOSITIONS)
  {
    hide FieldOk, HasText, All, IsOneOf, DISPOSITIONS;
    HoldOwnFields(rules, ev);
    MatchFields(rules, ev);
    ChosenField(rules, "disposition", Get(ev, "disposition"));
    AllOfFew(rules, "delta_old_oid", "delta_new_oid", "", "", ev);
    AllOfFew(rules, "source_delivery_id", "delta_old_oid", "delta_new_oid", "", ev);
    AllOfFew(rules, "hold_id", "actor_node_id", "matched_subject_digest", "source_delivery_id", ev);
    AllOfFew(rules, "hold_id", "disposition", "actor_node_id", "", ev);
  }

  lemma HoldTriggersTell(v: HoldVariant)
    ensures TriggerB(v) == "observe_delta" <==> ObservesDelta(v)
    ensures TriggerB(v) == "actor_verified_match" <==> v.AutoRelease?
    ensures TriggerB(v) == "operator_reconcile" <==> OperatorRowB(v)
  {
  }

  /** The lists of a section-B row say exactly that. */
  lemma HoldFieldsExact(rules: Rules, ev: Wire, v: HoldVariant)
    ensures MarshalOk(rules, RequiredB(v), HOLD_OPTIONAL, ["authorization_id"], ev) <==> HasHoldFields(rules, ev, v)
  {
    MarshalMeans(rules, RequiredB(v), HOLD_OPTIONAL, ["authorization_id"], ev);
    HoldRequired(rules, ev, v);
    HoldOwnMeans(rules, ev, v);
    HoldOptional(rules, ev);
    EnvelopeMeans(rules, ev);
    HoldCommonMeans(rules, ev);
    AllOfIf(rules, true, "authorization_id", ev);
    assert If(true, "authorization_id") == ["authorization_id"];
    HoldTriggersTell(v);
    hide MarshalOk, RequiredB, OwnB, HOLD_OPTIONAL, ENVELOPE, HOLD_COMMON, All, AllMay, AllNull, HasText, IsOneOf,
         DISPOSITIONS, TriggerB, HasEnvelope, HasStep, HasEpochs;
  }
}
