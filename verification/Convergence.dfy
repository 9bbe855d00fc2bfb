/** Crash recovery over the boundary's own record rules: the convergence theorem. */
module Convergence {
  import opened Wrappers
  import opened Text
  import opened Wire
  import opened Schema
  import opened Events
  import opened Intakes
  import opened HoldInvariants
  import opened Fences
  import opened Ceilings
  import opened Reducer
  import opened Slices
  import opened Runs
  import opened BaseReports
  import opened NonInterference
  import opened Redelivery
  import opened Recovery
  import opened Instance

  /** A copy of a requested record as some recovering process stamped it: the id and the
      row are the request's, the epochs agree, and every issuer field is its own. */
  ghost predicate Stamps(c: Wire, r: Wire) {
    && Get(c, "event_id") == Get(r, "event_id")
    && Restrict(c, RECOVERY_CORE) == Restrict(r, RECOVERY_CORE)
    && Get(c, "epoch_before") == Get(c, "epoch_after")
  }

  // ----- how the intake reads a stamped copy ---------------------------------

  lemma CoreField(c: Wire, r: Wire, f: string)
    requires Restrict(c, RECOVERY_CORE) == Restrict(r, RECOVERY_CORE) && f in RECOVERY_CORE
    ensures Get(c, f) == Get(r, f)
  {
    assert f in Restrict(c, RECOVERY_CORE) <==> f in c;
    assert f in Restrict(r, RECOVERY_CORE) <==> f in r;
    assert f in c ==> Restrict(c, RECOVERY_CORE)[f] == c[f];
    assert f in r ==> Restrict(r, RECOVERY_CORE)[f] == r[f];
  }

  lemma StampedFields(hash: Digest, c: Wire, base: string, mid: Id)
    requires Stamps(c, RecoveryRecord(hash, base, mid))
    ensures Get(c, "event_id") == Str(DeriveRecoveryEventId(hash, base, mid))
    ensures Get(c, "family") == Str("effect_lifecycle")
    ensures Get(c, "variant") == Str("CrashRecoveryFromPrepared")
    ensures Get(c, "trigger_event") == Str("crash_recovery")
    ensures Get(c, "base_key") == Str(base) && Get(c, "movement_id") == Str(mid)
    ensures BaseHint(c) == base
  {
    var r := RecoveryRecord(hash, base, mid);
    CoreField(c, r, "family");
    CoreField(c, r, "variant");
    CoreField(c, r, "trigger_event");
    CoreField(c, r, "base_key");
    CoreField(c, r, "movement_id");
  }

  lemma StampIsDerived(hash: Digest, c: Wire, base: string, mid: Id)
    requires NewlineFree(base) && NewlineFree(mid)
    requires Get(c, "event_id") == Str(DeriveRecoveryEventId(hash, base, mid))
    requires Get(c, "trigger_event") == Str("crash_recovery")
    requires Get(c, "base_key") == Str(base) && Get(c, "movement_id") == Str(mid)
    ensures IsDerivedId(hash, c)
    ensures Canonical(hash, c) == Restrict(c, RECOVERY_CORE)
  {
    var lines := RecoveryLines(base, mid);
    assert DerivedLines(c) == Some(lines);
    assert forall i :: 0 <= i < |lines| ==> NewlineFree(lines[i]);
  }

  lemma IntakeFamily(rules: Rules, c: Wire)
    requires Intake(rules, c).Ok? && Get(c, "family") == Str("effect_lifecycle")
    ensures BuildEffect(rules, c).Ok? && Intake(rules, c) == Ok(Effect(BuildEffect(rules, c).value))
  {
    hide BuildEffect, BuildHold, EffectOk, TaggedFor;
  }

  lemma BuiltVariant(rules: Rules, c: Wire)
    requires BuildEffect(rules, c).Ok? && Get(c, "variant") == Str("CrashRecoveryFromPrepared")
    ensures var e := BuildEffect(rules, c).value;
            && e.variant.CrashRecoveryFromPrepared?
            && TextField(c, "movement_id") == Some(e.movementId)
            && TextField(c, "epoch_before") == Some(e.epochBefore)
            && TextField(c, "epoch_after") == Some(e.epochAfter)
    ensures MarshalOk(rules, RequiredA(CrashRecoveryFromPrepared), OptionalA(CrashRecoveryFromPrepared),
                      ForbiddenA(CrashRecoveryFromPrepared), c)
  {
    hide MarshalOk, EffectOk, RequiredA, OptionalA, ForbiddenA, TriggerA, HoldEffectA, StateNameA;
    assert EffectVariantNamed("CrashRecoveryFromPrepared") == Some(CrashRecoveryFromPrepared);
    hide EffectVariantNamed;
  }

  lemma RequiredId(rules: Rules, v: EffectVariant, c: Wire)
    requires MarshalOk(rules, RequiredA(v), OptionalA(v), ForbiddenA(v), c)
    ensures IdOf(c).Some?
  {
    hide OptionalA, ForbiddenA, FieldOk;
    assert RequiredA(v)[2] == "event_id";
    assert FieldOk(rules, "event_id", Get(c, "event_id"));
    EventIdOk(rules, Get(c, "event_id"));
  }

  lemma EventIdOk(rules: Rules, v: Value)
    requires FieldOk(rules, "event_id", v)
    ensures v.Str? && v.s != ""
  {
  }

  lemma StampIsCopy(mode: CredentialMode, anchors: map<string, Value>, rules: Rules, c: Wire, base: string, mid: Id)
    requires NewlineFree(base) && NewlineFree(mid)
    requires Stamps(c, RecoveryRecord(rules.hash, base, mid)) && Intake(rules, c).Ok?
    ensures CopyFor(Standard(mode, anchors, rules), c, base, mid)
  {
    hide Intake, BuildEffect, MarshalOk, RecoveryRecord, Canonical, BaseHint, Restrict, NewlineFree, EffectOk,
         DeriveRecoveryEventId;
    StampedFields(rules.hash, c, base, mid);
    StampIsDerived(rules.hash, c, base, mid);
    IntakeFamily(rules, c);
    BuiltVariant(rules, c);
    RequiredId(rules, CrashRecoveryFromPrepared, c);
  }

  // ----- a request can always be stamped -------------------------------------

  /** The fields a recovering process fills in itself. */
  const ISSUER_SUPPLIED: set<string> :=
    {"ts", "run_id", "trace_id", "protocol_epoch", "authority", "epoch_before", "epoch_after", "actor_context",
     "credential_mode"}

  predicate PlainText(s: string) {
    s != "" && NewlineFree(s)
  }

  predicate PlainAt(c: Wire, f: string) {
    Get(c, f).Str? && PlainText(Get(c, f).s)
  }

  lemma PlainFieldOk(rules: Rules, field: string, s: string)
    requires PlainText(s) && field !in ENUM_FIELDS && field !in INT_FIELDS && (field == "ts" ==> rules.validTs(s))
    ensures FieldOk(rules, field, Str(s))
  {
  }

  lemma EnvelopeOk(rules: Rules, c: Wire)
    requires Get(c, "schema_major") == Int(1) && Get(c, "schema_minor") == Int(0)
    requires PlainAt(c, "event_id") && PlainAt(c, "ts") && PlainAt(c, "run_id") && PlainAt(c, "trace_id")
    requires PlainAt(c, "protocol_epoch") && PlainAt(c, "family")
    requires Get(c, "ts").Str? ==> rules.validTs(Get(c, "ts").s)
    ensures forall i :: 0 <= i < |ENVELOPE| ==> FieldOk(rules, ENVELOPE[i], Get(c, ENVELOPE[i]))
  {
    var names := ["event_id", "ts", "run_id", "trace_id", "protocol_epoch", "family"];
    assert ENVELOPE[2..] == names;
    hide PlainText, Get;
    forall i | 0 <= i < |ENVELOPE| ensures FieldOk(rules, ENVELOPE[i], Get(c, ENVELOPE[i])) {
      if i >= 2 {
        assert ENVELOPE[i] == names[i - 2] && PlainAt(c, names[i - 2]);
        PlainFieldOk(rules, ENVELOPE[i], Get(c, ENVELOPE[i]).s);
      }
    }
  }

  lemma CommonOk(rules: Rules, c: Wire)
    requires PlainAt(c, "movement_id") && PlainAt(c, "base_key") && PlainAt(c, "trigger_event") && PlainAt(c, "from")
             && PlainAt(c, "to")
    requires PlainAt(c, "authority") && PlainAt(c, "epoch_before") && PlainAt(c, "epoch_after")
             && PlainAt(c, "actor_context")
    requires Get(c, "hold_effect") == Str("CREATED")
    requires Get(c, "credential_mode").Str? && Get(c, "credential_mode").s in {"SHARED", "SEPARATED"}
    ensures forall i :: 0 <= i < |EFFECT_COMMON| ==> FieldOk(rules, EFFECT_COMMON[i], Get(c, EFFECT_COMMON[i]))
  {
    var names := ["movement_id", "base_key", "trigger_event", "from", "to", "authority", "epoch_before", "epoch_after",
                  "actor_context"];
    assert EFFECT_COMMON[..8] == names[..8] && EFFECT_COMMON[9] == names[8];
    assert FieldOk(rules, "hold_effect", Str("CREATED"));
    assert FieldOk(rules, "credential_mode", Get(c, "credential_mode"));
    hide PlainText, Get;
    forall i | 0 <= i < |EFFECT_COMMON| ensures FieldOk(rules, EFFECT_COMMON[i], Get(c, EFFECT_COMMON[i])) {
      if i < 8 {
        assert EFFECT_COMMON[i] == names[i] && PlainAt(c, names[i]);
        PlainFieldOk(rules, EFFECT_COMMON[i], Get(c, EFFECT_COMMON[i]).s);
      } else if i == 9 {
        assert PlainAt(c, names[8]);
        PlainFieldOk(rules, names[8], Get(c, names[8]).s);
      }
    }
  }

  lemma StampedMarshals(rules: Rules, c: Wire)
    requires forall i :: 0 <= i < |ENVELOPE| ==> FieldOk(rules, ENVELOPE[i], Get(c, ENVELOPE[i]))
    requires forall i :: 0 <= i < |EFFECT_COMMON| ==> FieldOk(rules, EFFECT_COMMON[i], Get(c, EFFECT_COMMON[i]))
    requires forall f :: f in ["subject_digest", "attempt_id", "reason", "authorization_id"] ==> Get(c, f) == Null
    ensures var v := CrashRecoveryFromPrepared; MarshalOk(rules, RequiredA(v), OptionalA(v), ForbiddenA(v), c)
  {
    hide FieldOk, Get;
    var v := CrashRecoveryFromPrepared;
    assert RequiredA(v) == ENVELOPE + EFFECT_COMMON;
    assert OptionalA(v) == ["subject_digest", "attempt_id", "reason"] && ForbiddenA(v) == ["authorization_id"];
    forall i | 0 <= i < |RequiredA(v)| ensures FieldOk(rules, RequiredA(v)[i], Get(c, RequiredA(v)[i])) {
      if i < |ENVELOPE| {
        assert RequiredA(v)[i] == ENVELOPE[i];
      } else {
        assert RequiredA(v)[i] == EFFECT_COMMON[i - |ENVELOPE|];
      }
    }
    forall i | 0 <= i < |OptionalA(v)| ensures Get(c, OptionalA(v)[i]) == Null {
      assert OptionalA(v)[i] in ["subject_digest", "attempt_id", "reason", "authorization_id"];
    }
  }

  /** A stamping fills in exactly the issuer's fields, with plain text, a valid timestamp, a
      credential mode and one epoch on both sides. */
  ghost predicate IssuerStamp(rules: Rules, issuer: Wire) {
    && issuer.Keys == ISSUER_SUPPLIED
    && (forall f :: f in issuer ==> issuer[f].Str? && PlainText(issuer[f].s))
    && rules.validTs(issuer["ts"].s)
    && issuer["credential_mode"].s in {"SHARED", "SEPARATED"}
    && issuer["epoch_before"] == issuer["epoch_after"]
  }

  lemma RowNotIssuer()
    ensures forall f :: f in ["event_id", "schema_major", "schema_minor", "family", "variant", "trigger_event"] ==>
            f !in ISSUER_SUPPLIED
    ensures forall f :: f in ["movement_id", "base_key", "from", "to", "hold_effect"] ==> f !in ISSUER_SUPPLIED
  {
  }

  lemma OtherNotIssuer()
    ensures forall f :: f in ["subject_digest", "attempt_id", "reason", "authorization_id"] ==> f !in ISSUER_SUPPLIED
    ensures forall f :: f in ["hold_id", "source_delivery_id", "disposition"] ==> f !in ISSUER_SUPPLIED
  {
  }

  lemma CoreNotIssuer()
    ensures RECOVERY_CORE !! ISSUER_SUPPLIED
  {
    RowNotIssuer();
    OtherNotIssuer();
    var row, other := ["family", "variant", "trigger_event", "movement_id", "base_key", "from", "to", "hold_effect"],
                      ["hold_id", "source_delivery_id", "disposition"];
    assert forall f :: f in RECOVERY_CORE ==> f in row || f in other;
    hide ISSUER_SUPPLIED, RECOVERY_CORE;
  }

  lemma MergedField(r: Wire, issuer: Wire, f: string)
    ensures Get(r + issuer, f) == if f in issuer then issuer[f] else Get(r, f)
  {
  }

  lemma RowValues(hash: Digest, base: string, mid: Id, issuer: Wire)
    requires issuer.Keys == ISSUER_SUPPLIED
    ensures var c := RecoveryRecord(hash, base, mid) + issuer;
            && Get(c, "family") == Str("effect_lifecycle") && Get(c, "variant") == Str("CrashRecoveryFromPrepared")
            && Get(c, "trigger_event") == Str("crash_recovery")
  {
    RowNotIssuer();
    hide ISSUER_SUPPLIED, DeriveRecoveryEventId;
    var r := RecoveryRecord(hash, base, mid);
    forall f | f !in issuer ensures Get(r + issuer, f) == Get(r, f) {
      MergedField(r, issuer, f);
    }
    assert Get(r, "family") == Str("effect_lifecycle") && Get(r, "variant") == Str("CrashRecoveryFromPrepared");
  }

  lemma EnvelopeValues(hash: Digest, base: string, mid: Id, issuer: Wire)
    requires issuer.Keys == ISSUER_SUPPLIED
    ensures var c := RecoveryRecord(hash, base, mid) + issuer;
            && Get(c, "event_id") == Str(DeriveRecoveryEventId(hash, base, mid))
            && Get(c, "schema_major") == Int(1) && Get(c, "schema_minor") == Int(0)
  {
    RowNotIssuer();
    hide ISSUER_SUPPLIED, DeriveRecoveryEventId;
    var r := RecoveryRecord(hash, base, mid);
    forall f | f !in issuer ensures Get(r + issuer, f) == Get(r, f) {
      MergedField(r, issuer, f);
    }
  }

  lemma RowValuesToo(hash: Digest, base: string, mid: Id, issuer: Wire)
    requires issuer.Keys == ISSUER_SUPPLIED
    ensures var c := RecoveryRecord(hash, base, mid) + issuer;
            && Get(c, "movement_id") == Str(mid) && Get(c, "base_key") == Str(base)
            && Get(c, "from") == Str("PREPARED") && Get(c, "to") == Str("HELD")
               && Get(c, "hold_effect") == Str("CREATED")
  {
    RowNotIssuer();
    hide ISSUER_SUPPLIED, DeriveRecoveryEventId;
    var r := RecoveryRecord(hash, base, mid);
    forall f | f !in issuer ensures Get(r + issuer, f) == Get(r, f) {
      MergedField(r, issuer, f);
    }
  }

  lemma AbsentFields(hash: Digest, base: string, mid: Id, issuer: Wire)
    requires issuer.Keys == ISSUER_SUPPLIED
    ensures forall f :: f in ["subject_digest", "attempt_id", "reason", "authorization_id"] ==>
              Get(RecoveryRecord(hash, base, mid) + issuer, f) == Null
  {
    OtherNotIssuer();
    hide ISSUER_SUPPLIED, DeriveRecoveryEventId;
    var r := RecoveryRecord(hash, base, mid);
    forall f | f in ["subject_digest", "attempt_id", "reason", "authorization_id"] ensures Get(r + issuer, f) == Null {
      MergedField(r, issuer, f);
    }
  }

  lemma IssuerValues(rules: Rules, r: Wire, issuer: Wire)
    requires IssuerStamp(rules, issuer)
    ensures var c := r + issuer;
            && PlainAt(c, "ts") && PlainAt(c, "run_id") && PlainAt(c, "trace_id") && PlainAt(c, "protocol_epoch")
            && PlainAt(c, "authority") && PlainAt(c, "epoch_before") && PlainAt(c, "epoch_after")
               && PlainAt(c, "actor_context")
            && (Get(c, "ts").Str? ==> rules.validTs(Get(c, "ts").s))
            && Get(c, "epoch_before") == Get(c, "epoch_after")
            && Get(c, "credential_mode").Str? && Get(c, "credential_mode").s in {"SHARED", "SEPARATED"}
  {
    hide PlainText;
    forall f | f in issuer ensures Get(r + issuer, f) == issuer[f] {
      MergedField(r, issuer, f);
    }
  }

  lemma MergeStamps(r: Wire, issuer: Wire)
    requires issuer.Keys == ISSUER_SUPPLIED && Get(r + issuer, "epoch_before") == Get(r + issuer, "epoch_after")
    requires Get(r + issuer, "event_id") == Get(r, "event_id")
    ensures Stamps(r + issuer, r)
  {
    CoreNotIssuer();
    hide RECOVERY_CORE, ISSUER_SUPPLIED, Get;
    assert Restrict(r + issuer, RECOVERY_CORE) == Restrict(r, RECOVERY_CORE);
  }

  /** The requested record is complete: whatever a recovering process supplies for the
      fields that are its own, the stamped request is a valid record. */
  lemma RequestCanBeStamped(rules: Rules, base: string, mid: Id, issuer: Wire)
    requires PlainText(base) && PlainText(mid) && PlainText(DeriveRecoveryEventId(rules.hash, base, mid))
    requires IssuerStamp(rules, issuer)
    ensures var r := RecoveryRecord(rules.hash, base, mid); Stamps(r + issuer, r) && Intake(rules, r + issuer).Ok?
  {
    var r := RecoveryRecord(rules.hash, base, mid);
    var c := r + issuer;
    EnvelopeValues(rules.hash, base, mid, issuer);
    RowValues(rules.hash, base, mid, issuer);
    RowValuesToo(rules.hash, base, mid, issuer);
    AbsentFields(rules.hash, base, mid, issuer);
    IssuerValues(rules, r, issuer);
    RecordId(rules.hash, base, mid);
    hide RecoveryRecord, Stamps, DeriveRecoveryEventId, ISSUER_SUPPLIED, Get;
    MergeStamps(r, issuer);
    RecoveryRowOk(rules, c);
  }

  lemma RecordId(hash: Digest, base: string, mid: Id)
    ensures Get(RecoveryRecord(hash, base, mid), "event_id") == Str(DeriveRecoveryEventId(hash, base, mid))
  {
  }

  lemma RecoveryRowOk(rules: Rules, c: Wire)
    requires PlainAt(c, "event_id") && PlainAt(c, "movement_id") && PlainAt(c, "base_key")
    requires Get(c, "schema_major") == Int(1) && Get(c, "schema_minor") == Int(0)
    requires Get(c, "family") == Str("effect_lifecycle") && Get(c, "variant") == Str("CrashRecoveryFromPrepared")
    requires Get(c, "trigger_event") == Str("crash_recovery")
    requires Get(c, "from") == Str("PREPARED") && Get(c, "to") == Str("HELD") && Get(c, "hold_effect") == Str("CREATED")
    requires forall f :: f in ["subject_digest", "attempt_id", "reason", "authorization_id"] ==> Get(c, f) == Null
    requires PlainAt(c, "ts") && PlainAt(c, "run_id") && PlainAt(c, "trace_id") && PlainAt(c, "protocol_epoch")
    requires PlainAt(c, "authority") && PlainAt(c, "epoch_before") && PlainAt(c, "epoch_after")
             && PlainAt(c, "actor_context")
    requires Get(c, "ts").Str? ==> rules.validTs(Get(c, "ts").s)
    requires Get(c, "credential_mode").Str? && Get(c, "credential_mode").s in {"SHARED", "SEPARATED"}
    ensures Intake(rules, c).Ok?
  {
    hide Get;
    RowTextIsPlain();
    hide PlainText;
    EnvelopeOk(rules, c);
    CommonOk(rules, c);
    StampedMarshals(rules, c);
    hide *;
    MarshalledRowIsTaken(rules, c);
  }

  lemma MarshalledRowIsTaken(rules: Rules, c: Wire)
    requires var v := CrashRecoveryFromPrepared; MarshalOk(rules, RequiredA(v), OptionalA(v), ForbiddenA(v), c)
    requires Get(c, "schema_major") == Int(1)
    requires Get(c, "family") == Str("effect_lifecycle") && Get(c, "variant") == Str("CrashRecoveryFromPrepared")
    requires Get(c, "trigger_event") == Str("crash_recovery")
    requires Get(c, "from") == Str("PREPARED") && Get(c, "to") == Str("HELD") && Get(c, "hold_effect") == Str("CREATED")
    ensures Intake(rules, c).Ok?
  {
    hide MarshalOk, FieldOk, Get;
    VariantIsNamed(c);
    EffectIsConstructed(rules, c, CrashRecoveryFromPrepared);
    ConstructedIsTaken(rules, c);
  }

  lemma RowTextIsPlain()
    ensures PlainText("effect_lifecycle") && PlainText("crash_recovery") && PlainText("PREPARED") && PlainText("HELD")
  {
  }

  lemma VariantIsNamed(c: Wire)
    requires Get(c, "variant") == Str("CrashRecoveryFromPrepared")
    ensures EffectVariantNamed(VariantNameOf(c)) == Some(CrashRecoveryFromPrepared) && Get(c, "variant") != Null
  {
    hide Get;
  }

  lemma ConstructedIsTaken(rules: Rules, c: Wire)
    requires Get(c, "schema_major") == Int(1) && Get(c, "family") == Str("effect_lifecycle")
             && Get(c, "variant") != Null
    requires EffectVariantNamed(VariantNameOf(c)).Some? && BuildEffect(rules, c).Ok?
    ensures Intake(rules, c).Ok?
  {
    hide BuildEffect, BuildHold, EffectVariantNamed, HoldVariantNamed, EffectOk, Get, VariantNameOf;
    assert "effect_lifecycle" in FAMILIES;
  }

  // ----- requests and targets ------------------------------------------------

  function TargetOf(c: Wire): Target {
    Target(BaseHint(c), ValueText(Get(c, "movement_id")))
  }

  function TargetsOf(copies: seq<Wire>): (targets: seq<Target>)
    ensures |targets| == |copies| && forall i :: 0 <= i < |copies| ==> targets[i] == TargetOf(copies[i])
  {
    if copies == [] then [] else TargetsOf(copies[..|copies| - 1]) + [TargetOf(copies[|copies| - 1])]
  }

  lemma TargetOfStamp(hash: Digest, c: Wire, base: string, mid: Id)
    requires Stamps(c, RecoveryRecord(hash, base, mid))
    ensures TargetOf(c) == Target(base, mid)
  {
    hide RecoveryRecord;
    StampedFields(hash, c, base, mid);
  }

  /** The requests of a report are the recovery records of the movements its state asks for. */
  lemma RequestIs(env: Env, s: State, r: Wire) returns (base: string, mid: Id)
    requires r in Finish(env, s).recovery && SliceInv(env, BaseHint(r), SliceAt(s, BaseHint(r)))
    ensures base == BaseHint(r) && r == RecoveryRecord(env.hash, base, mid) && Requested(SliceAt(s, base), mid)
    ensures NewlineFree(base) && NewlineFree(mid)
  {
    hide RecoveryRecord, BaseHint, BookInv, FenceInv, WellReduced, NewlineFree, SliceAt;
    base := BaseHint(r);
    var sl := SliceAt(s, base);
    RecoveryListed(env, s, base);
    RecordsAtMember(Finish(env, s).recovery, base, r);
    SliceRecoveryMember(env.hash, base, sl, sl.order, r);
    mid :| mid in sl.order && SliceNeedsRecovery(sl, mid) && r == RecoveryRecord(env.hash, base, mid);
    assert mid in sl.Ms();
  }

  lemma RecoveryListed(env: Env, s: State, base: string)
    ensures RecordsAt(Finish(env, s).recovery, base) ==
            SliceRecovery(env.hash, base, SliceAt(s, base), SliceAt(s, base).order)
  {
    hide RecoveryAppends, SliceRecovery, RecordsAt, ReportMovements, ReportEpochs, ReportBook;
    RecoveryAt(env.hash, s, s.aOrder, base);
  }

  /** Some copy stamps the request. */
  ghost predicate Answered(copies: seq<Wire>, r: Wire) {
    exists c :: c in copies && Stamps(c, r)
  }

  /** Every copy is a valid stamped request; which requests are answered is left open. */
  ghost predicate AnswersSome(rules: Rules, copies: seq<Wire>, requests: seq<Wire>) {
    forall c :: c in copies ==> Intake(rules, c).Ok? && exists r :: r in requests && Stamps(c, r)
  }

  lemma CopyAnswers(mode: CredentialMode, anchors: map<string, Value>, rules: Rules, s: State, copies: seq<Wire>,
                    c: Wire)
    requires var env := Standard(mode, anchors, rules);
             (forall b :: SliceInv(env, b, SliceAt(s, b))) && AnswersSome(rules, copies, Finish(env, s).recovery)
               && c in copies
    ensures var env, t := Standard(mode, anchors, rules), TargetOf(c);
            CopyFor(env, c, t.base, t.mid) && NewlineFree(t.base) && NewlineFree(t.mid)
              && Requested(SliceAt(s, t.base), t.mid)
            && Stamps(c, RecoveryRecord(env.hash, t.base, t.mid))
  {
    hide Stamps, Intake, SliceInv, SliceAt, Finish, NewlineFree, Requested, TargetOf, CopyFor, RecoveryRecord;
    var env := Standard(mode, anchors, rules);
    var r :| r in Finish(env, s).recovery && Stamps(c, r);
    var base, mid := RequestIs(env, s, r);
    TargetOfStamp(env.hash, c, base, mid);
    StampIsCopy(mode, anchors, rules, c, base, mid);
  }

  /** What the copies get done is what they answer, and it was asked for. */
  lemma DoneIsAnswered(mode: CredentialMode, anchors: map<string, Value>, rules: Rules, s: State, copies: seq<Wire>,
                       base: string, m: Id)
    requires var env := Standard(mode, anchors, rules);
             (forall b :: SliceInv(env, b, SliceAt(s, b))) && AnswersSome(rules, copies, Finish(env, s).recovery)
    ensures m in DoneAt(TargetsOf(copies), base) <==> Answered(copies, RecoveryRecord(rules.hash, base, m))
    ensures m in DoneAt(TargetsOf(copies), base) ==> Requested(SliceAt(s, base), m)
  {
    hide Stamps, Intake, SliceInv, SliceAt, Finish, NewlineFree, Requested, TargetOf, CopyFor, RecoveryRecord,
         AnswersSome;
    var targets := TargetsOf(copies);
    if m in DoneAt(targets, base) {
      var i :| 0 <= i < |targets| && targets[i].base == base && targets[i].mid == m;
      assert copies[i] in copies;
      CopyAnswers(mode, anchors, rules, s, copies, copies[i]);
    }
    if c :| c in copies && Stamps(c, RecoveryRecord(rules.hash, base, m)) {
      TargetOfStamp(rules.hash, c, base, m);
      var i :| 0 <= i < |copies| && copies[i] == c;
      assert targets[i] == Target(base, m);
    }
  }

  // ----- the admission ceiling -----------------------------------------------

  /** The copies fit under every ceiling the stream itself fits under. */
  ghost predicate FitsCeiling(events: seq<Wire>, copies: seq<Wire>) {
    forall b :: BaseCount(events, b) <= RECOVERY_CEILING_EVENTS ==>
      BaseCount(events + copies, b) <= RECOVERY_CEILING_EVENTS
  }

  lemma {:induction false} CountOnlyGrows(events: seq<Wire>, copies: seq<Wire>, b: string)
    ensures BaseCount(events, b) <= BaseCount(events + copies, b)
  {
    if copies == [] {
      assert events + copies == events;
    } else {
      var front, c := copies[..|copies| - 1], copies[|copies| - 1];
      CountOnlyGrows(events, front, b);
      assert events + copies == (events + front) + [c];
      BaseCountSnoc(events + front, c, b);
    }
  }

  lemma {:induction false} CountedBaseOccurs(events: seq<Wire>, b: string)
    requires BaseCount(events, b) > 0
    ensures b in BasesOf(events)
  {
    hide BaseHint;
    var before, ev := events[..|events| - 1], events[|events| - 1];
    assert events == before + [ev];
    BasesOfSnoc(before, ev, b);
    if BaseHint(ev) != b {
      CountedBaseOccurs(before, b);
    }
  }

  lemma CeilingSeed(events: seq<Wire>, copies: seq<Wire>)
    requires FitsCeiling(events, copies)
    ensures Seed(events + copies) == Seed(events)
  {
    hide BaseCount, BasesOf;
    var x, y := CeilingHalts(events + copies), CeilingHalts(events);
    forall b ensures b in x <==> b in y {
      CountOnlyGrows(events, copies, b);
      if BaseCount(events, b) > RECOVERY_CEILING_EVENTS {
        CountedBaseOccurs(events, b);
        CountedBaseOccurs(events + copies, b);
      }
    }
    assert x == y;
  }

  // ----- the theorem ---------------------------------------------------------

  /** No record of the stream already uses the id of a copy. */
  ghost predicate FreshIds(events: seq<Wire>, copies: seq<Wire>) {
    forall i, j :: 0 <= i < |events| && 0 <= j < |copies| ==> IdOf(events[i]) != IdOf(copies[j])
  }

  /** One base after the copies: its report is kept, and its unanswered requests remain. */
  lemma RecoveredSlice(mode: CredentialMode, anchors: map<string, Value>, rules: Rules, events: seq<Wire>,
                       copies: seq<Wire>, base: string, r: Wire)
    requires Injective(rules.hash)
    requires AnswersSome(rules, copies, Reduce(Standard(mode, anchors, rules), events).recovery)
    requires FreshIds(events, copies) && FitsCeiling(events, copies)
    ensures var env := Standard(mode, anchors, rules);
            var first, second := ReportAt(Reduce(env, events), base), ReportAt(Reduce(env, events + copies), base);
            Settles(first, second) && (r in second.recovery <==> r in first.recovery && !Answered(copies, r))
  {
    hide Run, SliceRun, SliceAt, SliceInv, Finish, AnswersSome, FitsCeiling, Seed, Injective, Local, Settles,
         SliceReport, CopyFor, IdOf, NewlineFree, Requested, ReportAt, SeenRun, RecoveryCore, DeriveRecoveryEventId,
         TargetsOf, DoneAt, Recovered;
    var env := Standard(mode, anchors, rules);
    StandardIsLocal(mode, anchors, rules);
    var s := Run(env, Seed(events), events);
    forall b ensures SliceInv(env, b, SliceAt(s, b)) {
      ReachableInv(env, events, events, b);
    }
    CeilingSeed(events, copies);
    RunConcat(env, Seed(events), events, copies);
    var targets := TargetsOf(copies);
    forall i | 0 <= i < |copies|
      ensures CopyFor(env, copies[i], targets[i].base, targets[i].mid)
      ensures NewlineFree(targets[i].base) && NewlineFree(targets[i].mid)
      ensures Requested(SliceAt(s, targets[i].base), targets[i].mid)
      ensures IdFor(env, targets[i]) !in s.seen
    {
      assert copies[i] in copies;
      CopyAnswers(mode, anchors, rules, s, copies, copies[i]);
      CopyIsFresh(env, events, copies, i, targets[i]);
    }
    CopiesRecover(env, s, copies, targets, base);
    RunSlice(env, s, copies, base);
    ReportOfSlice(env, s, base);
    ReportOfSlice(env, Run(env, s, copies), base);
    Remaining(mode, anchors, rules, s, copies, base, r);
  }

  lemma Remaining(mode: CredentialMode, anchors: map<string, Value>, rules: Rules, s: State, copies: seq<Wire>,
                  base: string, r: Wire)
    requires var env := Standard(mode, anchors, rules);
             (forall b :: SliceInv(env, b, SliceAt(s, b))) && AnswersSome(rules, copies, Finish(env, s).recovery)
    ensures var env, sl := Standard(mode, anchors, rules), SliceAt(s, base);
            var first, second := SliceReport(env, base, sl),
                                 SliceReport(env, base, Recovered(sl, DoneAt(TargetsOf(copies), base)));
            Settles(first, second) && (r in second.recovery <==> r in first.recovery && !Answered(copies, r))
  {
    hide Stamps, SliceInv, SliceAt, Finish, Requested, AnswersSome, Answered, DoneAt, TargetsOf, Settles,
         RecoveryRecord, SliceNeedsRecovery, SliceRecovery, SliceReportMovements, SliceEpoch, ReportBook;
    var env, sl, done := Standard(mode, anchors, rules), SliceAt(s, base), DoneAt(TargetsOf(copies), base);
    forall m
      ensures m in done <==> Answered(copies, RecoveryRecord(rules.hash, base, m))
      ensures m in done ==> Requested(sl, m)
    {
      DoneIsAnswered(mode, anchors, rules, s, copies, base, m);
    }
    RecoveredReport(env, base, sl, done, r);
    SliceRecoveryMember(env.hash, base, sl, sl.order, r);
  }

  lemma CopyIsFresh(env: Env, events: seq<Wire>, copies: seq<Wire>, i: nat, t: Target)
    requires FreshIds(events, copies) && i < |copies| && CopyFor(env, copies[i], t.base, t.mid)
    ensures IdFor(env, t) !in Run(env, Seed(events), events).seen
  {
    hide Run, SliceRun, SliceAt, Seed, SeenRun, DeriveRecoveryEventId, RecoveryCore, BaseHint;
    assert IdOf(copies[i]) == Some(IdFor(env, t));
    hide IdOf, CopyFor;
    SeedUnseen(events);
    RunSlice(env, Seed(events), events, "");
    UnregisteredUntil(env, events, IdFor(env, t));
  }

  /** Recovery is safe to interrupt. Append, in any order and any number, independently
      stamped valid copies of some of the records the first reduce asked for, with agreeing
      epochs, unused ids and room under the ceiling: the second reduce reports the movement
      states the first one already reported, and the same halts, holds, notes and fences, and
      what it still asks for is exactly what no copy answered. */
  lemma PartialRecovery(mode: CredentialMode, anchors: map<string, Value>, rules: Rules, events: seq<Wire>,
                        copies: seq<Wire>)
    requires Injective(rules.hash)
    requires AnswersSome(rules, copies, Reduce(Standard(mode, anchors, rules), events).recovery)
    requires FreshIds(events, copies) && FitsCeiling(events, copies)
    ensures var env := Standard(mode, anchors, rules);
            var first, second := Reduce(env, events), Reduce(env, events + copies);
            && (forall r :: r in second.recovery <==> r in first.recovery && !Answered(copies, r))
            && second.halts == first.halts && second.holds == first.holds
            && second.notes == first.notes && second.epochs == first.epochs
            && second.movements.Keys == first.movements.Keys
            && forall b :: b in first.movements ==>
                 && second.movements[b].Keys == first.movements[b].Keys
                 && forall m :: m in first.movements[b] ==>
                    second.movements[b][m].machine == first.movements[b][m].machine
  {
    hide Reduce, AnswersSome, Answered, FreshIds, FitsCeiling, Injective, RecordsAt, Settles, BaseHint;
    var env := Standard(mode, anchors, rules);
    var first, second := Reduce(env, events), Reduce(env, events + copies);
    forall b ensures Settles(ReportAt(first, b), ReportAt(second, b)) {
      RecoveredSlice(mode, anchors, rules, events, copies, b, map[]);
    }
    forall r ensures r in second.recovery <==> r in first.recovery && !Answered(copies, r) {
      RecoveredSlice(mode, anchors, rules, events, copies, BaseHint(r), r);
      RecordsAtMember(first.recovery, BaseHint(r), r);
      RecordsAtMember(second.recovery, BaseHint(r), r);
    }
    SameReports(first, second);
  }

  /** And it converges: once every request is answered, nothing more is asked for. */
  lemma RecoveryConverges(mode: CredentialMode, anchors: map<string, Value>, rules: Rules, events: seq<Wire>,
                          copies: seq<Wire>)
    requires Injective(rules.hash)
    requires var requests := Reduce(Standard(mode, anchors, rules), events).recovery;
             AnswersSome(rules, copies, requests) && forall r :: r in requests ==> Answered(copies, r)
    requires FreshIds(events, copies) && FitsCeiling(events, copies)
    ensures var env := Standard(mode, anchors, rules);
            var first, second := Reduce(env, events), Reduce(env, events + copies);
            && second.recovery == []
            && second.halts == first.halts && second.holds == first.holds
            && second.notes == first.notes && second.epochs == first.epochs
            && second.movements.Keys == first.movements.Keys
            && forall b :: b in first.movements ==>
                 && second.movements[b].Keys == first.movements[b].Keys
                 && forall m :: m in first.movements[b] ==>
                    second.movements[b][m].machine == first.movements[b][m].machine
  {
    hide Reduce, AnswersSome, Answered, FreshIds, FitsCeiling, Injective;
    PartialRecovery(mode, anchors, rules, events, copies);
    var second := Reduce(Standard(mode, anchors, rules), events + copies);
    SomeMember(second.recovery);
  }

  lemma SomeMember(records: seq<Wire>)
    ensures records == [] || exists r :: r in records
  {
    if records != [] {
      assert records[0] in records;
    }
  }

  lemma SameLookups<V>(x: map<string, V>, y: map<string, V>)
    requires forall b :: Lookup(x, b) == Lookup(y, b)
    ensures x == y
  {
    forall b ensures b in x <==> b in y {
      assert Lookup(x, b) == Lookup(y, b);
    }
    forall b | b in x ensures x[b] == y[b] {
      assert Lookup(x, b) == Lookup(y, b);
    }
  }

  lemma SameReports(first: Report, second: Report)
    requires forall b :: Settles(ReportAt(first, b), ReportAt(second, b))
    ensures second.halts == first.halts && second.holds == first.holds
    ensures second.notes == first.notes && second.epochs == first.epochs
    ensures second.movements.Keys == first.movements.Keys
    ensures forall b :: b in first.movements ==>
              && second.movements[b].Keys == first.movements[b].Keys
              && forall m :: m in first.movements[b] ==> second.movements[b][m].machine == first.movements[b][m].machine
  {
    hide RecordsAt;
    forall b
      ensures Lookup(first.halts, b) == Lookup(second.halts, b) && Lookup(first.holds, b) == Lookup(second.holds, b)
      ensures Lookup(first.notes, b) == Lookup(second.notes, b) && Lookup(first.epochs, b) == Lookup(second.epochs, b)
    {
      assert Settles(ReportAt(first, b), ReportAt(second, b));
    }
    SameLookups(first.halts, second.halts);
    SameLookups(first.holds, second.holds);
    SameLookups(first.notes, second.notes);
    SameLookups(first.epochs, second.epochs);
    forall b ensures b in first.movements <==> b in second.movements {
      assert Settles(ReportAt(first, b), ReportAt(second, b));
    }
    forall b | b in first.movements
      ensures second.movements[b].Keys == first.movements[b].Keys
      ensures forall m :: m in first.movements[b] ==> second.movements[b][m].machine == first.movements[b][m].machine
    {
      assert Settles(ReportAt(first, b), ReportAt(second, b));
    }
  }
}
