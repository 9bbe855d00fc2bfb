/** When two records with one event id are copies of each other: field by field, and what the
    walk makes of a second one. */
module Copies {
  import opened Wrappers
  import opened Text
  import opened Wire
  import opened Instance
  import opened Reducer
  import opened Slices
  import opened NonInterference
  import opened Redelivery

  /** The field is absent from both records, or has one value in both. */
  predicate AgreeOn(x: Wire, y: Wire, field: string) {
    (field in x <==> field in y) && (field in x ==> x[field] == y[field])
  }

  predicate AgreeOnAll(x: Wire, y: Wire, fields: set<string>) {
    forall f :: f in fields ==> AgreeOn(x, y, f)
  }

  /** What the issuers of one derived recovery id must agree on. */
  const RECOVERY_FIELDS: set<string> :=
    {"family", "variant", "trigger_event", "from", "to", "base_key", "movement_id", "hold_id", "source_delivery_id",
     "disposition", "hold_effect"}

  /** What the issuers of one derived release id must agree on: the fence, the evidence and the
      operator's identity included. */
  const RELEASE_FIELDS: set<string> :=
    {"family", "variant", "trigger_event", "from", "to", "base_key", "movement_id", "hold_id", "source_delivery_id",
     "disposition", "epoch_before", "epoch_after", "ref", "mode", "matched_subject_digest", "matched_movement_id",
     "actor_node_id", "actor_verification"}

  // ----- which ids are derived -----------------------------------------------

  predicate Printed(ev: Wire, field: string) {
    Get(ev, field) != Null && NewlineFree(ValueText(Get(ev, field)))
  }

  /** A recovery's id is derived from its base and movement. */
  predicate DerivedRecovery(hash: Digest, ev: Wire) {
    && Get(ev, "trigger_event") == Str("crash_recovery") && Printed(ev, "base_key") && Printed(ev, "movement_id")
    && Get(ev, "event_id") == Str(hash("recovery=crash_recovery\nbase=" + ValueText(Get(ev, "base_key"))
                                       + "\nmovement=" + ValueText(Get(ev, "movement_id"))))
  }

  /** An automatic release's id is derived from its base, hold and delivery. */
  predicate DerivedRelease(hash: Digest, ev: Wire) {
    && Get(ev, "trigger_event") == Str("actor_verified_match")
    && Printed(ev, "base_key") && Printed(ev, "hold_id") && Printed(ev, "source_delivery_id")
    && Get(ev, "event_id") == Str(hash("release=actor_verified_match\nbase=" + ValueText(Get(ev, "base_key"))
                                       + "\nhold=" + ValueText(Get(ev, "hold_id"))
                                       + "\ndelivery=" + ValueText(Get(ev, "source_delivery_id"))))
  }

  /** Exactly the recoveries and the automatic releases have derived ids, each by its own
      preimage; a trigger of another kind never has. */
  lemma DerivedIdExact(hash: Digest, ev: Wire)
    ensures IsDerivedId(hash, ev) <==> DerivedRecovery(hash, ev) || DerivedRelease(hash, ev)
  {
    var base, mid := ValueText(Get(ev, "base_key")), ValueText(Get(ev, "movement_id"));
    var hold, delivery := ValueText(Get(ev, "hold_id")), ValueText(Get(ev, "source_delivery_id"));
    RecoveryText(base, mid);
    ReleaseText(base, hold, delivery);
    hide ValueText, RecoveryLines, ReleaseLines, NewlineFree, Join;
  }

  lemma RecoveryText(base: string, mid: string)
    ensures var lines := RecoveryLines(base, mid);
            && lines != [] && Join(lines) == "recovery=crash_recovery\nbase=" + base + "\nmovement=" + mid
            && ((forall i :: 0 <= i < |lines| ==> NewlineFree(lines[i])) <==> NewlineFree(base) && NewlineFree(mid))
  {
    var lines := RecoveryLines(base, mid);
    assert lines[1..] == [lines[1], lines[2]] && [lines[1], lines[2]][1..] == [lines[2]];
    assert Join(lines[1..]) == lines[1] + "\n" + lines[2];
    assert "recovery=crash_recovery" + "\n" + (("base=" + base) + "\n" + ("movement=" + mid)) ==
           "recovery=crash_recovery\nbase=" + base + "\nmovement=" + mid;
    Tagged("base=", base);
    Tagged("movement=", mid);
    if NewlineFree(base) && NewlineFree(mid) {
      assert NewlineFree(lines[0]);
    } else {
      assert !NewlineFree(lines[1]) || !NewlineFree(lines[2]);
    }
  }

  lemma ReleaseText(base: string, hold: string, delivery: string)
    ensures var lines := ReleaseLines(base, hold, delivery);
            && lines != []
            && Join(lines) == "release=actor_verified_match\nbase=" + base + "\nhold=" + hold + "\ndelivery=" + delivery
            && ((forall i :: 0 <= i < |lines| ==> NewlineFree(lines[i])) <==>
                NewlineFree(base) && NewlineFree(hold) && NewlineFree(delivery))
  {
    var lines := ReleaseLines(base, hold, delivery);
    JoinFour(lines[0], lines[1], lines[2], lines[3]);
    assert "release=actor_verified_match" + "\n" + (("base=" + base) + "\n" + (("hold=" + hold) + "\n"
             + ("delivery=" + delivery))) ==
           "release=actor_verified_match\nbase=" + base + "\nhold=" + hold + "\ndelivery=" + delivery;
    Tagged("base=", base);
    Tagged("hold=", hold);
    Tagged("delivery=", delivery);
    if NewlineFree(base) && NewlineFree(hold) && NewlineFree(delivery) {
      assert NewlineFree(lines[0]);
    } else {
      assert !NewlineFree(lines[1]) || !NewlineFree(lines[2]) || !NewlineFree(lines[3]);
    }
  }

  lemma Tagged(tag: string, text: string)
    requires NewlineFree(tag)
    ensures NewlineFree(tag + text) <==> NewlineFree(text)
  {
    if '\n' in text {
      var i :| 0 <= i < |text| && text[i] == '\n';
      assert (tag + text)[|tag| + i] == '\n';
    }
  }

  // ----- copies, field by field ----------------------------------------------

  /** Two records of one id are copies: recoveries and releases with a derived id when they
      agree on the fields of their kind, all others when they agree on every field but the
      carrier branch. */
  ghost predicate SameRecord(hash: Digest, x: Wire, y: Wire) {
    if DerivedRecovery(hash, x) then DerivedRecovery(hash, y) && AgreeOnAll(x, y, RECOVERY_FIELDS)
    else if DerivedRelease(hash, x) then DerivedRelease(hash, y) && AgreeOnAll(x, y, RELEASE_FIELDS)
    else
      && !DerivedRecovery(hash, y) && !DerivedRelease(hash, y)
      && forall field :: field != "branch" ==> AgreeOn(x, y, field)
  }

  lemma RestrictedAgree(x: Wire, y: Wire, fields: set<string>)
    ensures Restrict(x, fields) == Restrict(y, fields) <==> AgreeOnAll(x, y, fields)
  {
    var a, b := Restrict(x, fields), Restrict(y, fields);
    if a == b {
      forall f | f in fields ensures AgreeOn(x, y, f) {
        assert f in a <==> f in x;
        assert f in b <==> f in y;
        assert f in x ==> a[f] == x[f] && b[f] == y[f];
      }
    }
    if AgreeOnAll(x, y, fields) {
      forall f ensures f in a <==> f in b {
        assert f in fields ==> AgreeOn(x, y, f);
      }
    }
  }

  lemma CoresAre()
    ensures RECOVERY_CORE == RECOVERY_FIELDS && RELEASE_CORE == RELEASE_FIELDS
    ensures "trigger_event" in RECOVERY_FIELDS && "trigger_event" in RELEASE_FIELDS
  {
  }

  lemma IdIsNoCoreField()
    ensures "event_id" !in RECOVERY_FIELDS && "event_id" !in RELEASE_FIELDS
  {
    forall f | f in RECOVERY_FIELDS ensures |f| != 8 || f[0] != 'e' {
    }
    forall f | f in RELEASE_FIELDS ensures |f| != 8 || f[0] != 'e' {
    }
  }

  lemma WithoutBranchAgree(x: Wire, y: Wire)
    ensures x - {"branch"} == y - {"branch"} <==> forall field :: field != "branch" ==> AgreeOn(x, y, field)
  {
    var a, b := x - {"branch"}, y - {"branch"};
    if a == b {
      forall f | f != "branch" ensures AgreeOn(x, y, f) {
        assert f in a <==> f in x;
        assert f in b <==> f in y;
        assert f in x ==> a[f] == x[f] && b[f] == y[f];
      }
    }
    if forall field :: field != "branch" ==> AgreeOn(x, y, field) {
      forall f ensures (f in a <==> f in b) && (f in a && f in b ==> a[f] == b[f]) {
        assert f != "branch" ==> AgreeOn(x, y, f);
      }
    }
  }

  /** The canonical forms of two records that carry an id are equal exactly when the records
      are copies. */
  lemma CanonicalExact(hash: Digest, x: Wire, y: Wire)
    requires "event_id" in x && "event_id" in y
    ensures Canonical(hash, x) == Canonical(hash, y) <==> SameRecord(hash, x, y)
  {
    DerivedIdExact(hash, x);
    DerivedIdExact(hash, y);
    CoresAre();
    RestrictedAgree(x, y, RECOVERY_CORE);
    RestrictedAgree(x, y, RELEASE_CORE);
    WithoutBranchAgree(x, y);
    CanonicalCases(hash, x);
    CanonicalCases(hash, y);
    if Canonical(hash, x) == Canonical(hash, y) {
      OneTrigger(hash, x, y);
    }
    hide Canonical, IsDerivedId, Restrict, RECOVERY_CORE, RELEASE_CORE, RECOVERY_FIELDS, RELEASE_FIELDS,
         DerivedRecovery, DerivedRelease, AgreeOnAll, AgreeOn;
  }

  lemma CanonicalCases(hash: Digest, x: Wire)
    requires "event_id" in x
    ensures Canonical(hash, x) == if DerivedRecovery(hash, x) then Restrict(x, RECOVERY_FIELDS)
                                  else if DerivedRelease(hash, x) then Restrict(x, RELEASE_FIELDS)
                                  else x - {"branch"}
    ensures "event_id" in Canonical(hash, x) <==> !DerivedRecovery(hash, x) && !DerivedRelease(hash, x)
  {
    DerivedIdExact(hash, x);
    CoresAre();
    IdIsNoCoreField();
    hide IsDerivedId, RECOVERY_CORE, RELEASE_CORE, RECOVERY_FIELDS, RELEASE_FIELDS, Printed;
  }

  lemma OneTrigger(hash: Digest, x: Wire, y: Wire)
    requires "event_id" in x && "event_id" in y && Canonical(hash, x) == Canonical(hash, y)
    ensures DerivedRecovery(hash, x) <==> DerivedRecovery(hash, y)
    ensures DerivedRelease(hash, x) <==> DerivedRelease(hash, y)
  {
    CanonicalCases(hash, x);
    CanonicalCases(hash, y);
    if "event_id" !in Canonical(hash, x) {
      CoresAre();
      var c := Canonical(hash, x);
      hide Canonical, IsDerivedId, RECOVERY_FIELDS, RELEASE_FIELDS, Printed;
      assert "trigger_event" in x && "trigger_event" in y;
      assert c["trigger_event"] == x["trigger_event"] && c["trigger_event"] == y["trigger_event"];
    }
  }

  // ----- what the walk makes of a second record ------------------------------

  lemma HasId(x: Wire)
    requires IdOf(x).Some?
    ensures "event_id" in x
  {
  }

  /** A second record with a registered id is a duplicate exactly when it is a copy of the
      registering one; otherwise it diverges, and so do both bases. */
  lemma SecondRecordExact(mode: CredentialMode, anchors: map<string, Value>, rules: Rules, p: seq<Wire>, i: nat,
                          c: Wire)
    requires Registers(Standard(mode, anchors, rules), p, i) && IdOf(c) == IdOf(p[i])
    ensures var env := Standard(mode, anchors, rules);
            Check(env, SeenRun(env, map[], p), c) ==
            if SameRecord(rules.hash, c, p[i]) then Duplicate
            else Divergent(EventPayloadDivergent, {BaseHint(c), BaseHint(p[i])})
  {
    var env := Standard(mode, anchors, rules);
    RegistersHasId(env, p, i);
    hide Registers, Check, SeenRun, SameRecord, IdOf, BaseHint, Canonical;
    VerdictOnCopy(env, p, i, c);
    HasId(c);
    HasId(p[i]);
    CanonicalExact(rules.hash, c, p[i]);
  }

  /** Over the whole reduce: a valid second record changes nothing when it is a copy, and
      halts both bases when it differs in any field its kind must agree on. */
  lemma SecondRecordReduced(mode: CredentialMode, anchors: map<string, Value>, rules: Rules, p: seq<Wire>, i: nat,
                            c: Wire, q: seq<Wire>)
    requires var env := Standard(mode, anchors, rules);
             Registers(env, p, i) && IdOf(c) == IdOf(p[i]) && env.intake(c).Ok?
    ensures var env := Standard(mode, anchors, rules);
            if SameRecord(rules.hash, c, p[i]) then Reduce(env, (p + [c]) + q) == Reduce(env, p + q)
            else
              var halts := Reduce(env, (p + [c]) + q).halts;
              BaseHint(c) in halts && BaseHint(p[i]) in halts
  {
    var env := Standard(mode, anchors, rules);
    RegistersHasId(env, p, i);
    StandardIsLocal(mode, anchors, rules);
    hide Registers, Reduce, Local, SameRecord, IdOf, BaseHint, Canonical, IsDerivedId;
    HasId(c);
    HasId(p[i]);
    CanonicalExact(rules.hash, c, p[i]);
    if SameRecord(rules.hash, c, p[i]) {
      RedeliveryIsTransparent(env, p, i, c, q);
    } else {
      DivergentCopyHalts(env, p, i, c, q);
    }
  }
}
