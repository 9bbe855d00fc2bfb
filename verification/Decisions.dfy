/** Exactly when the foreign-hold machine accepts a record, and the whole book it then leaves,
    said of the book's and the record's own fields. */
module Decisions {
  import opened Wrappers
  import opened Text
  import opened Wire
  import opened Schema
  import opened Events
  import opened SectionB
  import opened HoldInvariants
  import opened Tags

  /** The record was refused as an illegal transition. */
  predicate Refused(r: Result<Book, Code>) {
    r == Err(IllegalTransition)
  }

  /** A delivery the record carries is now listed under hold `h`, unless it was known. */
  ghost predicate DeliveryListed(b: Book, after: Book, h: Id, delivery: Option<Id>) {
    if delivery.Some? && delivery.value !in b.deliveryIndex then
      && after.deliveryIndex == b.deliveryIndex[delivery.value := h]
      && after.deliveries == b.deliveries[h := (if h in b.deliveries then b.deliveries[h] else []) + [delivery.value]]
    else
      after.deliveryIndex == b.deliveryIndex && after.deliveries == b.deliveries
  }

  /** Hold `h` has a new state; no hold, delta or note came or went. */
  ghost predicate OnlyMoved(b: Book, after: Book, h: Id, state: MachineB) {
    && after.holds == b.holds[h := state]
    && after.holdDelta == b.holdDelta && after.order == b.order && after.notes == b.notes
  }

  /** The hold's delta is closed and its release counted. */
  ghost predicate DeltaClosed(b: Book, after: Book, d: Delta) {
    && after.openByDelta == b.openByDelta - {d}
    && after.terminalCount == b.terminalCount[d := (if d in b.terminalCount then b.terminalCount[d] else 0) + 1]
  }

  ghost predicate DeltasKept(b: Book, after: Book) {
    after.openByDelta == b.openByDelta && after.terminalCount == b.terminalCount
  }

  /** The book after an accepted decision on hold `h` that puts it in `state`. */
  ghost predicate Decided(b: Book, r: Result<Book, Code>, e: HoldEvent, h: Id, state: MachineB)
    requires h in b.holds && h in b.holdDelta
  {
    && r.Ok?
    && OnlyMoved(b, r.value, h, state)
    && DeliveryListed(b, r.value, h, e.delivery)
    && (if state.name.Released? && !b.holds[h].name.Released? then DeltaClosed(b, r.value, b.holdDelta[h])
        else DeltasKept(b, r.value))
    && r.value.rejectRestored == b.rejectRestored + if e.variant.HoldReconcileRejectRestoreHold? then {h} else {}
  }

  lemma DecisionIs(hash: Digest, mode: CredentialMode, b: Book, base: string, e: HoldEvent, known: set<Id>, h: Id)
    requires !ObservesDelta(e.variant) && e.holdId == Some(h) && h in b.holds
    ensures var a := Admission(h, b.holds[h], None);
            StepB(hash, mode, b, base, e, known) ==
            if e.mode != mode || !EpochOkB(e) || CheckPreconditions(a, e).Refuse? then Err(IllegalTransition)
            else if CheckPreconditions(a, e).IdentityReplay? then Ok(b)
            else if e.variant.AutoRelease? && !ReleaseGatesPass(hash, mode, b, base, h, e, known)
              then Err(IllegalTransition)
            else if NextState(a, e).None? then Err(IllegalTransition)
            else Ok(RecordOutcome(if e.variant.HoldReconcileRejectRestoreHold?
                                  then b.(rejectRestored := b.rejectRestored + {h}) else b,
                                  h, e, b.holds[h], NextState(a, e).value))
  {
    hide HoldOk, EpochOkB, CheckPreconditions, ReleaseGatesPass, NextState, RecordOutcome;
    assert Admit(hash, b, base, e) == Some(Admission(h, b.holds[h], None));
  }

  lemma OutcomeIs(b: Book, marked: Book, h: Id, e: HoldEvent, next: MachineB)
    requires h in b.holds && h in b.holdDelta
    requires marked == if e.variant.HoldReconcileRejectRestoreHold?
                       then b.(rejectRestored := b.rejectRestored + {h}) else b
    ensures Decided(b, Ok(RecordOutcome(marked, h, e, b.holds[h], next)), e, h, next)
  {
    hide HoldOk, Delivered, Closed, DeliveryListed, DeltaClosed;
    var listed := Delivered(marked, h, e.delivery);
    DeliveredIs(b, marked, h, e.delivery);
    var closed := if !b.holds[h].name.Released? && next.name.Released? then Closed(listed, h) else listed;
    ClosedIs(listed, h);
    SameDeliveries(b, listed, closed, h, e.delivery);
    SameDelta(b, listed, Closed(listed, h), b.holdDelta[h]);
  }

  lemma DeliveredIs(b: Book, marked: Book, h: Id, delivery: Option<Id>)
    requires marked == b.(rejectRestored := marked.rejectRestored)
    ensures var after := Delivered(marked, h, delivery);
            && DeliveryListed(b, after, h, delivery)
            && after == marked.(deliveryIndex := after.deliveryIndex, deliveries := after.deliveries)
  {
  }

  lemma ClosedIs(b: Book, h: Id)
    requires h in b.holdDelta
    ensures var after := Closed(b, h);
            && DeltaClosed(b, after, b.holdDelta[h])
            && after == b.(openByDelta := after.openByDelta, terminalCount := after.terminalCount)
  {
  }

  lemma SameDeliveries(b: Book, listed: Book, closed: Book, h: Id, delivery: Option<Id>)
    requires DeliveryListed(b, listed, h, delivery)
    requires closed.deliveryIndex == listed.deliveryIndex && closed.deliveries == listed.deliveries
    ensures forall holds :: DeliveryListed(b, closed.(holds := holds), h, delivery)
  {
  }

  lemma SameDelta(b: Book, listed: Book, closed: Book, d: Delta)
    requires DeltaClosed(listed, closed, d)
    requires listed.openByDelta == b.openByDelta && listed.terminalCount == b.terminalCount
    ensures forall holds :: DeltaClosed(b, closed.(holds := holds), d)
  {
  }

  // ----- operator decisions --------------------------------------------------

  /** An operator's acceptance of an open hold is taken exactly in the run's mode and from the
      hold's own state, and releases it with the disposition given, whatever the epochs. On a
      released hold it is taken exactly with the disposition of the release, and changes
      nothing. */
  lemma AcceptExact(hash: Digest, mode: CredentialMode, b: Book, base: string, e: HoldEvent, known: set<Id>, h: Id)
    requires KeysAgree(b.holds, b.holdDelta)
    requires e.variant.HoldReconcileAccept? && e.holdId == Some(h) && h in b.holds
    ensures var r := StepB(hash, mode, b, base, e, known);
            if b.holds[h].name.Released? then
              if e.mode == mode && b.holds[h].disposition == e.disposition then r == Ok(b) else Refused(r)
            else
              if e.mode == mode && e.from == b.holds[h].name then Decided(b, r, e, h, MachineB(Released, e.disposition))
              else Refused(r)
  {
    DecisionIs(hash, mode, b, base, e, known, h);
    var a := Admission(h, b.holds[h], None);
    assert EpochOkB(e);
    if e.mode == mode && !b.holds[h].name.Released? && e.from == b.holds[h].name {
      assert NextState(a, e) == Some(MachineB(Released, e.disposition));
      OutcomeIs(b, b, h, e, MachineB(Released, e.disposition));
    }
    hide StepB, RecordOutcome, Decided, HoldOk, Clean;
  }

  /** A refusal to release is taken exactly in the run's mode, with no epoch change and from
      the hold's own open state; the hold is held again and marked. A standing decision
      likewise leaves it standing. Neither is ever taken on a released hold. */
  lemma RejectExact(hash: Digest, mode: CredentialMode, b: Book, base: string, e: HoldEvent, known: set<Id>, h: Id)
    requires KeysAgree(b.holds, b.holdDelta)
    requires e.variant.HoldReconcileRejectRestoreHold? || e.variant.HoldReconcileStanding?
    requires e.holdId == Some(h) && h in b.holds
    ensures var r := StepB(hash, mode, b, base, e, known);
            var state := MachineB(if e.variant.HoldReconcileStanding? then StandingHold else HeldForeign, None);
            if e.mode == mode && e.epochBefore == e.epochAfter && e.from == b.holds[h].name
              then Decided(b, r, e, h, state)
            else Refused(r)
    ensures b.holds[h].name.Released? ==> Refused(StepB(hash, mode, b, base, e, known))
  {
    DecisionIs(hash, mode, b, base, e, known, h);
    var a := Admission(h, b.holds[h], None);
    var state := MachineB(if e.variant.HoldReconcileStanding? then StandingHold else HeldForeign, None);
    assert EpochOkB(e) <==> e.epochBefore == e.epochAfter;
    assert e.from in FromB(e.variant);
    if e.from == b.holds[h].name {
      assert CheckPreconditions(a, e).Proceed? && NextState(a, e) == Some(state);
    }
    OutcomeIs(b, if e.variant.HoldReconcileRejectRestoreHold? then b.(rejectRestored := b.rejectRestored + {h}) else b,
              h, e, state);
    hide StepB, RecordOutcome, Decided, HoldOk, Clean, NextState;
  }

  /** The identity row is taken exactly on a hold released with the same disposition, in the
      run's mode and with no epoch change; the hold stays as it is. */
  lemma IdentityExact(hash: Digest, mode: CredentialMode, b: Book, base: string, e: HoldEvent, known: set<Id>, h: Id)
    requires KeysAgree(b.holds, b.holdDelta)
    requires e.variant.HoldReconcileReplayIdentity? && e.holdId == Some(h) && h in b.holds
    ensures var r := StepB(hash, mode, b, base, e, known);
            if e.mode == mode && e.epochBefore == e.epochAfter && b.holds[h].name.Released?
               && b.holds[h].disposition == e.disposition
            then Decided(b, r, e, h, b.holds[h]) else Refused(r)
  {
    DecisionIs(hash, mode, b, base, e, known, h);
    var a := Admission(h, b.holds[h], None);
    assert EpochOkB(e) <==> e.epochBefore == e.epochAfter;
    assert e.from == Released;
    OutcomeIs(b, b, h, e, b.holds[h]);
    assert CheckPreconditions(a, e).Proceed? <==> b.holds[h].name.Released?;
    assert b.holds[h].name.Released? ==>
             NextState(a, e) == if b.holds[h].disposition == e.disposition then Some(b.holds[h]) else None;
    hide StepB, RecordOutcome, Decided, HoldOk, Clean, NextState;
  }

  // ----- the automatic release -----------------------------------------------

  /** The evidence an automatic release of hold `h` must carry. */
  ghost predicate Evidence(hash: Digest, b: Book, base: string, e: HoldEvent, known: set<Id>, h: Id)
    requires h in b.holdDelta
  {
    var d := b.holdDelta[h];
    && e.delivery.Some? && h in b.deliveries && e.delivery.value in b.deliveries[h]
    && e.digest == Some(DeriveMatchedDeltaDigest(hash, base, d.ref, d.old_, d.new_))
    && e.movement.Some? && e.movement.value in known
    && e.epochAfter == d.new_
  }

  /** An automatic release is taken on an open hold exactly when the hold is held, was never
      refused, the run is separated, and the evidence is this hold's own; what other holds of
      the base went through does not matter. On a released hold it is taken exactly when its
      id is derived and the hold was released automatically, and changes nothing. */
  lemma AutoReleaseExact(hash: Digest, mode: CredentialMode, b: Book, base: string, e: HoldEvent, known: set<Id>, h: Id)
    requires KeysAgree(b.holds, b.holdDelta)
    requires e.variant.AutoRelease? && e.holdId == Some(h) && h in b.holds
    ensures var r := StepB(hash, mode, b, base, e, known);
            if b.holds[h].name.Released? then
              if mode.Separated? && e.derivedId && b.holds[h].disposition == Some(ActorVerifiedAuto) then r == Ok(b)
              else Refused(r)
            else
              if mode.Separated? && b.holds[h].name.HeldForeign? && h !in b.rejectRestored
                 && Evidence(hash, b, base, e, known, h)
              then Decided(b, r, e, h, MachineB(Released, Some(ActorVerifiedAuto))) else Refused(r)
  {
    DecisionIs(hash, mode, b, base, e, known, h);
    var a := Admission(h, b.holds[h], None);
    assert e.mode.Separated? && EpochOkB(e) && e.from == HeldForeign;
    assert h in b.holdDelta;
    if !b.holds[h].name.Released? {
      assert CheckPreconditions(a, e).Proceed? <==> b.holds[h].name.HeldForeign?;
      GatesAreEvidence(hash, mode, b, base, e, known, h);
      assert b.holds[h].name.HeldForeign? ==> NextState(a, e) == Some(MachineB(Released, Some(ActorVerifiedAuto)));
      OutcomeIs(b, b, h, e, MachineB(Released, Some(ActorVerifiedAuto)));
    }
    hide StepB, RecordOutcome, Decided, HoldOk, Clean, NextState, ReleaseGatesPass, Evidence;
  }

  lemma GatesAreEvidence(hash: Digest, mode: CredentialMode, b: Book, base: string, e: HoldEvent, known: set<Id>, h: Id)
    requires e.variant.AutoRelease? && h in b.holdDelta
    ensures ReleaseGatesPass(hash, mode, b, base, h, e, known) <==>
            h !in b.rejectRestored && mode.Separated? && Evidence(hash, b, base, e, known, h)
  {
    hide DeriveMatchedDeltaDigest;
  }

  /** A decision about a hold the book does not know is refused. */
  lemma UnknownHoldRefused(hash: Digest, mode: CredentialMode, b: Book, base: string, e: HoldEvent, known: set<Id>)
    requires !ObservesDelta(e.variant) && e.holdId.value !in b.holds
    ensures Refused(StepB(hash, mode, b, base, e, known))
  {
    hide HoldOk, EpochOkB;
  }

  // ----- observations --------------------------------------------------------

  /** A tag that disagrees with what the record turned out to be is journalled, and only that. */
  ghost predicate Journalled(b: Book, after: Book, e: HoldEvent, tag: HoldVariant, resolution: Resolution, h: Id) {
    after.notes == b.notes + if e.variant == tag then [] else [Note(resolution, e.variant, h)]
  }

  /** The record was absorbed by hold `h`, which stays as it is. */
  ghost predicate Absorbed(b: Book, r: Result<Book, Code>, e: HoldEvent, tag: HoldVariant, resolution: Resolution,
                           h: Id) {
    && r.Ok? && h in b.holds
    && r.value == b.(notes := r.value.notes, deliveryIndex := r.value.deliveryIndex, deliveries := r.value.deliveries)
    && DeliveryListed(b, r.value, h, e.delivery) && Journalled(b, r.value, e, tag, resolution, h)
  }

  /** The record opened the new hold `h` for delta `d`. */
  ghost predicate Created(b: Book, r: Result<Book, Code>, e: HoldEvent, d: Delta, h: Id) {
    && r.Ok? && h !in b.holds
    && r.value.holds == b.holds[h := MachineB(HeldForeign, None)]
    && r.value.holdDelta == b.holdDelta[h := d] && r.value.order == b.order + [h]
    && r.value.openByDelta == b.openByDelta[d := h] && r.value.terminalCount == b.terminalCount
    && r.value.rejectRestored == b.rejectRestored
    && DeliveryListed(b, r.value, h, e.delivery) && Journalled(b, r.value, e, ObserveDelta, Create, h)
  }

  /** Exactly what an observed delta does, whatever its tag. A known delivery is absorbed by
      its hold when the delta is that hold's; otherwise an open hold of the delta absorbs it;
      otherwise the delta's next occurrence is opened, below the ceiling. A record naming
      another hold than the one it turns out to be about is refused. */
  lemma ObservationExact(hash: Digest, mode: CredentialMode, b: Book, base: string, e: HoldEvent, known: set<Id>)
    requires Injective(hash) && NewlineFree(base) && BookInv(NamingOf(hash, base), mode, b)
    requires ObservesDelta(e.variant)
    ensures var r := StepB(hash, mode, b, base, e, known);
            var d := Delta(e.ref, e.deltaOld.value, e.deltaNew.value);
            if e.mode != mode || e.epochBefore != e.epochAfter then Refused(r)
            else if e.delivery.Some? && e.delivery.value in b.deliveryIndex then
              var h := b.deliveryIndex[e.delivery.value];
              if (e.holdId.None? || e.holdId.value == h) && h in b.holdDelta && b.holdDelta[h] == d
              then Absorbed(b, r, e, ObserveDeltaRedelivery, Redelivery, h) else Refused(r)
            else if d in b.openByDelta then
              var h := b.openByDelta[d];
              if e.holdId.None? || e.holdId.value == h
              then Absorbed(b, r, e, ObserveDeltaNewDeliveryOnOpenHold, Record, h) else Refused(r)
            else
              var k := if d in b.terminalCount then b.terminalCount[d] else 0;
              var h := DeriveHoldId(hash, base, d.ref, d.old_, d.new_, k);
              if e.holdId.Some? && e.holdId.value != h then Refused(r)
              else if |b.openByDelta| < 5 then Created(b, r, e, d, h)
              else r == Err(HoldAdmissionCeiling)
  {
    var r := StepB(hash, mode, b, base, e, known);
    ObservationOutcome(hash, mode, b, base, e, known);
    ResolvedStates(hash, mode, b, base, e);
    assert EpochOkB(e) <==> e.epochBefore == e.epochAfter;
    BookFacts(hash, mode, b, base, e);
    hide StepB, BookInv, HoldOk, EpochOkB, Injective, DeriveHoldId, Absorbed, Created, RecordOutcome;
    var a := Admit(hash, b, base, e);
    if e.mode == mode && EpochOkB(e) && a.Some? {
      if a.value.hid in b.holds {
        AbsorbedIs(b, e, a.value, Resolve(hash, b, base, e).0);
      } else {
        CreatedIs(b, e, a.value);
      }
    }
  }

  lemma BookFacts(hash: Digest, mode: CredentialMode, b: Book, base: string, e: HoldEvent)
    requires BookInv(NamingOf(hash, base), mode, b) && ObservesDelta(e.variant)
    ensures forall x :: x in b.deliveryIndex ==> b.deliveryIndex[x] in b.holdDelta
    ensures forall d :: d in b.openByDelta ==> b.openByDelta[d] in b.holdDelta && b.holdDelta[b.openByDelta[d]] == d
    ensures forall h :: h in b.holds <==> h in b.holdDelta
  {
    hide OccurrencesAgree, OrderAgrees, ReleasesAreSafe, Clean, HoldOk;
  }

  lemma AbsorbedIs(b: Book, e: HoldEvent, a: Admission, resolution: Resolution)
    requires ObservesDelta(e.variant) && a.hid in b.holds && a.cur == b.holds[a.hid]
    requires a.note == if e.variant == ExpectedTag(resolution) then None else Some(Note(resolution, e.variant, a.hid))
    ensures Absorbed(b, Ok(RecordOutcome(WithNote(b, a.note), a.hid, e, a.cur, ObservedState(b, a.hid))), e,
                     match resolution
                     case Redelivery => ObserveDeltaRedelivery
                     case Record => ObserveDeltaNewDeliveryOnOpenHold
                     case Create => ObserveDelta, resolution, a.hid)
  {
    hide HoldOk;
    var noted := WithNote(b, a.note);
    var listed := Delivered(noted, a.hid, e.delivery);
    ListedIs(b, noted, a.hid, e.delivery);
    hide Delivered, DeliveryListed;
    assert listed.holds[a.hid := b.holds[a.hid]] == b.holds;
  }

  lemma ListedIs(b: Book, noted: Book, h: Id, delivery: Option<Id>)
    requires noted.deliveryIndex == b.deliveryIndex && noted.deliveries == b.deliveries
    ensures var after := Delivered(noted, h, delivery);
            && (forall holds :: DeliveryListed(b, after.(holds := holds), h, delivery))
            && after == noted.(deliveryIndex := after.deliveryIndex, deliveries := after.deliveries)
  {
  }

  lemma CreatedIs(b: Book, e: HoldEvent, a: Admission)
    requires ObservesDelta(e.variant) && a.hid !in b.holds && a.cur == GENESIS_B
    requires a.note == if e.variant == ObserveDelta then None else Some(Note(Create, e.variant, a.hid))
    ensures Created(b, Ok(RecordOutcome(WithNote(b, a.note), a.hid, e, a.cur, ObservedState(b, a.hid))), e,
                    Delta(e.ref, e.deltaOld.value, e.deltaNew.value), a.hid)
  {
    hide HoldOk;
    var noted := WithNote(b, a.note);
    var begun := Opened(noted, a.hid, DeltaOf(e));
    ListedIs(b, begun, a.hid, e.delivery);
    hide Delivered, DeliveryListed;
  }
}
