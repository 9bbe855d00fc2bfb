/** Where fence edges come from: the steps of the two machines that may move the fence, and
    why each movement and each hold moves it at most once. */
module Fences {
  import opened Wrappers
  import opened Text
  import opened Wire
  import opened Schema
  import opened Events
  import opened SectionA
  import opened SectionB
  import opened HoldInvariants

  // ----- section A -----------------------------------------------------------

  /** A movement whose outcome is settled for good. */
  predicate Settled(m: MachineA) {
    m.name.Explained? || m.name.Reconciled?
  }

  /** The machine an effect leaves behind when it moved the fence. */
  ghost predicate EffectSettles(e: EffectEvent, m: MachineA) {
    || (e.variant.ExplainedByMatch? && e.newOid == Some(e.epochAfter) && m == MachineA(Explained, None))
    || (e.variant.ReconcileAccept? && m == MachineA(Reconciled, e.disposition) &&
        (e.disposition == Some(AcceptOurs) ==> e.newOid == Some(e.epochAfter)))
  }

  lemma SettledStays(cur: MachineA, e: EffectEvent, next: MachineA)
    requires Settled(cur) && StepA(cur, e) == Some(next)
    ensures next == cur
  {
    hide EffectOk, EpochOkA;
  }

  /** A step that changes a movement and the epoch settles the movement, which was open;
      a row that pins the new object set the fence to it. */
  lemma EffectFence(cur: MachineA, e: EffectEvent, next: MachineA)
    requires StepA(cur, e) == Some(next) && next != cur && e.epochBefore != e.epochAfter
    ensures EffectSettles(e, next) && Settled(next) && !Settled(cur)
  {
    if Settled(cur) {
      SettledStays(cur, e, next);
    }
    hide Settled;
  }

  /** Durable states only, with a disposition exactly on the reconciled ones. */
  ghost predicate WellReduced(m: MachineA) {
    Durable(m.name) && (m.name.Reconciled? <==> m.disposition.Some?)
  }

  lemma StepWellReduced(cur: MachineA, e: EffectEvent, next: MachineA)
    requires WellReduced(cur) && StepA(cur, e) == Some(next)
    ensures WellReduced(next)
  {
    hide EpochOkA;
  }

  // ----- section B -----------------------------------------------------------

  /** The book a hold event leaves behind when it moved the fence. */
  ghost predicate HoldSettles(mode: CredentialMode, e: HoldEvent, b: Book) {
    && e.holdId.Some? && e.holdId.value in b.holds && e.holdId.value in b.holdDelta
    && (|| (e.variant.AutoRelease? && mode.Separated? && b.holds[e.holdId.value] == AUTO_RELEASED &&
            e.epochAfter == b.holdDelta[e.holdId.value].new_)
        || (e.variant.HoldReconcileAccept? && b.holds[e.holdId.value] == MachineB(Released, e.disposition)))
  }

  lemma FenceVariantB(e: HoldEvent)
    requires EpochOkB(e) && e.epochBefore != e.epochAfter
    ensures e.variant.AutoRelease? || e.variant.HoldReconcileAccept?
  {
    hide HoldOk;
  }

  lemma EpochOkOfStep(hash: Digest, mode: CredentialMode, b: Book, base: string, e: HoldEvent, known: set<Id>)
    requires StepB(hash, mode, b, base, e, known).Ok?
    ensures EpochOkB(e) && Admit(hash, b, base, e).Some?
    ensures !CheckPreconditions(Admit(hash, b, base, e).value, e).Refuse?
  {
    hide EpochOkB, Admit, HoldOk, CheckPreconditions;
  }

  lemma ReleaseNames(hash: Digest, b: Book, base: string, e: HoldEvent, a: Admission)
    requires e.variant.AutoRelease? || e.variant.HoldReconcileAccept?
    requires Admit(hash, b, base, e) == Some(a)
    ensures e.holdId == Some(a.hid) && a.hid in b.holds && a.cur == b.holds[a.hid] && a.note.None?
  {
  }

  lemma ReleaseOutcome(e: HoldEvent, a: Admission)
    requires (e.variant.AutoRelease? || e.variant.HoldReconcileAccept?) && a.note.None? && NextState(a, e).Some?
    ensures NextState(a, e).value == if e.variant.AutoRelease? then AUTO_RELEASED else MachineB(Released, e.disposition)
  {
    hide HoldOk;
  }

  lemma ReleaseStartsOpen(e: HoldEvent, a: Admission)
    requires (e.variant.AutoRelease? || e.variant.HoldReconcileAccept?) && a.note.None?
    requires CheckPreconditions(a, e).Proceed?
    ensures !a.cur.name.Released?
  {
  }

  lemma OutcomeHolds(b: Book, hid: Id, e: HoldEvent, cur: MachineB, next: MachineB, after: Book)
    requires hid in b.holds && after == RecordOutcome(b, hid, e, cur, next)
    ensures after.holds == b.holds[hid := next] && after.holdDelta == b.holdDelta
  {
    hide HoldOk;
  }

  /** A step that changes a hold and the epoch releases the hold, which was open; an
      automatic release sets the fence to the hold's own recorded target. */
  lemma HoldFence(hash: Digest, mode: CredentialMode, b: Book, base: string, e: HoldEvent, known: set<Id>, after: Book)
    requires KeysAgree(b.holds, b.holdDelta) && StepB(hash, mode, b, base, e, known) == Ok(after)
    requires after.holds != b.holds && e.epochBefore != e.epochAfter
    ensures HoldSettles(mode, e, after)
    ensures e.holdId.value in b.holds && !b.holds[e.holdId.value].name.Released?
    ensures after.holdDelta == b.holdDelta
  {
    hide StepB, Admit, RecordOutcome, EpochOkB, NextState, HoldOk, CeilingReached, Clean;
    EpochOkOfStep(hash, mode, b, base, e, known);
    FenceVariantB(e);
    var a := Admit(hash, b, base, e).value;
    ReleaseNames(hash, b, base, e, a);
    StepUnfolds(hash, mode, b, base, e, known, a);
    if !CheckPreconditions(a, e).IdentityReplay? {
      ReleaseOutcome(e, a);
      ReleaseStartsOpen(e, a);
      hide CheckPreconditions;
      OutcomeHolds(Annotated(b, b.notes, {}), a.hid, e, a.cur, NextState(a, e).value, after);
    }
  }

  // ----- operator decisions and automatic releases ---------------------------

  /** The state a decision asks for, and the states it may be taken in. */
  function DecidedState(e: HoldEvent): MachineB
    requires !ObservesDelta(e.variant)
  {
    match e.variant
    case AutoRelease => AUTO_RELEASED
    case HoldReconcileRejectRestoreHold => MachineB(HeldForeign, None)
    case HoldReconcileStanding => MachineB(StandingHold, None)
    case _ => MachineB(Released, e.disposition)
  }

  lemma DecisionNames(hash: Digest, b: Book, base: string, e: HoldEvent, a: Admission)
    requires !ObservesDelta(e.variant) && Admit(hash, b, base, e) == Some(a)
    ensures e.holdId == Some(a.hid) && a.hid in b.holds && a.cur == b.holds[a.hid] && a.note.None?
  {
  }

  lemma DecisionProceeds(e: HoldEvent, a: Admission)
    requires !ObservesDelta(e.variant) && a.note.None? && CheckPreconditions(a, e).Proceed? && NextState(a, e).Some?
    ensures e.from == a.cur.name
    ensures a.cur.name.Released? ==>
            && NextState(a, e).value == a.cur && e.variant.HoldReconcileReplayIdentity?
            && a.cur.disposition == e.disposition
    ensures !a.cur.name.Released? ==>
            NextState(a, e).value == DecidedState(e) && !e.variant.HoldReconcileReplayIdentity?
    ensures !a.cur.name.Released? ==> a.cur.name.HeldForeign? || (a.cur.name.StandingHold? && !e.variant.AutoRelease?)
  {
  }

  lemma DecisionReplays(e: HoldEvent, a: Admission)
    requires !ObservesDelta(e.variant) && CheckPreconditions(a, e).IdentityReplay?
    ensures a.cur.name.Released? && a.cur.disposition == DecidedState(e).disposition && DecidedState(e).name.Released?
  {
  }

  /** Every accepted decision addresses a known hold and moves no other. On an open hold it
      is taken from the hold's own state and puts it in the decided state; on a released
      hold it is accepted only as a replay of the very disposition it was released with,
      and changes no state. */
  lemma DecisionOutcome(hash: Digest, mode: CredentialMode, b: Book, base: string, e: HoldEvent, known: set<Id>,
                        after: Book)
    requires !ObservesDelta(e.variant) && StepB(hash, mode, b, base, e, known) == Ok(after)
    ensures e.holdId.Some? && e.holdId.value in b.holds
    ensures var h := e.holdId.value;
            if b.holds[h].name.Released? then
              after.holds == b.holds && DecidedState(e).name.Released?
                && DecidedState(e).disposition == b.holds[h].disposition
            else
              && after.holds == b.holds[h := DecidedState(e)]
              && e.from == b.holds[h].name
              && (b.holds[h].name.HeldForeign? || (b.holds[h].name.StandingHold? && !e.variant.AutoRelease?))
  {
    hide StepB, Admit, RecordOutcome, EpochOkB, NextState, HoldOk, CeilingReached, DecidedState, CheckPreconditions;
    EpochOkOfStep(hash, mode, b, base, e, known);
    var a := Admit(hash, b, base, e).value;
    DecisionNames(hash, b, base, e, a);
    StepUnfolds(hash, mode, b, base, e, known, a);
    if CheckPreconditions(a, e).IdentityReplay? {
      DecisionReplays(e, a);
    } else {
      DecisionProceeds(e, a);
      if e.variant.HoldReconcileReplayIdentity? {
        DecisionReplayState(e);
      }
      var refused := if e.variant.HoldReconcileRejectRestoreHold? then {a.hid} else {};
      OutcomeHolds(Annotated(b, b.notes, refused), a.hid, e, a.cur, NextState(a, e).value, after);
      assert a.cur.name.Released? ==> b.holds[a.hid := a.cur] == b.holds;
    }
  }

  lemma DecisionReplayState(e: HoldEvent)
    requires e.variant.HoldReconcileReplayIdentity?
    ensures DecidedState(e) == MachineB(Released, e.disposition)
  {
  }

  /** Replaying an automatic release of a hold that was released automatically is accepted in
      every run of the event's mode and leaves the book as it was: the release gates are not
      consulted, so digest, movement and fence of the replay may be anything. */
  lemma AutoReplayExact(hash: Digest, mode: CredentialMode, b: Book, base: string, e: HoldEvent, known: set<Id>, h: Id)
    requires e.variant.AutoRelease? && e.derivedId && e.holdId == Some(h)
    requires h in b.holds && b.holds[h] == AUTO_RELEASED
    ensures StepB(hash, mode, b, base, e, known) == if e.mode == mode then Ok(b) else Err(IllegalTransition)
  {
    hide HoldOk, ReleaseGatesPass, RecordOutcome, NextState;
    assert Admit(hash, b, base, e) == Some(Admission(h, AUTO_RELEASED, None));
  }
}
