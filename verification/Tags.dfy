/** The writer's tag on an observation is advisory: what an observed delta does to the book
    is resolved by the reducer, and a disagreement is only journalled. */
module Tags {
  import opened Wrappers
  import opened Text
  import opened Wire
  import opened Schema
  import opened Events
  import opened SectionB
  import opened HoldInvariants

  /** The same observation under another tag, with the audit source that tag allows. */
  ghost predicate SameObservation(x: HoldEvent, y: HoldEvent) {
    ObservesDelta(x.variant) && ObservesDelta(y.variant) && y == x.(variant := y.variant, from := y.from)
  }

  lemma SameFields(x: HoldEvent, y: HoldEvent)
    requires SameObservation(x, y)
    ensures DeltaOf(x) == DeltaOf(y) && x.delivery == y.delivery && x.holdId == y.holdId && x.mode == y.mode
    ensures EpochOkB(x) == EpochOkB(y)
    ensures x.disposition == y.disposition
  {
  }

  /** Which hold an observation addresses does not depend on its tag. */
  lemma SameAddress(hash: Digest, b: Book, base: string, x: HoldEvent, y: HoldEvent)
    requires SameObservation(x, y)
    ensures Resolve(hash, b, base, x) == Resolve(hash, b, base, y)
    ensures Admit(hash, b, base, x).Some? <==> Admit(hash, b, base, y).Some?
    ensures Admit(hash, b, base, x).Some? ==>
              Admit(hash, b, base, x).value.hid == Admit(hash, b, base, y).value.hid == Resolve(hash, b, base, x).1
              && Admit(hash, b, base, x).value.cur == Admit(hash, b, base, y).value.cur
    ensures Admit(hash, b, base, x).Some? ==>
              Admit(hash, b, base, x).value.note ==
              var (resolution, hid) := Resolve(hash, b, base, x);
              if x.variant == ExpectedTag(resolution) then None else Some(Note(resolution, x.variant, hid))
  {
    SameFields(x, y);
    hide HoldOk, HoldIdOf, EpochOkB;
  }

  /** What an admitted observation does: a known hold keeps its state, an unknown one is held. */
  function ObservedState(b: Book, hid: Id): MachineB {
    if hid in b.holds then b.holds[hid] else MachineB(HeldForeign, None)
  }

  lemma ResolvedStates(hash: Digest, mode: CredentialMode, b: Book, base: string, e: HoldEvent)
    requires Injective(hash) && NewlineFree(base) && BookInv(NamingOf(hash, base), mode, b) && ObservesDelta(e.variant)
    ensures var (resolution, hid) := Resolve(hash, b, base, e);
            && (resolution.Create? ==> hid !in b.holds)
            && (resolution.Redelivery? ==> hid in b.holds)
            && (resolution.Record? ==> hid in b.holds && !b.holds[hid].name.Released?)
            && (hid in b.holds ==> !b.holds[hid].name.Unborn?)
  {
    var id := NamingOf(hash, base);
    var d := DeltaOf(e);
    if Resolve(hash, b, base, e).0.Create? {
      NamingIsApart(hash, base);
      CreationFresh(id, b.terminalCount, b.openByDelta, b.holdDelta, ReleasedOf(b.holds), d);
      assert id(d, CountOf(b.terminalCount, d)) == HoldIdOf(hash, base, d, TerminalCount(b, d));
    }
    hide HoldOk, OccurrencesAgree, OrderAgrees, ReleasesAreSafe, Clean;
  }

  lemma ObservationProceeds(a: Admission, e: HoldEvent, resolution: Resolution, b: Book)
    requires ObservesDelta(e.variant)
    requires a.cur == if a.hid in b.holds then b.holds[a.hid] else GENESIS_B
    requires a.note.None? <==> e.variant == ExpectedTag(resolution)
    requires resolution.Create? ==> a.hid !in b.holds
    requires resolution.Redelivery? ==> a.hid in b.holds
    requires resolution.Record? ==> a.hid in b.holds && !b.holds[a.hid].name.Released?
    requires a.hid in b.holds ==> !b.holds[a.hid].name.Unborn?
    ensures CheckPreconditions(a, e).Proceed? && NextState(a, e) == Some(ObservedState(b, a.hid))
  {
  }

  function WithNote(b: Book, note: Option<Note>): Book {
    if note.Some? then b.(notes := b.notes + [note.value]) else b
  }

  lemma AdmittedOutcome(hash: Digest, mode: CredentialMode, b: Book, base: string, e: HoldEvent, known: set<Id>,
                        a: Admission)
    requires ObservesDelta(e.variant) && Admit(hash, b, base, e) == Some(a)
    requires CheckPreconditions(a, e).Proceed? && NextState(a, e) == Some(ObservedState(b, a.hid))
    requires e.mode == mode && EpochOkB(e)
    ensures StepB(hash, mode, b, base, e, known) ==
            if CeilingReached(b, a.hid) then Err(HoldAdmissionCeiling)
            else Ok(RecordOutcome(WithNote(b, a.note), a.hid, e, a.cur, ObservedState(b, a.hid)))
  {
    hide HoldOk, EpochOkB, Admit, CheckPreconditions, NextState, CeilingReached, RecordOutcome, ObservedState;
  }

  /** An observation never moves a hold that exists, whatever its tag, and creates the next
      occurrence of its delta only when the delta has no open hold. */
  lemma ObservationOutcome(hash: Digest, mode: CredentialMode, b: Book, base: string, e: HoldEvent, known: set<Id>)
    requires Injective(hash) && NewlineFree(base) && BookInv(NamingOf(hash, base), mode, b) && ObservesDelta(e.variant)
    ensures var a := Admit(hash, b, base, e);
            StepB(hash, mode, b, base, e, known) ==
            if e.mode != mode || !EpochOkB(e) || a.None? then Err(IllegalTransition)
            else if CeilingReached(b, a.value.hid) then Err(HoldAdmissionCeiling)
            else Ok(RecordOutcome(WithNote(b, a.value.note), a.value.hid, e, a.value.cur,
                                  ObservedState(b, a.value.hid)))
  {
    hide BookInv, HoldOk, EpochOkB, CheckPreconditions, NextState, CeilingReached, RecordOutcome, ObservedState,
         HoldIdOf, Injective;
    if e.mode == mode && EpochOkB(e) && Admit(hash, b, base, e).Some? {
      var a := Admit(hash, b, base, e).value;
      ResolvedStates(hash, mode, b, base, e);
      SameObservationSelf(e);
      SameAddress(hash, b, base, e, e);
      AdmittedCur(hash, b, base, e, a);
      hide Admit, Resolve;
      ObservationProceeds(a, e, Resolve(hash, b, base, e).0, b);
      AdmittedOutcome(hash, mode, b, base, e, known, a);
    }
  }

  lemma SameObservationSelf(e: HoldEvent)
    requires ObservesDelta(e.variant)
    ensures SameObservation(e, e)
  {
  }

  lemma AdmittedCur(hash: Digest, b: Book, base: string, e: HoldEvent, a: Admission)
    requires ObservesDelta(e.variant) && Admit(hash, b, base, e) == Some(a)
    ensures a.cur == if a.hid in b.holds then b.holds[a.hid] else GENESIS_B
  {
    hide HoldOk, HoldIdOf;
  }

  lemma NotesApart(b: Book, notes: seq<Note>, hid: Id, d: Delta)
    ensures Opened(b.(notes := notes), hid, d) == Opened(b, hid, d).(notes := notes)
    ensures Closed(b.(notes := notes), hid) == Closed(b, hid).(notes := notes)
  {
  }

  lemma NotesApartFromDelivery(b: Book, notes: seq<Note>, hid: Id, delivery: Option<Id>)
    ensures Delivered(b.(notes := notes), hid, delivery) == Delivered(b, hid, delivery).(notes := notes)
  {
    assert DeliveriesOf(b.(notes := notes), hid) == DeliveriesOf(b, hid);
    hide DeliveriesOf;
  }

  lemma OutcomeApartFromNotes(b: Book, notes: seq<Note>, hid: Id, e: HoldEvent, cur: MachineB, next: MachineB)
    requires ObservesDelta(e.variant)
    ensures RecordOutcome(b.(notes := notes), hid, e, cur, next) == RecordOutcome(b, hid, e, cur, next).(notes := notes)
  {
    hide Opened, Delivered, Closed, DeltaOf, HoldOk;
    var d := DeltaOf(e);
    NotesApart(b, notes, hid, d);
    var b1 := if hid in b.holds then b else Opened(b, hid, d);
    NotesApartFromDelivery(b1, notes, hid, e.delivery);
    NotesApart(Delivered(b1, hid, e.delivery), notes, hid, d);
  }

  lemma OutcomeIgnoresTag(b: Book, nx: Option<Note>, ny: Option<Note>, hid: Id, x: HoldEvent, y: HoldEvent,
                          cur: MachineB, next: MachineB)
    requires SameObservation(x, y)
    ensures RecordOutcome(WithNote(b, nx), hid, x, cur, next).(notes := [])
            == RecordOutcome(WithNote(b, ny), hid, y, cur, next).(notes := [])
    ensures RecordOutcome(WithNote(b, nx), hid, x, cur, next).notes == WithNote(b, nx).notes
  {
    hide HoldOk, EpochOkB;
    SameFields(x, y);
    OutcomeApartFromNotes(b, WithNote(b, nx).notes, hid, x, cur, next);
    OutcomeApartFromNotes(b, WithNote(b, ny).notes, hid, y, cur, next);
    SameOutcome(b, hid, x, y, cur, next);
    hide RecordOutcome;
    assert WithNote(b, nx) == b.(notes := WithNote(b, nx).notes);
    assert WithNote(b, ny) == b.(notes := WithNote(b, ny).notes);
  }

  lemma SameOutcome(b: Book, hid: Id, x: HoldEvent, y: HoldEvent, cur: MachineB, next: MachineB)
    requires SameObservation(x, y)
    ensures RecordOutcome(b, hid, x, cur, next) == RecordOutcome(b, hid, y, cur, next)
  {
    SameFields(x, y);
    hide Opened, Delivered, Closed, HoldOk, EpochOkB, DeltaOf;
  }

  /** Two writers that report one observation under different tags leave the same book but
      for the journal, or are refused with the same code. */
  lemma TagDoesNotMatter(hash: Digest, mode: CredentialMode, b: Book, base: string, x: HoldEvent, y: HoldEvent,
                         known: set<Id>)
    requires Injective(hash) && NewlineFree(base) && BookInv(NamingOf(hash, base), mode, b) && SameObservation(x, y)
    ensures match StepB(hash, mode, b, base, x, known)
            case Ok(bx) =>
              var other := StepB(hash, mode, b, base, y, known);
              && other.Ok? && other.value.(notes := []) == bx.(notes := [])
              && var (resolution, hid) := Resolve(hash, b, base, x);
              bx.notes == b.notes + if x.variant == ExpectedTag(resolution) then []
                else [Note(resolution, x.variant, hid)]
            case Err(code) => StepB(hash, mode, b, base, y, known) == Err(code)
  {
    hide BookInv, HoldOk, EpochOkB, Admit, StepB, CeilingReached, RecordOutcome, ObservedState, Injective, Resolve;
    SameFields(x, y);
    SameAddress(hash, b, base, x, y);
    ObservationOutcome(hash, mode, b, base, x, known);
    ObservationOutcome(hash, mode, b, base, y, known);
    var ax, ay := Admit(hash, b, base, x), Admit(hash, b, base, y);
    if ax.Some? {
      OutcomeIgnoresTag(b, ax.value.note, ay.value.note, ax.value.hid, x, y, ax.value.cur,
                        ObservedState(b, ax.value.hid));
      assert b.notes + [] == b.notes;
    }
  }

  lemma RecordedOutcome(b: Book, hid: Id, e: HoldEvent, cur: MachineB, next: MachineB, after: Book)
    requires ObservesDelta(e.variant) && !next.name.Released? && after == RecordOutcome(b, hid, e, cur, next)
    ensures hid in after.holds && after.holds[hid] == next
    ensures after.holdDelta == if hid in b.holds then b.holdDelta else b.holdDelta[hid := DeltaOf(e)]
    ensures e.delivery.Some? ==> e.delivery.value in after.deliveryIndex
    ensures e.delivery.Some? && e.delivery.value !in b.deliveryIndex ==>
              after.deliveryIndex[e.delivery.value] == hid
                && after.deliveries == b.deliveries[hid := DeliveriesOf(b, hid) + [e.delivery.value]]
    ensures e.delivery.Some? && e.delivery.value in b.deliveryIndex ==>
              after.deliveryIndex == b.deliveryIndex && after.deliveries == b.deliveries
  {
    hide HoldOk, DeltaOf;
  }

  lemma RedeliveredOutcome(b: Book, hid: Id, e: HoldEvent, cur: MachineB, after: Book)
    requires cur.name.Released? && hid in b.holds && after == RecordOutcome(b, hid, e, cur, cur)
    ensures after.holdDelta == b.holdDelta
    ensures e.delivery.Some? ==> e.delivery.value in after.deliveryIndex
    ensures e.delivery.Some? && e.delivery.value !in b.deliveryIndex ==> after.deliveryIndex[e.delivery.value] == hid
    ensures e.delivery.Some? && e.delivery.value in b.deliveryIndex ==> after.deliveryIndex == b.deliveryIndex
  {
    hide HoldOk;
  }

  lemma AddressAgrees(hash: Digest, b: Book, base: string, e: HoldEvent, a: Admission)
    requires ObservesDelta(e.variant) && Admit(hash, b, base, e) == Some(a)
    ensures a.hid == Resolve(hash, b, base, e).1
    ensures e.holdId.Some? ==> e.holdId.value == a.hid
    ensures a.hid in b.holdDelta && !Resolve(hash, b, base, e).0.Create? ==> b.holdDelta[a.hid] == DeltaOf(e)
    ensures e.delivery.Some? && e.delivery.value in b.deliveryIndex ==> b.deliveryIndex[e.delivery.value] == a.hid
  {
    hide HoldOk, HoldIdOf;
  }

  /** What an accepted observation leaves on record: the hold it addresses carries the
      observation's own delta and, when the event names a hold or a delivery, is that hold
      and holds that delivery. A delivery whose hold was opened for another delta, or an
      event naming another hold, is never accepted. */
  lemma ObservationRecorded(hash: Digest, mode: CredentialMode, b: Book, base: string, e: HoldEvent, known: set<Id>,
                            after: Book)
    requires Injective(hash) && NewlineFree(base) && BookInv(NamingOf(hash, base), mode, b) && ObservesDelta(e.variant)
    requires StepB(hash, mode, b, base, e, known) == Ok(after)
    ensures var hid := Resolve(hash, b, base, e).1;
            && hid in after.holdDelta && after.holdDelta[hid] == DeltaOf(e)
            && (e.holdId.Some? ==> e.holdId.value == hid)
            && (e.delivery.Some? ==>
                e.delivery.value in after.deliveryIndex && after.deliveryIndex[e.delivery.value] == hid)
  {
    hide HoldOk, EpochOkB, Admit, Resolve, CeilingReached, RecordOutcome, StepB, HoldIdOf, Injective, OccurrencesAgree,
         OpenAgrees, OrderAgrees, DeliveriesAgree, ReleasesAreSafe;
    ObservationOutcome(hash, mode, b, base, e, known);
    ResolvedStates(hash, mode, b, base, e);
    var a := Admit(hash, b, base, e).value;
    AddressAgrees(hash, b, base, e, a);
    var noted := WithNote(b, a.note);
    var next := ObservedState(b, a.hid);
    if next.name.Released? {
      AdmittedCur(hash, b, base, e, a);
      RedeliveredOutcome(noted, a.hid, e, a.cur, after);
    } else {
      RecordedOutcome(noted, a.hid, e, a.cur, next, after);
    }
  }
}
