/** The foreign-hold machine: the book one base keeps, and one step over it as a value. */
module SectionB {
  import opened Wrappers
  import opened Text
  import opened Wire
  import opened Schema
  import opened Events
  import SectionA

  /** A section-B state; RELEASED carries its disposition. */
  datatype MachineB = MachineB(name: StateB, disposition: Option<Disposition>)

  const GENESIS_B: MachineB := MachineB(Unborn, None)

  const AUTO_RELEASED: MachineB := MachineB(Released, Some(ActorVerifiedAuto))

  /** How the reducer resolved an observed delta. */
  datatype Resolution = Redelivery | Record | Create

  /** A journalled disagreement between the writer's tag and the reducer's resolution. */
  datatype Note = Note(resolution: Resolution, tagged: HoldVariant, holdId: Id)

  /** One base's section-B bookkeeping. */
  datatype Book = Book(
    deliveryIndex: map<Id, Id>,
    openByDelta: map<Delta, Id>,
    terminalCount: map<Delta, nat>,
    holds: map<Id, MachineB>,
    holdDelta: map<Id, Delta>,
    deliveries: map<Id, seq<Id>>,
    order: seq<Id>,
    notes: seq<Note>,
    rejectRestored: set<Id>)

  const EMPTY_BOOK: Book := Book(map[], map[], map[], map[], map[], map[], [], [], {})

  /** At most this many holds may be open on a base when a new one is admitted. */
  const OPEN_HOLD_ADMISSION_CEILING: nat := 5

  function CountOf(terminal: map<Delta, nat>, delta: Delta): nat {
    if delta in terminal then terminal[delta] else 0
  }

  /** How many holds of the delta have been released. */
  function TerminalCount(book: Book, delta: Delta): nat {
    CountOf(book.terminalCount, delta)
  }

  function DeliveriesOf(book: Book, hid: Id): seq<Id> {
    if hid in book.deliveries then book.deliveries[hid] else []
  }

  function HoldIdOf(hash: Digest, base: string, delta: Delta, occurrence: nat): Id {
    DeriveHoldId(hash, base, delta.ref, delta.old_, delta.new_, occurrence)
  }

  /** One transition of the section-B table; None is an illegal pair. */
  function ApplyB(state: MachineB, e: HoldEvent): Option<MachineB> {
    if state.name !in FromB(e.variant) then None
    else match e.variant
      case ObserveDeltaRedelivery | ObserveDeltaNewDeliveryOnOpenHold => Some(state)
      case AutoRelease => Some(AUTO_RELEASED)
      case HoldReconcileReplayIdentity => if state.disposition == e.disposition then Some(state) else None
      case HoldReconcileAccept => Some(MachineB(Released, e.disposition))
      case HoldReconcileRejectRestoreHold => Some(MachineB(HeldForeign, None))
      case HoldReconcileStanding => Some(MachineB(StandingHold, None))
      case ObserveDelta => Some(MachineB(HeldForeign, None))
  }

  // ----- the rows of the section-B table -------------------------------------

  /** A row: its sources, its trigger, its target (none: the state is unchanged), its effect on
      the epoch, and whether a standing hold re-enters it. */
  datatype HoldRow = HoldRow(id: string, from: set<StateB>, trigger: string, to: Option<StateB>, epoch: EpochEffect,
                             reentered: bool)

  const SECTION_B_ROWS: seq<HoldRow> := [
    HoldRow("observe_delta_create", {Unborn}, "observe_delta", Some(HeldForeign), NoEffect, false),
    HoldRow("observe_delta_redelivery_noop", {HeldForeign, Released, StandingHold}, "observe_delta", None, NoEffect,
            false),
    HoldRow("observe_delta_new_delivery_open_hold", {HeldForeign, StandingHold}, "observe_delta", None, NoEffect,
            false),
    HoldRow("actor_verified_match", {HeldForeign}, "actor_verified_match", Some(Released), AsAcceptOurs, false),
    HoldRow("hold_reconcile_accept", {HeldForeign}, "operator_reconcile", Some(Released), PerDisposition, true),
    HoldRow("hold_reconcile_reject_restore_hold", {HeldForeign}, "operator_reconcile", Some(HeldForeign), NoEffect,
            true),
    HoldRow("hold_reconcile_standing", {HeldForeign}, "operator_reconcile", Some(StandingHold), NoEffect, true),
    HoldRow("hold_reconcile_replay_identity", {Released}, "operator_reconcile", Some(Released), NoEffect, false)]

  function HoldRowOf(v: HoldVariant): HoldRow {
    match v
    case ObserveDelta => SECTION_B_ROWS[0]
    case ObserveDeltaRedelivery => SECTION_B_ROWS[1]
    case ObserveDeltaNewDeliveryOnOpenHold => SECTION_B_ROWS[2]
    case AutoRelease => SECTION_B_ROWS[3]
    case HoldReconcileAccept => SECTION_B_ROWS[4]
    case HoldReconcileRejectRestoreHold => SECTION_B_ROWS[5]
    case HoldReconcileStanding => SECTION_B_ROWS[6]
    case HoldReconcileReplayIdentity => SECTION_B_ROWS[7]
  }

  /** Each event variant is one row of the table, re-entered from STANDING where the table says
      so, and moves a hold to the row's target. */
  lemma HoldVariantTakesRow(v: HoldVariant)
    ensures var row := HoldRowOf(v);
            && FromB(v) == row.from + (if row.reentered then {StandingHold} else {})
            && TriggerB(v) == row.trigger && ToB(v) == row.to && EpochEffectB(v) == row.epoch
    ensures forall state: MachineB, e: HoldEvent :: e.variant == v && ApplyB(state, e).Some? ==>
              ApplyB(state, e).value.name == if ToB(v).Some? then ToB(v).value else state.name
  {
  }

  predicate EpochOkB(e: HoldEvent) {
    SectionA.EpochAlgebraOk(EpochEffectB(e.variant), e.epochBefore, e.epochAfter, None, e.disposition, false)
  }

  // ----- admission -----------------------------------------------------------

  /** The apply order: known delivery, then open hold of the delta, then a fresh hold. */
  function Resolve(hash: Digest, book: Book, base: string, e: HoldEvent): (Resolution, Id)
    requires ObservesDelta(e.variant)
  {
    var delta := DeltaOf(e);
    if e.delivery.Some? && e.delivery.value in book.deliveryIndex then
      (Redelivery, book.deliveryIndex[e.delivery.value])
    else if delta in book.openByDelta then
      (Record, book.openByDelta[delta])
    else
      (Create, HoldIdOf(hash, base, delta, TerminalCount(book, delta)))
  }

  function ExpectedTag(r: Resolution): HoldVariant {
    match r
    case Redelivery => ObserveDeltaRedelivery
    case Record => ObserveDeltaNewDeliveryOnOpenHold
    case Create => ObserveDelta
  }

  datatype Admission = Admission(hid: Id, cur: MachineB, note: Option<Note>)

  /** Which hold an event addresses. */
  function Admit(hash: Digest, book: Book, base: string, e: HoldEvent): Option<Admission> {
    if ObservesDelta(e.variant) then
      var (resolution, hid) := Resolve(hash, book, base, e);
      var note := if e.variant == ExpectedTag(resolution) then None else Some(Note(resolution, e.variant, hid));
      if e.holdId.Some? && e.holdId.value != hid then None
      else if !resolution.Create? && hid in book.holdDelta && book.holdDelta[hid] != DeltaOf(e) then None
      else Some(Admission(hid, if hid in book.holds then book.holds[hid] else GENESIS_B, note))
    else if e.holdId.value in book.holds then
      Some(Admission(e.holdId.value, book.holds[e.holdId.value], None))
    else None
  }

  /** An admitted event addresses a hold of the book, or observes a delta. */
  lemma AdmitKnows(hash: Digest, b: Book, base: string, e: HoldEvent)
    ensures var a := Admit(hash, b, base, e); a.Some? ==> a.value.hid in b.holds || ObservesDelta(e.variant)
  {
  }

  predicate CeilingReached(book: Book, hid: Id) {
    hid !in book.holds && |book.openByDelta| >= OPEN_HOLD_ADMISSION_CEILING
  }

  datatype Precondition = Proceed | IdentityReplay | Refuse

  /** State preconditions: an audit `from` must name the reduced state, except on the
      unchanged rows, on a resolved disagreement, and on a replayed release. */
  function CheckPreconditions(a: Admission, e: HoldEvent): Precondition {
    var replaying := a.cur.name.Released? &&
                     (e.variant.HoldReconcileAccept? || (e.variant.AutoRelease? && e.derivedId));
    var replayed := if e.variant.AutoRelease? then Some(ActorVerifiedAuto) else e.disposition;
    if ToB(e.variant).Some? && !replaying && a.note.None? && e.from != a.cur.name then Refuse
    else if !replaying then Proceed
    else if a.cur.disposition == replayed then IdentityReplay
    else Refuse
  }

  /** The gates on the one release no operator takes part in. */
  predicate ReleaseGatesPass(hash: Digest, mode: CredentialMode, book: Book, base: string, hid: Id, e: HoldEvent,
                             known: set<Id>)
    requires e.variant.AutoRelease?
  {
    && hid !in book.rejectRestored
    && mode.Separated?
    && e.delivery.value in DeliveriesOf(book, hid)
    && hid in book.holdDelta
    && var delta := book.holdDelta[hid];
    && e.digest.value == DeriveMatchedDeltaDigest(hash, base, delta.ref, delta.old_, delta.new_)
    && e.movement.Some? && e.movement.value in known
    && e.epochAfter == delta.new_
  }

  // ----- bookkeeping ---------------------------------------------------------

  function Opened(book: Book, hid: Id, delta: Delta): Book {
    book.(order := book.order + [hid],
          holdDelta := book.holdDelta[hid := delta],
          openByDelta := book.openByDelta[delta := hid])
  }

  function Delivered(book: Book, hid: Id, delivery: Option<Id>): Book {
    if delivery.Some? && delivery.value !in book.deliveryIndex then
      book.(deliveryIndex := book.deliveryIndex[delivery.value := hid],
            deliveries := book.deliveries[hid := DeliveriesOf(book, hid) + [delivery.value]])
    else book
  }

  function Closed(book: Book, hid: Id): Book {
    if hid in book.holdDelta then
      var delta := book.holdDelta[hid];
      book.(openByDelta := book.openByDelta - {delta},
            terminalCount := book.terminalCount[delta := TerminalCount(book, delta) + 1])
    else book
  }

  /** Bookkeeping after a legal step from `cur` to `next`. */
  function RecordOutcome(book: Book, hid: Id, e: HoldEvent, cur: MachineB, next: MachineB): Book
    requires hid in book.holds || ObservesDelta(e.variant)
  {
    var b1 := if hid in book.holds then book else Opened(book, hid, DeltaOf(e));
    var b2 := Delivered(b1, hid, e.delivery);
    var b3 := if !cur.name.Released? && next.name.Released? then Closed(b2, hid) else b2;
    b3.(holds := b3.holds[hid := next])
  }

  /** The state after a step that passed every check. */
  function NextState(a: Admission, e: HoldEvent): Option<MachineB> {
    if a.note.None? then ApplyB(a.cur, e)
    else Some(if a.cur.name.Unborn? then MachineB(HeldForeign, None) else a.cur)
  }

  /** One step over a book. `mode` is the run's credential mode and `known` the movements
      of the base that the same walk has reduced so far. */
  function StepB(hash: Digest, mode: CredentialMode, book: Book, base: string, e: HoldEvent,
                 known: set<Id>): Result<Book, Code> {
    if e.mode != mode || !EpochOkB(e) then Err(IllegalTransition)
    else
      var admitted := Admit(hash, book, base, e);
      if admitted.None? then Err(IllegalTransition)
      else
        var a := admitted.value;
        var noted := if a.note.Some? then book.(notes := book.notes + [a.note.value]) else book;
        if CeilingReached(book, a.hid) then Err(HoldAdmissionCeiling)
        else
          var pre := CheckPreconditions(a, e);
          if pre.Refuse? then Err(IllegalTransition)
          else if pre.IdentityReplay? then Ok(noted)
          else if e.variant.AutoRelease? && !ReleaseGatesPass(hash, mode, book, base, a.hid, e, known) then
            Err(IllegalTransition)
          else
            var next := NextState(a, e);
            if next.None? then Err(IllegalTransition)
            else
              var marked := if e.variant.HoldReconcileRejectRestoreHold? then
                              noted.(rejectRestored := noted.rejectRestored + {a.hid})
                            else noted;
              Ok(RecordOutcome(marked, a.hid, e, a.cur, next.value))
  }
}
