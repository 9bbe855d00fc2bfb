/** What every reachable hold book satisfies, and what one step may change. */
module HoldInvariants {
  import opened Wrappers
  import opened Text
  import opened Wire
  import opened Schema
  import opened Events
  import opened SectionB

  function ReleasedOf(holds: map<Id, MachineB>): set<Id> {
    set h | h in holds && holds[h].name.Released?
  }

  /** Every hold has a recorded newline-free delta, none is unborn, a released one has a
      disposition. */
  ghost predicate KeysAgree(holds: map<Id, MachineB>, holdDelta: map<Id, Delta>) {
    && (forall h :: h in holds <==> h in holdDelta)
    && (forall h :: h in holdDelta ==> Clean(holdDelta[h]))
    && (forall h :: h in holds ==> !holds[h].name.Unborn? && (holds[h].name.Released? ==> holds[h].disposition.Some?))
  }

  /** The insertion order lists every hold once. */
  ghost predicate OrderAgrees(order: seq<Id>, known: set<Id>) {
    Distinct(order) && forall h :: h in order <==> h in known
  }

  /** `open` is exactly the unreleased holds keyed by their recorded delta. */
  ghost predicate OpenAgrees(open: map<Delta, Id>, holdDelta: map<Id, Delta>, released: set<Id>) {
    && (forall d :: d in open ==> open[d] in holdDelta && holdDelta[open[d]] == d && open[d] !in released)
    && (forall h :: h in holdDelta && h !in released ==> holdDelta[h] in open && open[holdDelta[h]] == h)
  }

  /** The naming of holds: occurrence k of delta d. */
  type Naming = (Delta, nat) -> Id

  function NamingOf(hash: Digest, base: string): Naming {
    (d: Delta, k: nat) => HoldIdOf(hash, base, d, k)
  }

  ghost predicate NamesApart(id: Naming) {
    forall d, k, d', k' :: Clean(d) && Clean(d') && id(d, k) == id(d', k') ==> d == d' && k == k'
  }

  /** The released holds of a delta are its occurrences below the terminal count, and its
      open hold, if any, is the occurrence at the count. */
  ghost predicate OccurrencesAgree(id: Naming, terminal: map<Delta, nat>, open: map<Delta, Id>,
                                   holdDelta: map<Id, Delta>, released: set<Id>)
  {
    && (forall d, k: nat :: k < CountOf(terminal, d) ==>
          id(d, k) in released && id(d, k) in holdDelta && holdDelta[id(d, k)] == d)
    && (forall h :: h in released ==>
          h in holdDelta && exists k: nat :: k < CountOf(terminal, holdDelta[h]) && h == id(holdDelta[h], k))
    && (forall d :: d in open ==> open[d] == id(d, CountOf(terminal, d)))
  }

  /** Every delivery is listed under exactly one hold, once, agreeing with the index. */
  ghost predicate DeliveriesAgree(index: map<Id, Id>, deliveries: map<Id, seq<Id>>, known: set<Id>) {
    && (forall x :: x in index ==> index[x] in known && index[x] in deliveries && x in deliveries[index[x]])
    && (forall h :: h in deliveries ==> h in known && Distinct(deliveries[h]))
    && (forall h, x :: h in deliveries && x in deliveries[h] ==> x in index && index[x] == h)
  }

  /** Releases without an operator happen only in separated runs, on holds with a recorded
      delivery, and never on a hold whose release an operator refused. */
  ghost predicate ReleasesAreSafe(mode: CredentialMode, holds: map<Id, MachineB>, refused: set<Id>,
                                  deliveries: map<Id, seq<Id>>)
  {
    && refused <= holds.Keys
    && (forall h :: h in holds && holds[h] == AUTO_RELEASED ==>
          mode.Separated? && h !in refused && h in deliveries && deliveries[h] != [])
  }

  /** The part of the invariant about holds, deltas and occurrences. */
  ghost predicate HoldsAgree(id: Naming, b: Book) {
    && KeysAgree(b.holds, b.holdDelta)
    && OpenAgrees(b.openByDelta, b.holdDelta, ReleasedOf(b.holds))
    && OccurrencesAgree(id, b.terminalCount, b.openByDelta, b.holdDelta, ReleasedOf(b.holds))
    && |b.openByDelta| <= OPEN_HOLD_ADMISSION_CEILING
  }

  /** The part of the invariant about the order and the deliveries. */
  ghost predicate ListsAgree(mode: CredentialMode, b: Book) {
    && OrderAgrees(b.order, b.holds.Keys)
    && DeliveriesAgree(b.deliveryIndex, b.deliveries, b.holds.Keys)
    && ReleasesAreSafe(mode, b.holds, b.rejectRestored, b.deliveries)
  }

  ghost predicate BookInv(id: Naming, mode: CredentialMode, b: Book) {
    HoldsAgree(id, b) && ListsAgree(mode, b)
  }

  lemma EmptyBookInv(id: Naming, mode: CredentialMode)
    ensures BookInv(id, mode, EMPTY_BOOK)
  {
    assert ReleasedOf(EMPTY_BOOK.holds) == {};
    assert forall d :: CountOf(EMPTY_BOOK.terminalCount, d) == 0;
  }

  lemma NamingIsApart(hash: Digest, base: string)
    requires Injective(hash) && NewlineFree(base)
    ensures NamesApart(NamingOf(hash, base))
  {
    var id := NamingOf(hash, base);
    forall d, k, d', k' | Clean(d) && Clean(d') && id(d, k) == id(d', k') ensures d == d' && k == k' {
      HoldIdInjective(hash, base, d.ref, d.old_, d.new_, k, base, d'.ref, d'.old_, d'.new_, k');
    }
  }

  // ----- the kinds of change -------------------------------------------------

  /** Occurrence `CountOf(terminal, d)` of a delta that has no open hold is unused. */
  lemma CreationFresh(id: Naming, terminal: map<Delta, nat>, open: map<Delta, Id>, holdDelta: map<Id, Delta>,
                      released: set<Id>, d: Delta)
    requires NamesApart(id) && OpenAgrees(open, holdDelta, released)
    requires OccurrencesAgree(id, terminal, open, holdDelta, released) && d !in open
    requires Clean(d) && forall h :: h in holdDelta ==> Clean(holdDelta[h])
    ensures id(d, CountOf(terminal, d)) !in holdDelta
  {
  }

  lemma CreationKeeps(id: Naming, terminal: map<Delta, nat>, open: map<Delta, Id>, holdDelta: map<Id, Delta>,
                      released: set<Id>, d: Delta, h: Id)
    requires OpenAgrees(open, holdDelta, released) && OccurrencesAgree(id, terminal, open, holdDelta, released)
    requires d !in open && h == id(d, CountOf(terminal, d)) && h !in holdDelta
    ensures OpenAgrees(open[d := h], holdDelta[h := d], released)
    ensures OccurrencesAgree(id, terminal, open[d := h], holdDelta[h := d], released)
  {
    var hd := holdDelta[h := d];
    forall g | g in released
      ensures g in hd && exists k: nat :: k < CountOf(terminal, hd[g]) && g == id(hd[g], k)
    {
      assert g in holdDelta && hd[g] == holdDelta[g];
    }
  }

  lemma OpenAfterRelease(open: map<Delta, Id>, holdDelta: map<Id, Delta>, released: set<Id>, h: Id)
    requires OpenAgrees(open, holdDelta, released) && h in holdDelta && h !in released
    ensures OpenAgrees(open - {holdDelta[h]}, holdDelta, released + {h})
  {
  }

  lemma OccurrencesAfterRelease(id: Naming, terminal: map<Delta, nat>, open: map<Delta, Id>, holdDelta: map<Id, Delta>,
                                released: set<Id>, h: Id, d: Delta)
    requires OccurrencesAgree(id, terminal, open, holdDelta, released)
    requires h in holdDelta && holdDelta[h] == d && d in open && open[d] == h
    ensures OccurrencesAgree(id, terminal[d := CountOf(terminal, d) + 1], open - {d}, holdDelta, released + {h})
  {
    var n := CountOf(terminal, d);
    var after := terminal[d := n + 1];
    forall g | g in released + {h}
      ensures g in holdDelta && exists k: nat :: k < CountOf(after, holdDelta[g]) && g == id(holdDelta[g], k)
    {
      if g != h {
        var k: nat :| k < CountOf(terminal, holdDelta[g]) && g == id(holdDelta[g], k);
        assert k < CountOf(after, holdDelta[g]);
      } else {
        assert h == id(d, n) && n < CountOf(after, d);
      }
    }
  }

  lemma DeliveryKeeps(index: map<Id, Id>, deliveries: map<Id, seq<Id>>, known: set<Id>, h: Id, x: Id)
    requires DeliveriesAgree(index, deliveries, known) && h in known && x !in index
    ensures var before := if h in deliveries then deliveries[h] else [];
            DeliveriesAgree(index[x := h], deliveries[h := before + [x]], known)
  {
    var before := if h in deliveries then deliveries[h] else [];
    var after := before + [x];
    assert after[|before|] == x;
    assert forall y :: y in after <==> y in before || y == x;
  }

  // ----- the shape of a step -------------------------------------------------

  /** What a step that moves hold `hid` to `next` has established; `d` is the delta the
      hold is created for when it is new. */
  ghost predicate StepShape(id: Naming, b: Book, d: Delta, hid: Id, next: MachineB)
  {
    if hid in b.holds then
      && (b.holds[hid].name.Released? ==> next == b.holds[hid])
      && !next.name.Unborn?
      && (next.name.Released? ==> next.disposition.Some?)
    else
      && Clean(d)
      && d !in b.openByDelta
      && hid == id(d, TerminalCount(b, d))
      && |b.openByDelta| < OPEN_HOLD_ADMISSION_CEILING
      && next == MachineB(HeldForeign, None)
  }

  /** An automatic release passed every gate. */
  ghost predicate GatedRelease(hash: Digest, mode: CredentialMode, b: Book, base: string, e: HoldEvent, known: set<Id>,
                               hid: Id, next: MachineB)
  {
    hid in b.holds && next == AUTO_RELEASED && b.holds[hid] != AUTO_RELEASED ==>
      e.variant.AutoRelease? && ReleaseGatesPass(hash, mode, b, base, hid, e, known)
  }

  /** What admission has established about the hold an event addresses. */
  ghost predicate AdmissionShape(id: Naming, b: Book, e: HoldEvent, a: Admission) {
    && a.cur == (if a.hid in b.holds then b.holds[a.hid] else GENESIS_B)
    && (a.note.Some? ==> ObservesDelta(e.variant))
    && (a.hid !in b.holds ==>
          && ObservesDelta(e.variant)
          && DeltaOf(e) !in b.openByDelta
          && a.hid == id(DeltaOf(e), TerminalCount(b, DeltaOf(e)))
          && (a.note.None? ==> e.variant.ObserveDelta?))
    && (a.hid in b.holds ==>
          !b.holds[a.hid].name.Unborn? && (b.holds[a.hid].name.Released? ==> b.holds[a.hid].disposition.Some?))
  }

  lemma AdmissionHasShape(hash: Digest, mode: CredentialMode, b: Book, base: string, e: HoldEvent, a: Admission)
    requires Injective(hash) && NewlineFree(base) && BookInv(NamingOf(hash, base), mode, b)
    requires Admit(hash, b, base, e) == Some(a)
    ensures AdmissionShape(NamingOf(hash, base), b, e, a)
  {
    var id := NamingOf(hash, base);
    if ObservesDelta(e.variant) && Resolve(hash, b, base, e).0.Create? {
      NamingIsApart(hash, base);
      var d := DeltaOf(e);
      CreationFresh(id, b.terminalCount, b.openByDelta, b.holdDelta, ReleasedOf(b.holds), d);
      assert id(d, CountOf(b.terminalCount, d)) == HoldIdOf(hash, base, d, TerminalCount(b, d));
    }
  }

  lemma ApplyShape(cur: MachineB, e: HoldEvent, next: MachineB)
    requires ApplyB(cur, e) == Some(next)
    ensures cur.name.Released? ==> next == cur
    ensures !next.name.Unborn?
    ensures next.name.Released? && !cur.name.Released? ==> next.disposition.Some?
    ensures next == AUTO_RELEASED && cur != AUTO_RELEASED ==> e.variant.AutoRelease?
    ensures e.variant.HoldReconcileRejectRestoreHold? ==> !next.name.Released?
    ensures e.variant.ObserveDelta? ==> next == MachineB(HeldForeign, None)
    ensures cur.name.Unborn? ==> e.variant.ObserveDelta?
  {
  }

  lemma NextHasShape(id: Naming, b: Book, e: HoldEvent, a: Admission)
    requires AdmissionShape(id, b, e, a) && !CeilingReached(b, a.hid) && NextState(a, e).Some?
    ensures StepShape(id, b, DeltaFor(e), a.hid, NextState(a, e).value)
    ensures a.hid in b.holds && NextState(a, e).value == AUTO_RELEASED && b.holds[a.hid] != AUTO_RELEASED ==>
            e.variant.AutoRelease?
    ensures e.variant.HoldReconcileRejectRestoreHold? ==> a.hid in b.holds && !NextState(a, e).value.name.Released?
  {
    if a.note.None? {
      ApplyShape(a.cur, e, NextState(a, e).value);
    }
  }

  /** The delta an event would create a hold for; immaterial on the other rows. */
  function DeltaFor(e: HoldEvent): Delta {
    if ObservesDelta(e.variant) then DeltaOf(e) else Delta("", "", "")
  }

  /** The book with the hold moved, its deliveries aside. */
  function Moved(b: Book, hid: Id, d: Delta, next: MachineB): Book {
    var moved := b.holds[hid := next];
    if hid !in b.holds then Opened(b, hid, d).(holds := moved)
    else if !b.holds[hid].name.Released? && next.name.Released? then Closed(b, hid).(holds := moved)
    else b.(holds := moved)
  }

  lemma CloseAndDeliver(b: Book, hid: Id, delivery: Option<Id>)
    ensures Closed(Delivered(b, hid, delivery), hid) == Delivered(Closed(b, hid), hid, delivery)
  {
  }

  /** Recording a delivery and setting the machine states do not interfere. */
  lemma HoldsOnlyThere(b: Book, hid: Id, delivery: Option<Id>, next: MachineB)
    ensures var closed := Closed(b, hid);
            Delivered(closed, hid, delivery).(holds := Delivered(closed, hid, delivery).holds[hid := next])
            == Delivered(closed.(holds := b.holds[hid := next]), hid, delivery)
  {
  }

  lemma OutcomeIsMove(b: Book, hid: Id, e: HoldEvent, cur: MachineB, next: MachineB)
    requires hid in b.holds || (ObservesDelta(e.variant) && !next.name.Released?)
    requires cur == if hid in b.holds then b.holds[hid] else GENESIS_B
    ensures RecordOutcome(b, hid, e, cur, next) == Delivered(Moved(b, hid, DeltaFor(e), next), hid, e.delivery)
  {
    hide HoldOk;
    if hid in b.holds && !cur.name.Released? && next.name.Released? {
      hide Delivered, Closed;
      CloseAndDeliver(b, hid, e.delivery);
      HoldsOnlyThere(b, hid, e.delivery, next);
    }
  }

  function Annotated(b: Book, notes: seq<Note>, refused: set<Id>): Book {
    b.(notes := notes, rejectRestored := b.rejectRestored + refused)
  }

  /** A step that was not refused, without its checks: the admitted hold, and either the
      journalled book or the recorded outcome. */
  lemma StepUnfolds(hash: Digest, mode: CredentialMode, b: Book, base: string, e: HoldEvent, known: set<Id>,
                    a: Admission)
    requires StepB(hash, mode, b, base, e, known).Ok? && Admit(hash, b, base, e) == Some(a)
    ensures !CeilingReached(b, a.hid)
    ensures var after := StepB(hash, mode, b, base, e, known).value;
            var notes := if a.note.Some? then b.notes + [a.note.value] else b.notes;
            var refused := if e.variant.HoldReconcileRejectRestoreHold? then {a.hid} else {};
            if CheckPreconditions(a, e).IdentityReplay? then a.cur.name.Released? && after == b.(notes := notes)
            else
              && (e.variant.AutoRelease? ==> ReleaseGatesPass(hash, mode, b, base, a.hid, e, known))
              && NextState(a, e).Some?
              && after == RecordOutcome(Annotated(b, notes, refused), a.hid, e, a.cur, NextState(a, e).value)
  {
    assert b.rejectRestored + {} == b.rejectRestored;
  }

  /** The change an accepted step makes. */
  datatype Change = Change(hid: Id, delta: Delta, next: MachineB, delivery: Option<Id>, notes: seq<Note>,
                           refused: set<Id>)

  /** The two forms an accepted step can take: it only journals, or it moves one hold and
      records at most one delivery on it. */
  ghost predicate StepResult(id: Naming, b: Book, c: Change, after: Book) {
    && StepShape(id, b, c.delta, c.hid, c.next)
    && c.refused <= {c.hid}
    && (c.refused != {} ==> c.hid in b.holds && !c.next.name.Released?)
    && (|| (c.hid in b.holds && c.next == b.holds[c.hid] && c.refused == {} && after == Annotated(b, c.notes, {}))
        || after == Delivered(Moved(Annotated(b, c.notes, c.refused), c.hid, c.delta, c.next), c.hid, c.delivery))
  }

  /** The change an event that was not an identity replay makes. */
  function ProceedChange(b: Book, e: HoldEvent, a: Admission, next: MachineB): Change {
    Change(a.hid, DeltaFor(e), next, e.delivery,
           if a.note.Some? then b.notes + [a.note.value] else b.notes,
           if e.variant.HoldReconcileRejectRestoreHold? then {a.hid} else {})
  }

  /** The change an identity replay makes: none but a note. */
  function ReplayChange(b: Book, e: HoldEvent, a: Admission): Change {
    Change(a.hid, DeltaFor(e), a.cur, None, if a.note.Some? then b.notes + [a.note.value] else b.notes, {})
  }

  lemma ReplayHasShape(id: Naming, b: Book, e: HoldEvent, a: Admission, after: Book)
    requires AdmissionShape(id, b, e, a) && a.cur.name.Released?
    requires after == b.(notes := ReplayChange(b, e, a).notes)
    ensures StepResult(id, b, ReplayChange(b, e, a), after)
  {
    hide HoldOk;
    assert b.rejectRestored + {} == b.rejectRestored;
  }

  lemma ProceedHasShape(id: Naming, b: Book, e: HoldEvent, a: Admission, next: MachineB, after: Book)
    requires AdmissionShape(id, b, e, a) && !CeilingReached(b, a.hid) && NextState(a, e) == Some(next)
    requires var c := ProceedChange(b, e, a, next);
             after == RecordOutcome(Annotated(b, c.notes, c.refused), a.hid, e, a.cur, next)
    ensures StepResult(id, b, ProceedChange(b, e, a, next), after)
  {
    hide HoldOk, NextState, RecordOutcome, Moved, Delivered, CeilingReached;
    var c := ProceedChange(b, e, a, next);
    NextHasShape(id, b, e, a);
    assert StepShape(id, b, c.delta, c.hid, c.next);
    hide StepShape;
    OutcomeIsMove(Annotated(b, c.notes, c.refused), a.hid, e, a.cur, next);
  }

  lemma StepHasShape(hash: Digest, mode: CredentialMode, b: Book, base: string, e: HoldEvent, known: set<Id>,
                     id: Naming, a: Admission)
    returns (c: Change)
    requires Admit(hash, b, base, e) == Some(a) && AdmissionShape(id, b, e, a)
    requires StepB(hash, mode, b, base, e, known).Ok?
    ensures StepResult(id, b, c, StepB(hash, mode, b, base, e, known).value)
    ensures GatedRelease(hash, mode, b, base, e, known, c.hid, c.next)
    ensures c.hid == a.hid
    ensures e.variant.HoldReconcileRejectRestoreHold? ==> c.refused == {c.hid}
  {
    hide StepB, Admit, HoldOk, RecordOutcome, ReleaseGatesPass, StepResult, Annotated;
    StepUnfolds(hash, mode, b, base, e, known, a);
    var after := StepB(hash, mode, b, base, e, known).value;
    if CheckPreconditions(a, e).IdentityReplay? {
      c := ReplayChange(b, e, a);
      ReplayHasShape(id, b, e, a, after);
    } else {
      var next := NextState(a, e).value;
      c := ProceedChange(b, e, a, next);
      NextHasShape(id, b, e, a);
      ProceedHasShape(id, b, e, a, next, after);
    }
  }

  // ----- preservation --------------------------------------------------------

  lemma KeysAfterMove(holds: map<Id, MachineB>, holdDelta: map<Id, Delta>, hid: Id, next: MachineB)
    requires KeysAgree(holds, holdDelta) && hid in holds
    requires !next.name.Unborn? && (next.name.Released? ==> next.disposition.Some?)
    ensures KeysAgree(holds[hid := next], holdDelta)
    ensures holds[hid].name.Released? == next.name.Released? ==> ReleasedOf(holds[hid := next]) == ReleasedOf(holds)
    ensures next.name.Released? ==> ReleasedOf(holds[hid := next]) == ReleasedOf(holds) + {hid}
  {
  }

  lemma KeysAfterCreate(holds: map<Id, MachineB>, holdDelta: map<Id, Delta>, hid: Id, d: Delta)
    requires KeysAgree(holds, holdDelta) && hid !in holds && Clean(d)
    ensures KeysAgree(holds[hid := MachineB(HeldForeign, None)], holdDelta[hid := d])
    ensures ReleasedOf(holds[hid := MachineB(HeldForeign, None)]) == ReleasedOf(holds)
  {
  }

  lemma CreateKeeps(id: Naming, b: Book, d: Delta, hid: Id, c: Book)
    requires HoldsAgree(id, b) && d !in b.openByDelta && |b.openByDelta| < OPEN_HOLD_ADMISSION_CEILING
    requires hid == id(d, TerminalCount(b, d)) && hid !in b.holds && Clean(d)
    requires c == Opened(b, hid, d).(holds := b.holds[hid := MachineB(HeldForeign, None)])
    ensures HoldsAgree(id, c)
  {
    KeysAfterCreate(b.holds, b.holdDelta, hid, d);
    CreationKeeps(id, b.terminalCount, b.openByDelta, b.holdDelta, ReleasedOf(b.holds), d, hid);
    assert |c.openByDelta| == |b.openByDelta| + 1;
  }

  lemma ClosedFields(b: Book, hid: Id, next: MachineB, c: Book, d: Delta)
    requires hid in b.holdDelta && b.holdDelta[hid] == d
    requires c == Closed(b, hid).(holds := b.holds[hid := next])
    ensures c.holds == b.holds[hid := next] && c.holdDelta == b.holdDelta
    ensures c.openByDelta == b.openByDelta - {d}
    ensures c.terminalCount == b.terminalCount[d := CountOf(b.terminalCount, d) + 1]
    ensures |c.openByDelta| <= |b.openByDelta|
  {
    assert c.openByDelta.Keys == b.openByDelta.Keys - {d};
  }

  lemma CloseKeeps(id: Naming, b: Book, hid: Id, next: MachineB, c: Book)
    requires HoldsAgree(id, b)
    requires hid in b.holds && !b.holds[hid].name.Released? && next.name.Released? && next.disposition.Some?
    requires c == Closed(b, hid).(holds := b.holds[hid := next])
    ensures HoldsAgree(id, c)
  {
    var d := b.holdDelta[hid];
    var before, after := ReleasedOf(b.holds), ReleasedOf(c.holds);
    ClosedFields(b, hid, next, c, d);
    assert KeysAgree(c.holds, c.holdDelta) && after == before + {hid} by {
      KeysAfterMove(b.holds, b.holdDelta, hid, next);
    }
    assert OpenAgrees(c.openByDelta, c.holdDelta, after) by {
      OpenAfterRelease(b.openByDelta, b.holdDelta, before, hid);
    }
    OccurrencesAfterClose(id, b, hid, d, c, before, after);
  }

  lemma OccurrencesAfterClose(id: Naming, b: Book, hid: Id, d: Delta, c: Book, before: set<Id>, after: set<Id>)
    requires OccurrencesAgree(id, b.terminalCount, b.openByDelta, b.holdDelta, before)
    requires hid in b.holdDelta && b.holdDelta[hid] == d && d in b.openByDelta && b.openByDelta[d] == hid
    requires after == before + {hid} && c.holdDelta == b.holdDelta && c.openByDelta == b.openByDelta - {d}
    requires c.terminalCount == b.terminalCount[d := CountOf(b.terminalCount, d) + 1]
    ensures OccurrencesAgree(id, c.terminalCount, c.openByDelta, c.holdDelta, after)
  {
    OccurrencesAfterRelease(id, b.terminalCount, b.openByDelta, b.holdDelta, before, hid, d);
  }

  lemma RestateKeeps(id: Naming, b: Book, hid: Id, next: MachineB, c: Book)
    requires HoldsAgree(id, b)
    requires hid in b.holds && !next.name.Unborn? && (b.holds[hid].name.Released? <==> next.name.Released?)
    requires next.name.Released? ==> next.disposition.Some?
    requires c == b.(holds := b.holds[hid := next])
    ensures HoldsAgree(id, c)
  {
    KeysAfterMove(b.holds, b.holdDelta, hid, next);
  }

  lemma MovedKeepsHolds(id: Naming, b: Book, d: Delta, hid: Id, next: MachineB, c: Book)
    requires HoldsAgree(id, b) && StepShape(id, b, d, hid, next)
    requires c == Moved(b, hid, d, next)
    ensures HoldsAgree(id, c)
  {
    if hid !in b.holds {
      CreateKeeps(id, b, d, hid, c);
    } else if !b.holds[hid].name.Released? && next.name.Released? {
      CloseKeeps(id, b, hid, next, c);
    } else {
      RestateKeeps(id, b, hid, next, c);
    }
  }

  lemma OrderAfterCreate(order: seq<Id>, known: set<Id>, hid: Id)
    requires OrderAgrees(order, known) && hid !in known
    ensures OrderAgrees(order + [hid], known + {hid})
  {
  }

  lemma MovedFields(b: Book, d: Delta, hid: Id, next: MachineB, c: Book)
    requires c == Moved(b, hid, d, next)
    ensures c.holds == b.holds[hid := next] && c.holds.Keys == b.holds.Keys + {hid}
    ensures c.order == if hid in b.holds then b.order else b.order + [hid]
    ensures c.deliveries == b.deliveries && c.deliveryIndex == b.deliveryIndex && c.rejectRestored == b.rejectRestored
    ensures c.notes == b.notes
    ensures c.holdDelta == if hid in b.holds then b.holdDelta else b.holdDelta[hid := d]
  {
  }

  lemma DeliveriesGrowKnown(index: map<Id, Id>, deliveries: map<Id, seq<Id>>, known: set<Id>, hid: Id)
    requires DeliveriesAgree(index, deliveries, known)
    ensures DeliveriesAgree(index, deliveries, known + {hid})
  {
  }

  lemma SafeAfterMove(mode: CredentialMode, holds: map<Id, MachineB>, refused: set<Id>, deliveries: map<Id, seq<Id>>,
                      hid: Id, next: MachineB)
    requires ReleasesAreSafe(mode, holds, refused, deliveries)
    requires next == AUTO_RELEASED ==> mode.Separated? && hid !in refused && hid in deliveries && deliveries[hid] != []
    ensures ReleasesAreSafe(mode, holds[hid := next], refused, deliveries)
  {
  }

  lemma MovedKeepsLists(mode: CredentialMode, b: Book, d: Delta, hid: Id, next: MachineB, c: Book)
    requires ListsAgree(mode, b)
    requires next == AUTO_RELEASED ==>
               mode.Separated? && hid !in b.rejectRestored && hid in b.deliveries && b.deliveries[hid] != []
    requires c == Moved(b, hid, d, next)
    ensures ListsAgree(mode, c)
  {
    MovedFields(b, d, hid, next, c);
    assert OrderAgrees(c.order, c.holds.Keys) by {
      if hid !in b.holds {
        OrderAfterCreate(b.order, b.holds.Keys, hid);
      } else {
        assert c.holds.Keys == b.holds.Keys;
      }
    }
    assert DeliveriesAgree(c.deliveryIndex, c.deliveries, c.holds.Keys) by {
      DeliveriesGrowKnown(b.deliveryIndex, b.deliveries, b.holds.Keys, hid);
    }
    SafeAfterMove(mode, b.holds, b.rejectRestored, b.deliveries, hid, next);
  }

  lemma AnnotatedKeeps(id: Naming, mode: CredentialMode, b: Book, notes: seq<Note>, refused: set<Id>)
    requires BookInv(id, mode, b) && refused <= b.holds.Keys
    requires forall h :: h in refused ==> b.holds[h] != AUTO_RELEASED
    ensures BookInv(id, mode, Annotated(b, notes, refused))
  {
    SafeAfterRefusal(mode, b.holds, b.rejectRestored, b.deliveries, refused);
  }

  lemma SafeAfterRefusal(mode: CredentialMode, holds: map<Id, MachineB>, refused: set<Id>, deliveries: map<Id, seq<Id>>,
                         more: set<Id>)
    requires ReleasesAreSafe(mode, holds, refused, deliveries) && more <= holds.Keys
    requires forall h :: h in more ==> holds[h] != AUTO_RELEASED
    ensures ReleasesAreSafe(mode, holds, refused + more, deliveries)
  {
  }

  lemma DeliveredFields(b: Book, hid: Id, delivery: Option<Id>, c: Book)
    requires c == Delivered(b, hid, delivery)
    ensures c == b.(deliveryIndex := c.deliveryIndex, deliveries := c.deliveries)
    ensures delivery.None? || delivery.value in b.deliveryIndex ==> c == b
    ensures delivery.Some? && delivery.value !in b.deliveryIndex ==>
              c.deliveryIndex == b.deliveryIndex[delivery.value := hid] &&
              c.deliveries == b.deliveries[hid := DeliveriesOf(b, hid) + [delivery.value]]
  {
  }

  lemma DeliveredKeeps(id: Naming, mode: CredentialMode, b: Book, hid: Id, delivery: Option<Id>, c: Book)
    requires BookInv(id, mode, b) && hid in b.holds && c == Delivered(b, hid, delivery)
    ensures BookInv(id, mode, c)
  {
    hide KeysAgree, OpenAgrees, OccurrencesAgree, OrderAgrees, DeliveriesAgree, Delivered;
    DeliveredFields(b, hid, delivery, c);
    if delivery.Some? && delivery.value !in b.deliveryIndex {
      DeliveryKeeps(b.deliveryIndex, b.deliveries, b.holds.Keys, hid, delivery.value);
    }
  }

  /** The hold-book invariant survives every accepted step. */
  lemma StepKeepsInv(hash: Digest, mode: CredentialMode, b: Book, base: string, e: HoldEvent, known: set<Id>)
    requires Injective(hash) && NewlineFree(base) && BookInv(NamingOf(hash, base), mode, b)
    requires StepB(hash, mode, b, base, e, known).Ok?
    ensures BookInv(NamingOf(hash, base), mode, StepB(hash, mode, b, base, e, known).value)
  {
    var id := NamingOf(hash, base);
    var a := Admit(hash, b, base, e).value;
    AdmissionHasShape(hash, mode, b, base, e, a);
    var c := StepHasShape(hash, mode, b, base, e, known, id, a);
    ResultKeepsInv(id, mode, b, c, StepB(hash, mode, b, base, e, known).value);
  }

  lemma ResultKeepsInv(id: Naming, mode: CredentialMode, b: Book, c: Change, after: Book)
    requires BookInv(id, mode, b) && StepResult(id, b, c, after)
    requires c.hid in b.holds && c.next == AUTO_RELEASED && b.holds[c.hid] != AUTO_RELEASED ==>
               mode.Separated? && c.hid !in b.rejectRestored && c.hid in b.deliveries && b.deliveries[c.hid] != []
    ensures BookInv(id, mode, after)
  {
    hide KeysAgree, OpenAgrees, OccurrencesAgree, OrderAgrees, DeliveriesAgree, Delivered, Moved;
    var noted := Annotated(b, c.notes, c.refused);
    assert forall h :: h in c.refused ==> h == c.hid;
    assert c.refused <= b.holds.Keys && (c.hid in c.refused ==> b.holds[c.hid] != AUTO_RELEASED);
    AnnotatedKeeps(id, mode, b, c.notes, c.refused);
    if after != noted {
      var moved := Moved(noted, c.hid, c.delta, c.next);
      assert StepShape(id, noted, c.delta, c.hid, c.next);
      MovedKeepsHolds(id, noted, c.delta, c.hid, c.next, moved);
      MovedKeepsLists(mode, noted, c.delta, c.hid, c.next, moved);
      MovedFields(noted, c.delta, c.hid, c.next, moved);
      DeliveredKeeps(id, mode, moved, c.hid, c.delivery, after);
    }
  }

  // ----- what a step may change ----------------------------------------------

  /** Facts no step ever undoes: holds and their deltas persist, a released hold keeps its
      disposition, a delivery keeps its hold, a refusal is never forgotten. */
  ghost predicate BookGrows(b: Book, c: Book) {
    && (forall h :: h in b.holds ==> h in c.holds && (b.holds[h].name.Released? ==> c.holds[h] == b.holds[h]))
    && (forall h :: h in b.holdDelta ==> h in c.holdDelta && c.holdDelta[h] == b.holdDelta[h])
    && (forall x :: x in b.deliveryIndex ==> x in c.deliveryIndex && c.deliveryIndex[x] == b.deliveryIndex[x])
    && b.rejectRestored <= c.rejectRestored
    && b.order <= c.order
  }

  lemma BookGrowsTransitive(a: Book, b: Book, c: Book)
    requires BookGrows(a, b) && BookGrows(b, c)
    ensures BookGrows(a, c)
  {
    assert c.order[..|a.order|] == b.order[..|a.order|];
  }

  /** What every accepted step leaves of the book it started from. */
  lemma ResultFields(id: Naming, b: Book, c: Change, after: Book)
    requires StepResult(id, b, c, after)
    ensures after.holds == b.holds[c.hid := c.next]
    ensures after.rejectRestored == b.rejectRestored + c.refused
    ensures after.holdDelta == if c.hid in b.holds then b.holdDelta else b.holdDelta[c.hid := c.delta]
    ensures after.order == if c.hid in b.holds then b.order else b.order + [c.hid]
    ensures after.deliveryIndex == b.deliveryIndex ||
            (c.delivery.Some? && c.delivery.value !in b.deliveryIndex &&
             after.deliveryIndex == b.deliveryIndex[c.delivery.value := c.hid])
  {
    var noted := Annotated(b, c.notes, c.refused);
    if after == Delivered(Moved(noted, c.hid, c.delta, c.next), c.hid, c.delivery) {
      var moved := Moved(noted, c.hid, c.delta, c.next);
      MovedFields(noted, c.delta, c.hid, c.next, moved);
      DeliveredFields(moved, c.hid, c.delivery, after);
    } else {
      assert after.holds == b.holds[c.hid := c.next];
    }
  }

  lemma ResultGrows(id: Naming, b: Book, c: Change, after: Book)
    requires KeysAgree(b.holds, b.holdDelta) && StepResult(id, b, c, after)
    ensures BookGrows(b, after)
  {
    ResultFields(id, b, c, after);
  }

  /** Nothing a step settles is ever unsettled. */
  lemma StepGrows(hash: Digest, mode: CredentialMode, b: Book, base: string, e: HoldEvent, known: set<Id>)
    requires Injective(hash) && NewlineFree(base) && BookInv(NamingOf(hash, base), mode, b)
    requires StepB(hash, mode, b, base, e, known).Ok?
    ensures BookGrows(b, StepB(hash, mode, b, base, e, known).value)
  {
    var id := NamingOf(hash, base);
    var a := Admit(hash, b, base, e).value;
    AdmissionHasShape(hash, mode, b, base, e, a);
    var c := StepHasShape(hash, mode, b, base, e, known, id, a);
    ResultGrows(id, b, c, StepB(hash, mode, b, base, e, known).value);
  }

  /** Every automatic release passed every gate, on a hold that already existed. */
  lemma AutoReleaseIsGated(hash: Digest, mode: CredentialMode, b: Book, base: string, e: HoldEvent, known: set<Id>,
                           h: Id)
    requires Injective(hash) && NewlineFree(base) && BookInv(NamingOf(hash, base), mode, b)
    requires StepB(hash, mode, b, base, e, known).Ok?
    requires var after := StepB(hash, mode, b, base, e, known).value;
             h in after.holds && after.holds[h] == AUTO_RELEASED && (h in b.holds ==> b.holds[h] != AUTO_RELEASED)
    ensures h in b.holds && e.variant.AutoRelease? && ReleaseGatesPass(hash, mode, b, base, h, e, known)
  {
    var id := NamingOf(hash, base);
    var after := StepB(hash, mode, b, base, e, known).value;
    var a := Admit(hash, b, base, e).value;
    AdmissionHasShape(hash, mode, b, base, e, a);
    var c := StepHasShape(hash, mode, b, base, e, known, id, a);
    ResultFields(id, b, c, after);
  }

  /** An operator's refusal is remembered from the step that made it. */
  lemma RefusalIsRemembered(hash: Digest, mode: CredentialMode, b: Book, base: string, e: HoldEvent, known: set<Id>)
    requires Injective(hash) && NewlineFree(base) && BookInv(NamingOf(hash, base), mode, b)
    requires StepB(hash, mode, b, base, e, known).Ok? && e.variant.HoldReconcileRejectRestoreHold?
    ensures e.holdId.value in StepB(hash, mode, b, base, e, known).value.rejectRestored
  {
    hide BookInv, HoldOk, Delivered, Moved;
    var id := NamingOf(hash, base);
    var a := Admit(hash, b, base, e).value;
    AdmissionHasShape(hash, mode, b, base, e, a);
    var c := StepHasShape(hash, mode, b, base, e, known, id, a);
    ResultFields(id, b, c, StepB(hash, mode, b, base, e, known).value);
  }
}
