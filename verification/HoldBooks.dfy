/** The hold book as the walk mutates it in place, proved against the step on values. */
module HoldBooks {
  import opened Wrappers
  import opened Text
  import opened Wire
  import opened Schema
  import opened Events
  import opened SectionB

  /** A list that is appended to in place, so that whoever shares it sees the append. */
  class DeliveryList {
    var items: seq<Id>

    constructor (items: seq<Id>)
      ensures this.items == items
    {
      this.items := items;
    }

    method Append(delivery: Id)
      modifies this
      ensures items == old(items) + [delivery]
    {
      items := items + [delivery];
    }
  }

  function ListViews(lists: map<Id, DeliveryList>): map<Id, seq<Id>>
    reads lists.Values
  {
    map h | h in lists :: lists[h].items
  }

  /** No two holds share a list. */
  ghost predicate Unshared(lists: map<Id, DeliveryList>) {
    forall h, k :: h in lists && k in lists && h != k ==> lists[h] != lists[k]
  }

  /** New lists with the same contents. */
  method CopyLists(lists: map<Id, DeliveryList>) returns (copy: map<Id, DeliveryList>)
    ensures Unshared(copy) && fresh(copy.Values)
    ensures ListViews(copy) == ListViews(lists)
  {
    copy := map[];
    var rest := lists.Keys;
    while rest != {}
      invariant rest <= lists.Keys && copy.Keys == lists.Keys - rest
      invariant Unshared(copy)
      invariant forall h :: h in copy ==> fresh(copy[h]) && copy[h].items == lists[h].items
    {
      var hid :| hid in rest;
      var list := new DeliveryList(lists[hid].items);
      copy := copy[hid := list];
      rest := rest - {hid};
    }
  }

  /** Append in place, to a new list when the hold has none: one entry changes, for nobody
      shares the list. */
  method AppendTo(lists: map<Id, DeliveryList>, hid: Id, delivery: Id) returns (all: map<Id, DeliveryList>)
    requires Unshared(lists)
    modifies lists.Values
    ensures Unshared(all) && fresh(all.Values - lists.Values)
    ensures var was := old(ListViews(lists));
            ListViews(all) == was[hid := (if hid in was then was[hid] else []) + [delivery]]
  {
    all := lists;
    if hid !in all {
      var list := new DeliveryList([]);
      all := all[hid := list];
    }
    all[hid].Append(delivery);
  }

  /** The checks between admission and bookkeeping: a refusal, a replay that changes no state,
      or the state to enter. None of them reads the journal. */
  function Checks(hash: Digest, mode: CredentialMode, book: Book, base: string, a: Admission, e: HoldEvent,
                  known: set<Id>):
    Result<Option<MachineB>, Code>
  {
    if CeilingReached(book, a.hid) then Err(HoldAdmissionCeiling)
    else
      var pre := CheckPreconditions(a, e);
      if pre.Refuse? then Err(IllegalTransition)
      else if pre.IdentityReplay? then Ok(None)
      else if e.variant.AutoRelease? && !ReleaseGatesPass(hash, mode, book, base, a.hid, e, known)
        then Err(IllegalTransition)
      else if NextState(a, e).None? then Err(IllegalTransition)
      else Ok(NextState(a, e))
  }

  function Noted(book: Book, note: Option<Note>): Book {
    if note.Some? then book.(notes := book.notes + [note.value]) else book
  }

  function Taken(book: Book, a: Admission, e: HoldEvent, next: MachineB): Book
    requires a.hid in book.holds || ObservesDelta(e.variant)
  {
    RecordOutcome(if e.variant.HoldReconcileRejectRestoreHold?
                  then book.(rejectRestored := book.rejectRestored + {a.hid}) else book,
                  a.hid, e, a.cur, next)
  }

  lemma StepInParts(hash: Digest, mode: CredentialMode, book: Book, base: string, e: HoldEvent, known: set<Id>)
    requires e.mode == mode && EpochOkB(e) && Admit(hash, book, base, e).Some?
    requires var a := Admit(hash, book, base, e).value; a.hid in book.holds || ObservesDelta(e.variant)
    ensures var a := Admit(hash, book, base, e).value;
            StepB(hash, mode, book, base, e, known) ==
            match Checks(hash, mode, book, base, a, e, known)
            case Err(code) => Err(code)
            case Ok(next) => Ok(if next.None? then Noted(book, a.note)
                                else Taken(Noted(book, a.note), a, e, next.value))
  {
    hide Admit, EpochOkB, CeilingReached, CheckPreconditions, ReleaseGatesPass, NextState, RecordOutcome;
  }

  class HoldBook {
    var deliveryIndex: map<Id, Id>
    var openByDelta: map<Delta, Id>
    var terminalCount: map<Delta, nat>
    var holds: map<Id, MachineB>
    var holdDelta: map<Id, Delta>
    var deliveries: map<Id, DeliveryList>
    var order: seq<Id>
    var notes: seq<Note>
    var rejectRestored: set<Id>

    /** The book as a value. */
    function View(): Book
      reads this, deliveries.Values
    {
      Book(deliveryIndex, openByDelta, terminalCount, holds, holdDelta, ListViews(deliveries), order, notes,
           rejectRestored)
    }

    /** Every object a step of the book may write. */
    ghost function Repr(): set<object>
      reads this
    {
      {this} + deliveries.Values
    }

    ghost predicate Valid()
      reads this
    {
      Unshared(deliveries)
    }

    constructor ()
      ensures Valid() && fresh(Repr())
      ensures View() == EMPTY_BOOK
    {
      deliveryIndex, openByDelta, terminalCount := map[], map[], map[];
      holds, holdDelta, deliveries := map[], map[], map[];
      order, notes, rejectRestored := [], [], {};
    }

    /** A copy a step may mutate freely and the walk may discard: the delivery lists are new
        ones, since an append to a shared list would survive the discard. */
    constructor Copy(book: HoldBook)
      ensures Valid() && fresh(Repr())
      ensures View() == old(book.View())
    {
      var lists := CopyLists(book.deliveries);
      deliveryIndex, openByDelta, terminalCount := book.deliveryIndex, book.openByDelta, book.terminalCount;
      holds, holdDelta, deliveries := book.holds, book.holdDelta, lists;
      order, notes, rejectRestored := book.order, book.notes, book.rejectRestored;
    }

    method Open(hid: Id, delta: Delta)
      requires Valid()
      modifies this`order, this`holdDelta, this`openByDelta
      ensures View() == Opened(old(View()), hid, delta)
    {
      order := order + [hid];
      holdDelta := holdDelta[hid := delta];
      openByDelta := openByDelta[delta := hid];
    }

    /** Index a first-seen delivery and append it to the hold's own list. */
    method Deliver(hid: Id, delivery: Option<Id>)
      requires Valid()
      modifies this`deliveryIndex, this`deliveries, deliveries.Values
      ensures Valid() && fresh(Repr() - old(Repr()))
      ensures View() == Delivered(old(View()), hid, delivery)
    {
      hide ListViews, Unshared;
      if delivery.Some? && delivery.value !in deliveryIndex {
        deliveryIndex := deliveryIndex[delivery.value := hid];
        deliveries := AppendTo(deliveries, hid, delivery.value);
      }
    }

    method Close(hid: Id)
      requires Valid()
      modifies this`openByDelta, this`terminalCount
      ensures View() == Closed(old(View()), hid)
    {
      if hid in holdDelta {
        var delta := holdDelta[hid];
        openByDelta := openByDelta - {delta};
        terminalCount := terminalCount[delta := (if delta in terminalCount then terminalCount[delta] else 0) + 1];
      }
    }

    /** Bookkeeping after a legal step. */
    method RecordOutcomeInPlace(hid: Id, e: HoldEvent, cur: MachineB, next: MachineB)
      requires Valid() && (hid in View().holds || ObservesDelta(e.variant))
      modifies this, deliveries.Values
      ensures Valid() && fresh(Repr() - old(Repr()))
      ensures View() == RecordOutcome(old(View()), hid, e, cur, next)
    {
      hide Opened, Delivered, Closed, ListViews, Unshared, DeltaOf;
      if hid !in holds {
        Open(hid, DeltaOf(e));
      }
      Deliver(hid, e.delivery);
      if !cur.name.Released? && next.name.Released? {
        Close(hid);
      }
      SetHold(hid, next);
      hide View, Repr;
    }

    method SetHold(hid: Id, next: MachineB)
      requires Valid()
      modifies this`holds
      ensures View() == old(View()).(holds := old(View()).holds[hid := next])
    {
      holds := holds[hid := next];
      hide ListViews;
    }

    method AddNote(note: Option<Note>)
      requires Valid()
      modifies this`notes
      ensures Valid() && Repr() == old(Repr())
      ensures View() == Noted(old(View()), note)
    {
      if note.Some? {
        notes := notes + [note.value];
      }
      hide ListViews;
    }

    method MarkRefused(hid: Id)
      requires Valid()
      modifies this`rejectRestored
      ensures Valid() && Repr() == old(Repr())
      ensures View() == old(View()).(rejectRestored := old(View()).rejectRestored + {hid})
    {
      rejectRestored := rejectRestored + {hid};
      hide ListViews;
    }

    /** One section-B step in place. A refusal may leave the book half changed: only a
        discarded copy is ever stepped. */
    method Step(hash: Digest, mode: CredentialMode, base: string, e: HoldEvent, known: set<Id>)
      returns (halt: Option<Code>)
      requires Valid()
      modifies this, deliveries.Values
      ensures Valid() && fresh(Repr() - old(Repr()))
      ensures match StepB(hash, mode, old(View()), base, e, known)
              case Ok(book) => halt == None && View() == book
              case Err(code) => halt == Some(code)
    {
      AdmitKnows(hash, View(), base, e);
      hide View, Unshared, Admit, Checks, ListViews, RecordOutcome, Taken;
      if e.mode != mode || !EpochOkB(e) {
        return Some(IllegalTransition);
      }
      var admitted := Admit(hash, View(), base, e);
      if admitted.None? {
        return Some(IllegalTransition);
      }
      StepInParts(hash, mode, View(), base, e, known);
      hide StepB;
      var a := admitted.value;
      var checks := Checks(hash, mode, View(), base, a, e, known);
      AddNote(a.note);
      if checks.Err? {
        return Some(checks.error);
      }
      if checks.value.Some? {
        Take(a, e, checks.value.value);
      }
      return None;
    }

    /** A step that passed every check. */
    method Take(a: Admission, e: HoldEvent, next: MachineB)
      requires Valid() && (a.hid in View().holds || ObservesDelta(e.variant))
      modifies this, deliveries.Values
      ensures Valid() && fresh(Repr() - old(Repr()))
      ensures View() == Taken(old(View()), a, e, next)
    {
      hide View, RecordOutcome, Unshared;
      if e.variant.HoldReconcileRejectRestoreHold? {
        MarkRefused(a.hid);
      }
      RecordOutcomeInPlace(a.hid, e, a.cur, next);
    }
  }

  /** Why the copy has lists of its own: through a shared list, an append to the copy changes
      the original, whether or not the copy is ever committed. */
  method SharedListLeaks(book: HoldBook, copy: HoldBook, hid: Id, delivery: Id)
    requires hid in book.deliveries && hid in copy.deliveries && copy.deliveries[hid] == book.deliveries[hid]
    modifies copy.deliveries[hid]
    ensures book.View() != old(book.View())
  {
    copy.deliveries[hid].Append(delivery);
    assert |book.View().deliveries[hid]| == |old(book.View()).deliveries[hid]| + 1;
  }
}
