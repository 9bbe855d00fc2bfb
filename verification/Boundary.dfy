/** The public entrypoint: seed the ceiling halts, walk once, fold and report. */
module Boundary {
  import opened Wrappers
  import opened Text
  import opened Wire
  import opened Schema
  import opened Events
  import opened SectionA
  import opened SectionB
  import opened HoldBooks
  import opened Epochs
  import opened Reducer
  import opened Ceilings
  import opened Walk

  // ----- the orders cover the state ------------------------------------------

  /** The insertion orders the report iterates over list exactly what the state holds. */
  ghost predicate Covered(s: State) {
    MovementsCovered(s.aOrder, s.movements) && BooksCovered(s.bOrder, s.books)
  }

  ghost predicate MovementsCovered(order: seq<(string, Id)>, movements: map<string, Movements>) {
    && (forall b, m :: (b, m) in order <==> b in movements && m in movements[b])
    && (forall b :: b in movements ==> movements[b] != map[])
  }

  ghost predicate BooksCovered(order: seq<string>, books: map<string, Book>) {
    && (forall b :: b in order <==> b in books)
    && (forall b :: b in books ==> BookCovered(books[b]))
  }

  ghost predicate BookCovered(book: Book) {
    forall h :: h in book.order <==> h in book.holds
  }

  lemma BookkeepingFields(b: Book, hid: Id, delivery: Option<Id>)
    ensures Delivered(b, hid, delivery).order == b.order && Delivered(b, hid, delivery).holds == b.holds
    ensures Closed(b, hid).order == b.order && Closed(b, hid).holds == b.holds
  {
  }

  lemma OutcomeCovered(b: Book, hid: Id, e: HoldEvent, cur: MachineB, next: MachineB)
    requires BookCovered(b) && (hid in b.holds || ObservesDelta(e.variant))
    ensures BookCovered(RecordOutcome(b, hid, e, cur, next))
  {
    hide HoldOk, Delivered, Closed, DeltaOf;
    var b1 := if hid in b.holds then b else Opened(b, hid, DeltaOf(e));
    BookkeepingFields(b1, hid, e.delivery);
    BookkeepingFields(Delivered(b1, hid, e.delivery), hid, None);
    assert forall h :: h in b.order + [hid] <==> h in b.order || h == hid;
  }

  lemma StepCovered(hash: Digest, mode: CredentialMode, b: Book, base: string, e: HoldEvent, known: set<Id>)
    requires BookCovered(b) && StepB(hash, mode, b, base, e, known).Ok?
    ensures BookCovered(StepB(hash, mode, b, base, e, known).value)
  {
    hide HoldOk, RecordOutcome, NextState, Admit, EpochOkB, CheckPreconditions, CeilingReached, ReleaseGatesPass;
    AdmitKnows(hash, b, base, e);
    var a := Admit(hash, b, base, e).value;
    if NextState(a, e).Some? {
      var next := NextState(a, e).value;
      var noted := if a.note.Some? then b.(notes := b.notes + [a.note.value]) else b;
      OutcomeCovered(noted, a.hid, e, a.cur, next);
      OutcomeCovered(noted.(rejectRestored := noted.rejectRestored + {a.hid}), a.hid, e, a.cur, next);
    }
  }

  lemma MovementAdded(order: seq<(string, Id)>, movements: map<string, Movements>, base: string, mid: Id,
                      machine: MachineA)
    requires MovementsCovered(order, movements)
    ensures var ms := if base in movements then movements[base] else map[];
            MovementsCovered(if mid in ms then order else order + [(base, mid)], movements[base := ms[mid := machine]])
  {
    var ms := if base in movements then movements[base] else map[];
    assert forall x :: x in order + [(base, mid)] <==> x in order || x == (base, mid);
    assert mid in movements[base := ms[mid := machine]][base];
  }

  lemma BookAddedCovered(order: seq<string>, books: map<string, Book>, base: string, book: Book)
    requires BooksCovered(order, books) && BookCovered(book)
    ensures BooksCovered(if base in books then order else order + [base], books[base := book])
  {
    hide BookCovered;
    assert forall x :: x in order + [base] <==> x in order || x == base;
  }

  lemma CommittedCovered(s: State, base: string, ev: Wire, plan: Plan)
    requires Covered(s) && (plan.CommitB? ==> BookCovered(plan.book))
    ensures Covered(Committed(s, base, ev, plan))
  {
    hide WithEdge, BookCovered, MovementsCovered, BooksCovered, HaltBase;
    match plan
    case CommitA(mid, machine, fence) => MovementAdded(s.aOrder, s.movements, base, mid, machine);
    case CommitB(book, fence) => BookAddedCovered(s.bOrder, s.books, base, book);
    case _ =>
  }

  lemma PlanHoldCovered(env: Env, ms: Movements, book: Book, base: string, e: HoldEvent)
    requires BookCovered(book)
    ensures var p := PlanHold(env, ms, book, base, e); p.Halts? || (p.CommitB? && BookCovered(p.book))
  {
    hide StepB, FencePasses, BookCovered, HoldOk;
    if StepB(env.hash, env.mode, book, base, e, ms.Keys).Ok? {
      StepCovered(env.hash, env.mode, book, base, e, ms.Keys);
    }
  }

  lemma PlanEffectKind(ms: Movements, e: EffectEvent)
    ensures var p := PlanEffect(ms, e); p.Halts? || p.CommitA?
  {
    hide StepA, FencePasses, EffectOk;
  }

  lemma ApplyCovered(env: Env, s: State, built: Built, ev: Wire)
    requires Covered(s)
    ensures Covered(Apply(env, s, built, ev))
  {
    hide PlanHold, PlanEffect, BookCovered, Committed, MovementsCovered;
    var base := BaseHint(ev);
    var ms, book := MovementsAt(s, base), BookAt(s, base);
    EmptyBookCovered();
    assert BookCovered(book);
    match built {
      case Single =>
      case Effect(e) => PlanEffectKind(ms, e);
      case Hold(e) => PlanHoldCovered(env, ms, book, base, e);
    }
    hide BooksCovered, Covered;
    CommittedCovered(s, base, ev, PlanOf(env, ms, book, base, built));
  }

  lemma EmptyBookCovered()
    ensures BookCovered(EMPTY_BOOK)
  {
  }

  lemma ConsumeCovered(env: Env, s: State, ev: Wire)
    requires Covered(s)
    ensures Covered(Consume(env, s, ev))
  {
    hide Apply, Check, MovementsCovered, BooksCovered;
    if env.intake(ev).Ok? {
      var r := s.(seen := Registered(env, s.seen, ev));
      assert Covered(r);
      ApplyCovered(env, r, env.intake(ev).value, ev);
    }
  }

  // ----- the report ----------------------------------------------------------

  predicate HasEntry<V>(m: map<string, map<Id, V>>, b: string, k: Id) {
    b in m && k in m[b]
  }

  /** The movement report filled in for the entries visited so far. */
  ghost predicate Reported(out: map<string, map<Id, MovementReport>>, visited: seq<(string, Id)>,
                           movements: map<string, Movements>, halts: map<string, Halt>)
  {
    && (forall b, m :: HasEntry(out, b, m) <==> (b, m) in visited)
    && (forall b :: b in out ==> out[b] != map[])
    && (forall b, m :: HasEntry(out, b, m) ==>
          HasEntry(movements, b, m) && out[b][m] == ReportMovement(halts, b, movements[b][m]))
  }

  lemma EntryAdded<V>(out: map<string, map<Id, V>>, b: string, m: Id, v: V, x: string, y: Id)
    ensures var after := out[b := (if b in out then out[b] else map[])[m := v]];
            && (HasEntry(after, x, y) <==> HasEntry(out, x, y) || (x == b && y == m))
            && (HasEntry(after, x, y) ==> after[x][y] == if x == b && y == m then v else out[x][y])
            && (x in after ==> after[x] != map[] || (x in out && out[x] == map[]))
  {
    var after := out[b := (if b in out then out[b] else map[])[m := v]];
    assert m in after[b];
  }

  lemma ReportedSnoc(out: map<string, map<Id, MovementReport>>, visited: seq<(string, Id)>,
                     movements: map<string, Movements>, halts: map<string, Halt>, b: string, m: Id,
                     report: MovementReport)
    requires Reported(out, visited, movements, halts) && HasEntry(movements, b, m)
    requires report == ReportMovement(halts, b, movements[b][m])
    ensures Reported(out[b := (if b in out then out[b] else map[])[m := report]], visited + [(b, m)], movements, halts)
  {
    var after := out[b := (if b in out then out[b] else map[])[m := report]];
    assert forall x :: x in visited + [(b, m)] <==> x in visited || x == (b, m);
    forall x, y
      ensures HasEntry(after, x, y) <==> HasEntry(out, x, y) || (x == b && y == m)
      ensures HasEntry(after, x, y) ==> after[x][y] == if x == b && y == m then report else out[x][y]
      ensures x in after ==> after[x] != map[] || (x in out && out[x] == map[])
    {
      EntryAdded(out, b, m, report, x, y);
    }
    assert forall x :: x in after ==> after[x] != map[] by {
      forall x | x in after ensures after[x] != map[] {
        EntryAdded(out, b, m, report, x, m);
      }
    }
    hide ReportMovement, HasEntry;
  }

  lemma SameEntries<V>(x: map<string, map<Id, V>>, y: map<string, map<Id, V>>)
    requires forall b :: b in x ==> x[b] != map[]
    requires forall b :: b in y ==> y[b] != map[]
    requires forall b, m :: HasEntry(x, b, m) <==> HasEntry(y, b, m)
    requires forall b, m :: HasEntry(x, b, m) && HasEntry(y, b, m) ==> x[b][m] == y[b][m]
    ensures x == y
  {
    forall b ensures b in x <==> b in y {
      if b in x
    {
        var m :| m in x[b];
        assert HasEntry(x, b, m);
      }
      if b in y {
        var m :| m in y[b];
        assert HasEntry(y, b, m);
      }
    }
    forall b | b in x ensures x[b] == y[b] {
      forall m ensures m in x[b] <==> m in y[b] {
        assert HasEntry(x, b, m) <==> HasEntry(y, b, m);
      }
      forall m | m in x[b] ensures x[b][m] == y[b][m] {
        assert HasEntry(x, b, m);
      }
    }
  }

  lemma ReportedAll(s: State, out: map<string, map<Id, MovementReport>>)
    requires MovementsCovered(s.aOrder, s.movements) && Reported(out, s.aOrder, s.movements, s.halts)
    ensures out == ReportMovements(s)
  {
    hide ReportMovement;
    var all := ReportMovements(s);
    forall b | b in all ensures all[b] != map[] {
      var m :| m in s.movements[b];
      assert m in all[b];
    }
    forall b, m ensures HasEntry(out, b, m) <==> HasEntry(all, b, m) {
      assert (b, m) in s.aOrder <==> b in s.movements && m in s.movements[b];
    }
    SameEntries(out, all);
  }

  /** The section-A report: what each movement came to, and the records to append. */
  method FinishSectionA(hash: Digest, movements: map<string, MovementMap>, order: seq<(string, Id)>,
                        halts: map<string, Halt>, ghost s: State)
    returns (out: map<string, map<Id, MovementReport>>, recovery: seq<Wire>)
    requires s.movements == MovementViews(movements) && s.aOrder == order && s.halts == halts
             && MovementsCovered(order, s.movements)
    ensures out == ReportMovements(s) && recovery == RecoveryAppends(hash, s, order)
  {
    hide Reported, MovementsCovered, RecoveryRecord;
    out, recovery := map[], [];
    NothingReported(s.movements, halts);
    for i := 0 to |order|
      invariant Reported(out, order[..i], s.movements, halts)
      invariant recovery == RecoveryAppends(hash, s, order[..i])
    {
      var (base, mid) := order[i];
      CoveredAt(order, s.movements, i);
      var machine := movements[base].states[mid];
      assert order[..i + 1] == order[..i] + [(base, mid)];
      assert order[..i + 1][..i] == order[..i];
      var report := MovementReport(machine, false);
      if base !in halts && machine.name.Prepared? {
        recovery := recovery + [RecoveryRecord(hash, base, mid)];
        report := MovementReport(MachineA(Held, None), true);
      }
      ReportedSnoc(out, order[..i], s.movements, halts, base, mid, report);
      out := out[base := (if base in out then out[base] else map[])[mid := report]];
    }
    assert order[..|order|] == order;
    ReportedAll(s, out);
  }

  lemma NothingReported(movements: map<string, Movements>, halts: map<string, Halt>)
    ensures Reported(map[], [], movements, halts)
  {
  }

  lemma CoveredAt(order: seq<(string, Id)>, movements: map<string, Movements>, i: nat)
    requires MovementsCovered(order, movements) && i < |order|
    ensures order[i].0 in movements && order[i].1 in movements[order[i].0]
  {
    assert (order[i].0, order[i].1) in order;
  }

  /** One base's holds, in insertion order. */
  method FinishBook(book: HoldBook) returns (out: map<Id, HoldReport>)
    requires BookCovered(book.View())
    ensures out == ReportBook(book.View())
  {
    out := map[];
    for i := 0 to |book.order|
      invariant forall h :: h in out <==> h in book.order[..i]
      invariant forall h :: h in out ==>
                h in book.holds && out[h] == HoldReport(book.holds[h], DeliveriesOf(book.View(), h))
    {
      var hid := book.order[i];
      assert book.order[..i + 1] == book.order[..i] + [hid];
      out := out[hid := HoldReport(book.holds[hid], if hid in book.deliveries then book.deliveries[hid].items else [])];
    }
    assert book.order[..|book.order|] == book.order;
  }

  /** Each base of the order has a book, seen as in the views. */
  ghost predicate Listed(books: map<string, HoldBook>, order: seq<string>, views: map<string, Book>)
    reads books.Values, ListsOf(books)
  {
    forall b :: b in order ==> b in books && b in views && books[b].View() == views[b] && BookCovered(views[b])
  }

  lemma AllListed(books: map<string, HoldBook>, order: seq<string>)
    requires BooksCovered(order, BookViews(books))
    ensures Listed(books, order, BookViews(books))
  {
    hide BookCovered, HoldBook.View;
  }

  lemma ListedAt(books: map<string, HoldBook>, order: seq<string>, views: map<string, Book>, i: nat)
    requires Listed(books, order, views) && i < |order|
    ensures var b := order[i];
            b in books && b in views && books[b].View() == views[b] && books[b].notes == views[b].notes
              && BookCovered(views[b])
  {
    hide BookCovered;
  }

  function HoldsOf(views: map<string, Book>, order: seq<string>): map<string, map<Id, HoldReport>> {
    map b | b in order && b in views :: ReportBook(views[b])
  }

  function NotesOf(views: map<string, Book>, order: seq<string>): map<string, seq<Note>> {
    map b | b in order && b in views && views[b].notes != [] :: views[b].notes
  }

  lemma OneMore(views: map<string, Book>, order: seq<string>, i: nat)
    requires i < |order| && order[i] in views
    ensures HoldsOf(views, order[..i + 1]) == HoldsOf(views, order[..i])[order[i] := ReportBook(views[order[i]])]
    ensures NotesOf(views, order[..i + 1]) ==
            if views[order[i]].notes != [] then NotesOf(views, order[..i])[order[i] := views[order[i]].notes]
              else NotesOf(views, order[..i])
  {
    hide ReportBook;
    assert order[..i + 1] == order[..i] + [order[i]];
  }

  /** The section-B report of every base with a book. */
  method FinishHolds(books: map<string, HoldBook>, order: seq<string>, ghost views: map<string, Book>)
    returns (holds: map<string, map<Id, HoldReport>>)
    requires views == BookViews(books) && BooksCovered(order, views)
    ensures holds == map b | b in views :: ReportBook(views[b])
  {
    AllListed(books, order);
    OrderIsDomain(order, views);
    hide BookCovered, BookViews, BooksCovered, HoldBook.View, HoldsOf, ReportBook;
    holds := map[];
    for i := 0 to |order|
      invariant Listed(books, order, views)
      invariant holds == HoldsOf(views, order[..i])
    {
      ListedAt(books, order, views, i);
      OneMore(views, order, i);
      var report := FinishBook(books[order[i]]);
      holds := holds[order[i] := report];
    }
    assert order[..|order|] == order;
  }

  /** The journalled notes of the bases that have any. */
  method FinishNotes(books: map<string, HoldBook>, order: seq<string>, ghost views: map<string, Book>)
    returns (notes: map<string, seq<Note>>)
    requires views == BookViews(books) && BooksCovered(order, views)
    ensures notes == map b | b in views && views[b].notes != [] :: views[b].notes
  {
    AllListed(books, order);
    OrderIsDomain(order, views);
    hide BookCovered, BookViews, BooksCovered, HoldBook.View, NotesOf, Listed;
    notes := map[];
    for i := 0 to |order|
      invariant notes == NotesOf(views, order[..i])
    {
      ListedAt(books, order, views, i);
      OneMore(views, order, i);
      if books[order[i]].notes != [] {
        notes := notes[order[i] := books[order[i]].notes];
      }
    }
    assert order[..|order|] == order;
  }

  lemma OrderIsDomain(order: seq<string>, views: map<string, Book>)
    requires BooksCovered(order, views)
    ensures HoldsOf(views, order) == map b | b in views :: ReportBook(views[b])
    ensures NotesOf(views, order) == map b | b in views && views[b].notes != [] :: views[b].notes
    ensures HoldsOf(views, []) == map[] && NotesOf(views, []) == map[]
  {
    hide BookCovered, ReportBook;
  }

  /** The fence of every base that is anchored, advanced or halted. */
  method WalkEpochs(env: Env, halts: map<string, Halt>, edges: map<string, seq<Edge>>, ghost s: State)
    returns (out: map<string, EpochReport>)
    requires s.halts == halts && s.edges == edges
    ensures out == ReportEpochs(env, s)
  {
    hide WalkFrom, ValidOid;
    out := map[];
    var all := env.anchors.Keys + edges.Keys + halts.Keys;
    var rest := all;
    while rest != {}
      invariant rest <= all
      invariant forall b :: b in out <==> b in all - rest && EpochOf(env, s, b).Some?
      invariant forall b :: b in out ==> out[b] == EpochOf(env, s, b).value
    {
      var base :| base in rest;
      rest := rest - {base};
      var anchor := if base in env.anchors then env.anchors[base] else Null;
      var own := if base in edges then edges[base] else [];
      if base in halts {
        out := out[base := EpochReport(anchor, Some(halts[base].code))];
      } else if base in env.anchors && (!anchor.Str? || !ValidOid(anchor.s)) {
        out := out[base := EpochReport(Null, Some(EpochGap))];
      } else if base !in env.anchors {
        if own != [] {
          out := out[base := EpochReport(Null, Some(EpochGap))];
        }
      } else {
        var fence := WalkEpochChain(anchor.s, own);
        out := out[base := EpochReport(Str(fence.epoch), fence.halt)];
      }
    }
  }

  // ----- the entrypoint ------------------------------------------------------

  /** Every base over the ceiling is halted before the walk. */
  method SeedCeilingHalts(state: ReduceState, events: seq<Wire>)
    requires state.Valid() && state.halts == map[]
    modifies state`halts
    ensures state.Valid() && state.Containers() == old(state.Containers())
    ensures state.View() == old(state.View()).(halts := CeilingHalts(events))
  {
    hide BaseCount, BasesOf, BookViews, MovementViews, SeparateBooks, SeparateMaps, BookContainers;
    var counts := PerBaseCounts(events);
    var rest := counts.Keys;
    while rest != {}
      invariant rest <= counts.Keys
      invariant forall b :: b in state.halts <==>
                b in counts.Keys - rest && BaseCount(events, b) > RECOVERY_CEILING_EVENTS
      invariant forall b :: b in state.halts ==> state.halts[b] == Halt(RecoveryCeiling, None)
    {
      var base :| base in rest;
      rest := rest - {base};
      if counts[base] > RECOVERY_CEILING_EVENTS {
        state.RecordHalt(base, Halt(RecoveryCeiling, None));
      }
    }
    UntouchedBooks(state.books);
    UntouchedMaps(state.movements);
  }

  /** The whole reduce, as the boundary runs it: one walk, one commit point per record. */
  method ReduceBoundary(env: Env, events: seq<Wire>) returns (report: Report)
    ensures report == Reduce(env, events)
  {
    hide Consume, Covered, CeilingHalts, Finish, BookViews, MovementViews, SeparateBooks, SeparateMaps, BookContainers;
    var state := new ReduceState(env);
    SeedCeilingHalts(state, events);
    SeedCovered(events);
    assert state.View() == Seed(events);
    for i := 0 to |events|
      invariant state.env == env && fresh(state) && fresh(state.dedup)
      invariant state.Valid()
      invariant state.View() == Run(env, Seed(events), events[..i])
      invariant Covered(state.View())
    {
      RunSnoc(env, Seed(events), events[..i], events[i]);
      assert events[..i + 1] == events[..i] + [events[i]];
      ConsumeCovered(env, state.View(), events[i]);
      state.ConsumeRecord(events[i]);
    }
    assert events[..|events|] == events;
    report := FinishReport(state);
  }

  lemma SeedCovered(events: seq<Wire>)
    ensures Covered(Seed(events))
  {
    hide CeilingHalts;
  }

  method FinishReport(state: ReduceState) returns (report: Report)
    requires Covered(state.View())
    ensures report == Finish(state.env, old(state.View()))
  {
    hide MovementsCovered, BooksCovered, ReportMovements, RecoveryAppends, ReportEpochs, ReportBook, HoldBook.View,
         BookViews, MovementViews, SeparateBooks, SeparateMaps, BookContainers;
    ghost var s := state.View();
    var movements, recovery := FinishSectionA(state.env.hash, state.movements, state.aOrder, state.halts, s);
    state.NothingWritten();
    var holds := FinishHolds(state.books, state.bOrder, s.books);
    state.NothingWritten();
    var notes := FinishNotes(state.books, state.bOrder, s.books);
    var epochs := WalkEpochs(state.env, state.halts, state.edges, s);
    report := Report(movements, recovery, holds, notes, state.halts, epochs);
  }
}
