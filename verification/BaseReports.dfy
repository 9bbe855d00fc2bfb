/** What the report says about one base, as a function of that base's part of the state. */
module BaseReports {
  import opened Wrappers
  import opened Text
  import opened Wire
  import opened Schema
  import opened SectionA
  import opened SectionB
  import opened Epochs
  import opened Reducer
  import opened Slices

  /** Every entry of the report that concerns one base. */
  datatype BaseReport = BaseReport(
    movements: Option<map<Id, MovementReport>>,
    recovery: seq<Wire>,
    holds: Option<map<Id, HoldReport>>,
    notes: Option<seq<Note>>,
    halt: Option<Halt>,
    epoch: Option<EpochReport>)

  function RecordsAt(records: seq<Wire>, base: string): seq<Wire> {
    if records == [] then []
    else
      RecordsAt(records[..|records| - 1], base)
      + if BaseHint(records[|records| - 1]) == base then [records[|records| - 1]] else []
  }

  function ReportAt(r: Report, base: string): BaseReport {
    BaseReport(Lookup(r.movements, base), RecordsAt(r.recovery, base), Lookup(r.holds, base),
               Lookup(r.notes, base), Lookup(r.halts, base), Lookup(r.epochs, base))
  }

  // ----- the same from the slice ---------------------------------------------

  predicate SliceNeedsRecovery(sl: Slice, mid: Id) {
    sl.halt.None? && MachineAt(sl.Ms(), mid).name.Prepared?
  }

  function SliceRecovery(hash: Digest, base: string, sl: Slice, order: seq<Id>): seq<Wire> {
    if order == [] then []
    else
      SliceRecovery(hash, base, sl, order[..|order| - 1])
      + if SliceNeedsRecovery(sl, order[|order| - 1]) then [RecoveryRecord(hash, base, order[|order| - 1])] else []
  }

  function SliceMovement(sl: Slice, m: MachineA): MovementReport {
    if sl.halt.None? && m.name.Prepared? then MovementReport(MachineA(Held, None), true) else MovementReport(m, false)
  }

  function SliceReportMovements(sl: Slice): Option<map<Id, MovementReport>> {
    if sl.movements.None? then None
    else Some(map m | m in sl.movements.value :: SliceMovement(sl, sl.movements.value[m]))
  }

  function SliceEpoch(env: Env, base: string, sl: Slice): Option<EpochReport> {
    if sl.halt.Some? then
      Some(EpochReport(if base in env.anchors then env.anchors[base] else Null, Some(sl.halt.value.code)))
    else if base in env.anchors then
      var anchor := env.anchors[base];
      if !anchor.Str? || !ValidOid(anchor.s) then Some(EpochReport(Null, Some(EpochGap)))
      else var fence := WalkFrom(sl.edges, anchor.s); Some(EpochReport(Str(fence.epoch), fence.halt))
    else if sl.edges == [] then None
    else Some(EpochReport(Null, Some(EpochGap)))
  }

  function SliceReport(env: Env, base: string, sl: Slice): BaseReport {
    BaseReport(
      SliceReportMovements(sl),
      SliceRecovery(env.hash, base, sl, sl.order),
      if sl.book.None? then None else Some(ReportBook(sl.book.value)),
      if sl.book.None? || sl.book.value.notes == [] then None else Some(sl.book.value.notes),
      sl.halt,
      SliceEpoch(env, base, sl))
  }

  // ----- agreement -----------------------------------------------------------

  lemma RecordsAtConcat(xs: seq<Wire>, ys: seq<Wire>, base: string)
    requires |ys| <= 1
    ensures RecordsAt(xs + ys, base) == RecordsAt(xs, base) + RecordsAt(ys, base)
  {
    if ys == [] {
      assert xs + ys == xs;
    } else {
      assert (xs + ys)[..|xs|] == xs && ys[..0] == [];
    }
  }

  lemma RecoveryRecordBase(hash: Digest, base: string, mid: Id)
    ensures BaseHint(RecoveryRecord(hash, base, mid)) == base
  {
  }

  lemma SliceRecoverySnoc(hash: Digest, base: string, sl: Slice, order: seq<Id>, mid: Id)
    ensures SliceRecovery(hash, base, sl, order + [mid]) ==
            SliceRecovery(hash, base, sl, order)
              + if SliceNeedsRecovery(sl, mid) then [RecoveryRecord(hash, base, mid)] else []
  {
    hide RecoveryRecord, SliceNeedsRecovery;
    assert (order + [mid])[..|order|] == order;
  }

  lemma RecordAt(x: Wire, base: string)
    ensures RecordsAt([x], base) == if BaseHint(x) == base then [x] else []
  {
    assert [x][..0] == [];
  }

  lemma {:induction false} RecoveryAt(hash: Digest, s: State, order: seq<(string, Id)>, base: string)
    ensures RecordsAt(RecoveryAppends(hash, s, order), base) ==
            SliceRecovery(hash, base, SliceAt(s, base), OrderAt(order, base))
  {
    hide RecoveryRecord, RecordsAt, SliceNeedsRecovery, NeedsRecovery, BaseHint, EdgesAt;
    if order == [] {
      assert RecordsAt([], base) == [] by {
        RecordsAtEmpty(base);
      }
    } else {
      var before := order[..|order| - 1];
      var (b, mid) := order[|order| - 1];
      RecoveryAt(hash, s, before, base);
      RecoveryRecordBase(hash, b, mid);
      NeedsAt(s, b, mid);
      var record := RecoveryRecord(hash, b, mid);
      var last := if NeedsRecovery(s.halts, b, MachineAt(MovementsAt(s, b), mid)) then [record] else [];
      RecordsAtConcat(RecoveryAppends(hash, s, before), last, base);
      RecordsAtEmpty(base);
      RecordAt(record, base);
      SliceRecoverySnoc(hash, base, SliceAt(s, base), OrderAt(before, base), mid);
      hide SliceRecovery, SliceAt, MovementsAt, MachineAt;
      assert OrderAt(order, base) == OrderAt(before, base) + if b == base then [mid] else [];
      assert OrderAt(before, base) + [] == OrderAt(before, base);
      assert RecoveryAppends(hash, s, order) == RecoveryAppends(hash, s, before) + last;
      var head := RecordsAt(RecoveryAppends(hash, s, before), base);
      assert head + [] == head;
    }
  }

  lemma RecordsAtEmpty(base: string)
    ensures RecordsAt([], base) == []
  {
  }

  lemma NeedsAt(s: State, b: string, mid: Id)
    ensures SliceNeedsRecovery(SliceAt(s, b), mid) == NeedsRecovery(s.halts, b, MachineAt(MovementsAt(s, b), mid))
  {
    hide OrderAt, EdgesAt;
  }

  lemma MovementReportAt(s: State, base: string)
    ensures Lookup(ReportMovements(s), base) == SliceReportMovements(SliceAt(s, base))
  {
    hide OrderAt, EdgesAt;
    if base in s.movements {
      var ms := s.movements[base];
      var sl := SliceAt(s, base);
      forall m | m in ms ensures ReportMovement(s.halts, base, ms[m]) == SliceMovement(sl, ms[m]) {
      }
      assert ReportMovements(s)[base] == map m | m in ms :: SliceMovement(sl, ms[m]);
    }
  }

  lemma EpochAt(env: Env, s: State, base: string)
    ensures Lookup(ReportEpochs(env, s), base) == SliceEpoch(env, base, SliceAt(s, base))
  {
    hide WalkFrom, ValidOid, OrderAt;
    EpochOfSlice(env, s, base);
    hide SliceEpoch, SliceAt;
    if base !in env.anchors.Keys + s.edges.Keys + s.halts.Keys {
      assert EpochOf(env, s, base).None?;
    }
    assert base in ReportEpochs(env, s) <==> EpochOf(env, s, base).Some?;
    assert base in ReportEpochs(env, s) ==> ReportEpochs(env, s)[base] == EpochOf(env, s, base).value;
    hide EpochOf, ReportEpochs;
    assert EpochOf(env, s, base).Some? ==> Some(EpochOf(env, s, base).value) == EpochOf(env, s, base);
  }

  lemma EpochOfSlice(env: Env, s: State, base: string)
    ensures EpochOf(env, s, base) == SliceEpoch(env, base, SliceAt(s, base))
  {
    hide WalkFrom, ValidOid, OrderAt;
  }

  lemma BooksAt(s: State, base: string)
    ensures Lookup(map b | b in s.books :: ReportBook(s.books[b]), base) ==
            if base in s.books then Some(ReportBook(s.books[base])) else None
    ensures Lookup(map b | b in s.books && s.books[b].notes != [] :: s.books[b].notes, base) ==
            if base in s.books && s.books[base].notes != [] then Some(s.books[base].notes) else None
  {
    hide ReportBook;
  }

  /** The report about a base is determined by the base's own part of the state. */
  lemma ReportOfSlice(env: Env, s: State, base: string)
    ensures ReportAt(Finish(env, s), base) == SliceReport(env, base, SliceAt(s, base))
  {
    hide RecoveryAppends, SliceRecovery, RecordsAt, ReportMovements, ReportEpochs, ReportBook, SliceEpoch, OrderAt,
         EdgesAt;
    RecoveryAt(env.hash, s, s.aOrder, base);
    MovementReportAt(s, base);
    EpochAt(env, s, base);
    BooksAt(s, base);
  }
}
