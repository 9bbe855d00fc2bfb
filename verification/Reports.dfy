/** What one record does to its base, and what the reduce reports, said of the records' and the
    machines' own fields. */
module Reports {
  import opened Wrappers
  import opened Text
  import opened Wire
  import opened Schema
  import opened Events
  import opened SectionA
  import opened SectionB
  import opened HoldInvariants
  import opened Epochs
  import opened Reducer
  import opened Slices
  import opened Runs
  import opened Safety
  import opened Decisions

  // ----- the fate of one record ----------------------------------------------

  const HEX_DIGITS: string := "0123456789abcdef"

  /** A full lowercase hexadecimal object id. */
  predicate ObjectId(s: string) {
    |s| == 40 && forall i :: 0 <= i < 40 ==> s[i] in HEX_DIGITS
  }

  lemma ObjectIdIsValid(s: string)
    ensures ObjectId(s) <==> ValidOid(s)
  {
    forall c: char ensures c in HEX_DIGITS <==> '0' <= c <= '9' || 'a' <= c <= 'f' {
      HexDigit(c);
    }
  }

  lemma HexDigit(c: char)
    ensures c in HEX_DIGITS <==> '0' <= c <= '9' || 'a' <= c <= 'f'
  {
    if '0' <= c <= '9' {
      assert HEX_DIGITS[c as int - '0' as int] == c;
    } else if 'a' <= c <= 'f' {
      assert HEX_DIGITS[10 + c as int - 'a' as int] == c;
    }
  }

  /** The base is halted by this record, and nothing else of it changes. */
  ghost predicate HaltedBy(sl: Slice, t: Slice, code: Code, ev: Wire) {
    t == sl.(halt := Some(Halt(code, Some(ev))))
  }

  /** The record reaches its base's machine: it is new, and the base is not halted. */
  ghost predicate Reaches(env: Env, seen: map<string, Registration>, sl: Slice, ev: Wire, base: string) {
    && Get(ev, "event_id").Str? && Get(ev, "event_id").s != "" && Get(ev, "event_id").s !in seen
    && base == BaseHint(ev) && sl.halt.None?
  }

  /** A record that reaches its machine is planned on what its base holds. */
  lemma ReachesPlan(env: Env, seen: map<string, Registration>, sl: Slice, ev: Wire, built: Built, base: string)
    requires Reaches(env, seen, sl, ev, base) && env.intake(ev) == Ok(built)
    ensures sl.halt.None?
    ensures SliceConsume(env, seen, sl, ev, base) ==
            CommitSlice(sl, ev, PlanOf(env, sl.Ms(), sl.Bk(), base, built))
  {
    hide PlanOf, CommitSlice;
  }

  /** An effect record that reaches its movement is refused as an illegal transition, or moves
      that movement alone and, when the movement changed and the epochs differ, adds the one
      edge; epochs that are not object ids are refused only then. */
  lemma EffectFate(env: Env, seen: map<string, Registration>, sl: Slice, ev: Wire, e: EffectEvent, base: string)
    requires env.intake(ev) == Ok(Effect(e)) && Reaches(env, seen, sl, ev, base)
    ensures var t := SliceConsume(env, seen, sl, ev, base);
            var ms := if sl.movements.Some? then sl.movements.value else map[];
            var cur := if e.movementId in ms then ms[e.movementId] else MachineA(Genesis, None);
            var moved := StepA(cur, e).Some? && StepA(cur, e).value != cur && e.epochBefore != e.epochAfter;
            if StepA(cur, e).None? then HaltedBy(sl, t, IllegalTransition, ev)
            else if moved && !(ObjectId(e.epochBefore) && ObjectId(e.epochAfter)) then
              HaltedBy(sl, t, SchemaMajorUnknown, ev)
            else
              t == sl.(movements := Some(ms[e.movementId := StepA(cur, e).value]),
                       order := if e.movementId in ms then sl.order else sl.order + [e.movementId],
                       edges := sl.edges + if moved then [Edge(ev, e.epochBefore, e.epochAfter)] else [])
  {
    ObjectIdIsValid(e.epochBefore);
    ObjectIdIsValid(e.epochAfter);
    hide Reaches, SliceConsume, StepA, ValidOid, ObjectId, EffectOk;
    ReachesPlan(env, seen, sl, ev, Effect(e), base);
    assert sl.edges + [] == sl.edges;
  }

  /** A hold record likewise, on the base's book: it changes the book as the step does, and the
      fence only when a hold changed. */
  lemma HoldFate(env: Env, seen: map<string, Registration>, sl: Slice, ev: Wire, e: HoldEvent, base: string)
    requires env.intake(ev) == Ok(Hold(e)) && Reaches(env, seen, sl, ev, base)
    ensures var t := SliceConsume(env, seen, sl, ev, base);
            var known := if sl.movements.Some? then sl.movements.value.Keys else {};
            var b := if sl.book.Some? then sl.book.value else EMPTY_BOOK;
            match StepB(env.hash, env.mode, b, base, e, known)
            case Err(code) => HaltedBy(sl, t, code, ev)
            case Ok(after) =>
              var moved := after.holds != b.holds && e.epochBefore != e.epochAfter;
              if moved && !(ObjectId(e.epochBefore) && ObjectId(e.epochAfter)) then
                HaltedBy(sl, t, SchemaMajorUnknown, ev)
              else
                t == sl.(book := Some(after),
                         edges := sl.edges + if moved then [Edge(ev, e.epochBefore, e.epochAfter)] else [])
  {
    hide Reaches, SliceConsume, StepB, PlanHold, ObjectId, HoldOk;
    ReachesPlan(env, seen, sl, ev, Hold(e), base);
    assert sl.edges + [] == sl.edges;
    assert (if sl.movements.Some? then sl.movements.value.Keys else {}) == sl.Ms().Keys;
    HoldPlanIs(env, sl.Ms(), sl.Bk(), base, e);
  }

  lemma HoldPlanIs(env: Env, ms: Movements, book: Book, base: string, e: HoldEvent)
    ensures PlanHold(env, ms, book, base, e) ==
            match StepB(env.hash, env.mode, book, base, e, ms.Keys)
            case Err(code) => Halts(code)
            case Ok(after) =>
              if after.holds == book.holds || e.epochBefore == e.epochAfter then CommitB(after, None)
              else if ObjectId(e.epochBefore) && ObjectId(e.epochAfter) then
                CommitB(after, Some(Advance(e.epochBefore, e.epochAfter)))
              else Halts(SchemaMajorUnknown)
  {
    ObjectIdIsValid(e.epochBefore);
    ObjectIdIsValid(e.epochAfter);
    hide StepB, ValidOid, ObjectId, HoldOk;
  }

  /** Every other record halts its own base when it is invalid, both bases it touched when it
      diverges, and is otherwise no more than registered. */
  lemma OtherFate(env: Env, seen: map<string, Registration>, sl: Slice, ev: Wire, base: string)
    requires env.intake(ev).Err? || !Reaches(env, seen, sl, ev, base) || env.intake(ev).value.Single?
    ensures var t := SliceConsume(env, seen, sl, ev, base);
            if sl.halt.Some? then t == sl
            else if env.intake(ev).Err? then
              if base == BaseHint(ev) then HaltedBy(sl, t, env.intake(ev).error, ev) else t == sl
            else if !Get(ev, "event_id").Str? || Get(ev, "event_id").s == "" then
              if base == BaseHint(ev) then HaltedBy(sl, t, SchemaMajorUnknown, ev) else t == sl
            else
              var id := Get(ev, "event_id").s;
              if id in seen && seen[id].canon != env.canonical(ev)
                && (base == BaseHint(ev) || base == seen[id].base) then
                HaltedBy(sl, t, EventPayloadDivergent, ev)
              else t == sl
  {
  }

  // ----- the report ----------------------------------------------------------

  /** Every base with a book reports exactly its holds, each with its own state and disposition
      and its deliveries in the order they were recorded; and its notes, if any. */
  lemma HoldsReported(env: Env, events: seq<Wire>)
    ensures var s, r := Run(env, Seed(events), events), Reduce(env, events);
            && r.holds.Keys == s.books.Keys
            && (forall b :: b in s.books ==> r.holds[b].Keys == s.books[b].holds.Keys)
            && (forall b, h :: b in s.books && h in s.books[b].holds ==>
                  && r.holds[b][h].machine.name == s.books[b].holds[h].name
                  && r.holds[b][h].machine.disposition == s.books[b].holds[h].disposition
                  && r.holds[b][h].deliveries == if h in s.books[b].deliveries then s.books[b].deliveries[h] else [])
            && (forall b :: b in r.notes <==> b in s.books && s.books[b].notes != [])
            && (forall b :: b in r.notes ==> r.notes[b] == s.books[b].notes)
  {
    hide Run, ReportMovements, ReportEpochs, RecoveryAppends;
  }

  /** Every reduced movement is reported in its own state and disposition, except that one left
      PREPARED on a base that did not halt is reported as held by recovery. */
  lemma MovementsReported(env: Env, events: seq<Wire>)
    ensures var s, r := Run(env, Seed(events), events), Reduce(env, events);
            && r.halts == s.halts
            && r.movements.Keys == s.movements.Keys
            && (forall b :: b in s.movements ==> r.movements[b].Keys == s.movements[b].Keys)
            && (forall b, m :: b in s.movements && m in s.movements[b] ==>
                  var own := s.movements[b][m];
                  r.movements[b][m] == if b !in s.halts && own.name.Prepared?
                                       then MovementReport(MachineA(Held, None), true) else MovementReport(own, false))
  {
    hide Run, ReportEpochs, RecoveryAppends, ReportBook;
  }

  /** The fence reported of a base: its anchor with the halt's code when the base halted; the
      end of its edges from the anchor when that is an object id; a gap when it is not, or when
      edges have no anchor; and nothing otherwise. */
  lemma FencesReported(env: Env, events: seq<Wire>, b: string)
    ensures var s, r := Run(env, Seed(events), events), Reduce(env, events);
            var edges := if b in s.edges then s.edges[b] else [];
            if b in s.halts then
              b in r.epochs
              && r.epochs[b] == EpochReport(if b in env.anchors then env.anchors[b] else Null, Some(s.halts[b].code))
            else if b in env.anchors then
              && b in r.epochs
              && (env.anchors[b].Str? && ObjectId(env.anchors[b].s) ==>
                    var fence := WalkFrom(edges, env.anchors[b].s);
                    r.epochs[b] == EpochReport(Str(fence.epoch), fence.halt))
              && (!(env.anchors[b].Str? && ObjectId(env.anchors[b].s)) ==>
                    r.epochs[b] == EpochReport(Null, Some(EpochGap)))
            else if edges != [] then b in r.epochs && r.epochs[b] == EpochReport(Null, Some(EpochGap))
            else b !in r.epochs
  {
    if b in env.anchors && env.anchors[b].Str? {
      ObjectIdIsValid(env.anchors[b].s);
    }
    hide Run, WalkFrom, ReportMovements, RecoveryAppends, ReportBook, ValidOid, ObjectId;
  }

  // ----- from record to report -----------------------------------------------

  /** A release is reported for good: whatever follows the prefix in which a hold was released,
      the report names that hold released with that disposition. */
  lemma ReleaseIsReported(env: Env, prefix: seq<Wire>, rest: seq<Wire>, base: string, h: Id)
    requires Injective(env.hash) && Local(env)
    requires var b := BookAfter(env, prefix + rest, prefix, base); h in b.holds && b.holds[h].name.Released?
    ensures var r := Reduce(env, prefix + rest).holds;
            base in r && h in r[base]
            && r[base][h].machine == BookAfter(env, prefix + rest, prefix, base).holds[h]
  {
    BookAfterGrows(env, prefix + rest, prefix, rest, base);
    HoldsReported(env, prefix + rest);
    BookIn(env, prefix + rest, base, h);
    hide BookAfter, Reduce, Run, Local;
    GrowthKeepsRelease(BookAfter(env, prefix + rest, prefix, base),
                       BookAfter(env, prefix + rest, prefix + rest, base), h);
  }

  lemma GrowthKeepsRelease(b: Book, c: Book, h: Id)
    requires BookGrows(b, c) && h in b.holds && b.holds[h].name.Released?
    ensures h in c.holds && c.holds[h] == b.holds[h]
  {
  }

  lemma BookIn(env: Env, events: seq<Wire>, base: string, h: Id)
    ensures var s := Run(env, Seed(events), events);
            h in BookAfter(env, events, events, base).holds ==>
              base in s.books && BookAfter(env, events, events, base) == s.books[base]
  {
    hide Run, OrderAt, EdgesAt;
  }

  /** From the operator's acceptance to the report: a new valid record that accepts an open hold
      from its own state, in the run's mode, on a base that is not halted, makes every
      continuation report that hold released with the disposition given. */
  lemma AcceptanceIsReported(env: Env, prefix: seq<Wire>, ev: Wire, rest: seq<Wire>, base: string, e: HoldEvent, h: Id)
    requires Injective(env.hash) && Local(env)
    requires env.intake(ev) == Ok(Hold(e))
    requires var events := (prefix + [ev]) + rest;
             var s := Run(env, Seed(events), prefix);
             var b := BookAfter(env, events, prefix, base);
             && Reaches(env, s.seen, SliceAt(s, base), ev, base)
             && e.variant.HoldReconcileAccept? && e.holdId == Some(h) && e.mode == env.mode
             && h in b.holds && !b.holds[h].name.Released? && e.from == b.holds[h].name
    requires e.epochBefore == e.epochAfter || (ObjectId(e.epochBefore) && ObjectId(e.epochAfter))
    ensures var r := Reduce(env, (prefix + [ev]) + rest).holds;
            base in r && h in r[base] && r[base][h].machine == MachineB(Released, e.disposition)
  {
    var events := (prefix + [ev]) + rest;
    var s := Run(env, Seed(events), prefix);
    BookAfterInv(env, events, prefix, base);
    RunSnoc(env, Seed(events), prefix, ev);
    ConsumeSlice(env, s, ev, base);
    hide Run, Local, SliceConsume, Injective, ObjectId, Consume, SliceAt, HoldOk, BookInv;
    AcceptanceInSlice(env, s.seen, SliceAt(s, base), ev, e, base, h);
    hide Reaches, Reduce;
    ReleaseIsReported(env, prefix + [ev], rest, base, h);
  }

  lemma AcceptanceInSlice(env: Env, seen: map<string, Registration>, sl: Slice, ev: Wire, e: HoldEvent, base: string,
                          h: Id)
    requires BookInv(NamingOf(env.hash, base), env.mode, sl.Bk())
    requires env.intake(ev) == Ok(Hold(e)) && Reaches(env, seen, sl, ev, base)
    requires e.variant.HoldReconcileAccept? && e.holdId == Some(h) && e.mode == env.mode
    requires h in sl.Bk().holds && !sl.Bk().holds[h].name.Released? && e.from == sl.Bk().holds[h].name
    requires e.epochBefore == e.epochAfter || (ObjectId(e.epochBefore) && ObjectId(e.epochAfter))
    ensures var after := SliceConsume(env, seen, sl, ev, base).Bk();
            after.holds == sl.Bk().holds[h := MachineB(Released, e.disposition)]
  {
    HoldFate(env, seen, sl, ev, e, base);
    InvKeys(NamingOf(env.hash, base), env.mode, sl.Bk());
    AcceptExact(env.hash, env.mode, sl.Bk(), base, e, sl.Ms().Keys, h);
    hide SliceConsume, Reaches, ObjectId, StepB, HoldOk, BookInv, KeysAgree, DeliveryListed, DeltaClosed, DeltasKept;
    assert (if sl.movements.Some? then sl.movements.value.Keys else {}) == sl.Ms().Keys;
  }

  lemma InvKeys(id: Naming, mode: CredentialMode, b: Book)
    requires BookInv(id, mode, b)
    ensures KeysAgree(b.holds, b.holdDelta)
  {
  }
}
