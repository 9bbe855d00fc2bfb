/** Release safety, admission and delivery guarantees, stated over whole runs. */
module Safety {
  import opened Wrappers
  import opened Text
  import opened Wire
  import opened Events
  import opened SectionA
  import opened SectionB
  import opened HoldInvariants
  import opened Epochs
  import opened Reducer
  import opened Slices
  import opened Runs
  import opened BaseReports

  /** The hold book of a base once `prefix` of the stream has been walked. */
  function BookAfter(env: Env, events: seq<Wire>, prefix: seq<Wire>, base: string): Book {
    SliceAt(Run(env, Seed(events), prefix), base).Bk()
  }

  function MovementsAfter(env: Env, events: seq<Wire>, prefix: seq<Wire>, base: string): Movements {
    SliceAt(Run(env, Seed(events), prefix), base).Ms()
  }

  predicate IsAutoReleased(b: Book, h: Id) {
    h in b.holds && b.holds[h] == AUTO_RELEASED
  }

  lemma BookAfterInv(env: Env, events: seq<Wire>, prefix: seq<Wire>, base: string)
    requires Injective(env.hash) && Local(env)
    ensures BookInv(NamingOf(env.hash, base), env.mode, BookAfter(env, events, prefix, base))
  {
    hide BookInv, FenceInv, Run, SliceAt;
    ReachableInv(env, events, prefix, base);
  }

  lemma BookAfterGrows(env: Env, events: seq<Wire>, prefix: seq<Wire>, rest: seq<Wire>, base: string)
    requires Injective(env.hash) && Local(env)
    ensures BookGrows(BookAfter(env, events, prefix, base), BookAfter(env, events, prefix + rest, base))
  {
    hide BookGrows, MovementsGrow, Run, SliceAt;
    ReachableGrows(env, events, prefix, rest, base);
  }

  /** One more record leaves a base's book alone unless it is a hold event of that base that
      the section-B step accepted. */
  lemma BookStep(env: Env, events: seq<Wire>, prefix: seq<Wire>, ev: Wire, base: string)
    ensures var b, c := BookAfter(env, events, prefix, base), BookAfter(env, events, prefix + [ev], base);
            c == b ||
            (BaseHint(ev) == base && env.intake(ev).Ok? && env.intake(ev).value.Hold? &&
             StepB(env.hash, env.mode, b, base, env.intake(ev).value.hold,
                   MovementsAfter(env, events, prefix, base).Keys) == Ok(c))
  {
    hide StepB, StepA, Run, SliceAt, Check, HoldOk, FencePasses, EdgesWith;
    var s := Run(env, Seed(events), prefix);
    RunSnoc(env, Seed(events), prefix, ev);
    ConsumeSlice(env, s, ev, base);
    if env.intake(ev).Ok? && env.intake(ev).value.Hold? {
      CommitBook(env, SliceAt(s, base), ev, base, env.intake(ev).value.hold);
    } else if env.intake(ev).Ok? && env.intake(ev).value.Effect? {
      CommitNoBook(SliceAt(s, base), ev, env.intake(ev).value.effect);
    }
    hide PlanEffect, PlanHold, CommitSlice;
  }

  lemma CommitBook(env: Env, sl: Slice, ev: Wire, base: string, e: HoldEvent)
    ensures var t := CommitSlice(sl, ev, PlanHold(env, sl.Ms(), sl.Bk(), base, e));
            t.Bk() == sl.Bk() || StepB(env.hash, env.mode, sl.Bk(), base, e, sl.Ms().Keys) == Ok(t.Bk())
  {
    hide StepB, FencePasses, HoldOk;
  }

  lemma CommitNoBook(sl: Slice, ev: Wire, e: EffectEvent)
    ensures CommitSlice(sl, ev, PlanEffect(sl.Ms(), e)).Bk() == sl.Bk()
  {
    PlanKindEffect(sl.Ms(), e);
    hide PlanEffect;
  }

  // ----- release safety ------------------------------------------------------

  /** Every transition into RELEASED(ACTOR_VERIFIED_AUTO) happened in a separated run, on a
      hold the stream had already opened and no operator had refused to release, with a
      delivery recorded on it, its own delta digest, a movement of the base that the walk
      had reduced, and the fence set to the hold's recorded target. */
  lemma AutoReleaseWasGated(env: Env, events: seq<Wire>, prefix: seq<Wire>, ev: Wire, base: string, h: Id)
    requires Injective(env.hash) && Local(env)
    requires var b, c := BookAfter(env, events, prefix, base), BookAfter(env, events, prefix + [ev], base);
             IsAutoReleased(c, h) && !IsAutoReleased(b, h)
    ensures BaseHint(ev) == base && env.intake(ev).Ok? && env.intake(ev).value.Hold?
    ensures var b, e := BookAfter(env, events, prefix, base), env.intake(ev).value.hold;
            && e.variant.AutoRelease? && env.mode.Separated?
            && h in b.holds && h in b.holdDelta && h !in b.rejectRestored
            && e.delivery.value in DeliveriesOf(b, h)
            && e.digest.value == DeriveMatchedDeltaDigest(env.hash, base, b.holdDelta[h].ref, b.holdDelta[h].old_,
                                                          b.holdDelta[h].new_)
            && e.movement.Some? && e.movement.value in MovementsAfter(env, events, prefix, base)
            && e.epochAfter == b.holdDelta[h].new_
  {
    hide BookAfter, MovementsAfter, StepB, BookInv, Run;
    BookStep(env, events, prefix, ev, base);
    BookAfterInv(env, events, prefix, base);
    var b := BookAfter(env, events, prefix, base);
    var e := env.intake(ev).value.hold;
    assert NewlineFree(base);
    AutoReleaseIsGated(env.hash, env.mode, b, base, e, MovementsAfter(env, events, prefix, base).Keys, h);
  }

  /** The record was applied: valid, new, and its base not halted by it or before it. */
  ghost predicate AppliedHold(env: Env, events: seq<Wire>, prefix: seq<Wire>, ev: Wire, base: string, e: HoldEvent) {
    && env.intake(ev) == Ok(Hold(e)) && BaseHint(ev) == base
    && Check(env, Run(env, Seed(events), prefix).seen, ev).New?
    && SliceAt(Run(env, Seed(events), prefix + [ev]), base).halt.None?
  }

  lemma CommitOrHalt(env: Env, sl: Slice, ev: Wire, base: string, e: HoldEvent)
    ensures var t := CommitSlice(sl, ev, PlanHold(env, sl.Ms(), sl.Bk(), base, e));
            t.halt.Some? || StepB(env.hash, env.mode, sl.Bk(), base, e, sl.Ms().Keys) == Ok(t.Bk())
  {
    hide StepB, FencePasses, HoldOk;
  }

  lemma AppliedHoldSteps(env: Env, events: seq<Wire>, prefix: seq<Wire>, ev: Wire, base: string, e: HoldEvent)
    requires Local(env) && AppliedHold(env, events, prefix, ev, base, e)
    ensures NewlineFree(base)
    ensures StepB(env.hash, env.mode, BookAfter(env, events, prefix, base), base, e,
                  MovementsAfter(env, events, prefix, base).Keys) == Ok(BookAfter(env, events, prefix + [ev], base))
  {
    hide StepB, StepA, Run, SliceAt, HoldOk, CommitSlice, PlanHold, PlanEffect, Check;
    var s := Run(env, Seed(events), prefix);
    RunSnoc(env, Seed(events), prefix, ev);
    ConsumeSlice(env, s, ev, base);
    CommitOrHalt(env, SliceAt(s, base), ev, base, e);
    assert NewlineFree(e.baseKey) by {
      HoldBaseIsClean(e);
    }
  }

  lemma HoldBaseIsClean(e: HoldEvent)
    ensures NewlineFree(e.baseKey)
  {
  }

  /** Once an applied record refused a hold's release, no continuation of the stream ever
      releases that hold without an operator. */
  lemma RefusedNeverAutoReleased(env: Env, events: seq<Wire>, prefix: seq<Wire>, ev: Wire, rest: seq<Wire>,
                                 base: string, e: HoldEvent, h: Id)
    requires Injective(env.hash) && Local(env)
    requires AppliedHold(env, events, prefix, ev, base, e)
    requires e.variant.HoldReconcileRejectRestoreHold? && e.holdId == Some(h)
    ensures !IsAutoReleased(BookAfter(env, events, (prefix + [ev]) + rest, base), h)
  {
    hide AppliedHold, HoldOk;
    AppliedHoldSteps(env, events, prefix, ev, base, e);
    hide BookAfter, MovementsAfter, StepB, BookInv, Run, Local;
    var b := BookAfter(env, events, prefix, base);
    BookAfterInv(env, events, prefix, base);
    RefusalIsRemembered(env.hash, env.mode, b, base, e, MovementsAfter(env, events, prefix, base).Keys);
    BookAfterGrows(env, events, prefix + [ev], rest, base);
    BookAfterInv(env, events, (prefix + [ev]) + rest, base);
    RefusedIsNotAuto(NamingOf(env.hash, base), env.mode, BookAfter(env, events, (prefix + [ev]) + rest, base), h);
  }

  lemma RefusedIsNotAuto(id: Naming, mode: CredentialMode, b: Book, h: Id)
    requires BookInv(id, mode, b) && h in b.rejectRestored
    ensures !IsAutoReleased(b, h)
  {
    hide HoldsAgree;
  }

  // ----- counting ------------------------------------------------------------

  function OpenHolds(b: Book): set<Id> {
    set h | h in b.holds && !b.holds[h].name.Released?
  }

  function ReleasedHoldsOf(b: Book, d: Delta): set<Id> {
    set h | h in b.holds && b.holds[h].name.Released? && h in b.holdDelta && b.holdDelta[h] == d
  }

  lemma {:induction false} ValuesNoMore(m: map<Delta, Id>)
    ensures |m.Values| <= |m|
    decreases |m|
  {
    if m == map[] {
      assert m.Values == {};
    } else {
      var d :| d in m;
      var rest := m - {d};
      ValuesNoMore(rest);
      forall v | v in m.Values ensures v in rest.Values + {m[d]} {
        var k :| k in m && m[k] == v;
        assert k == d || (k in rest && rest[k] == v);
      }
      assert m.Keys == rest.Keys + {d};
      SubsetSize(m.Values, rest.Values + {m[d]});
    }
  }

  lemma {:induction false} SubsetSize(a: set<Id>, b: set<Id>)
    requires a <= b
    ensures |a| <= |b|
  {
    assert b == a + (b - a);
  }

  lemma OpenHoldIsIndexed(id: Naming, mode: CredentialMode, b: Book, h: Id)
    requires BookInv(id, mode, b) && h in OpenHolds(b)
    ensures h in b.holdDelta && b.holdDelta[h] in b.openByDelta && b.openByDelta[b.holdDelta[h]] == h
    ensures |b.openByDelta| <= OPEN_HOLD_ADMISSION_CEILING
  {
    hide OccurrencesAgree, Clean, ListsAgree;
    assert h in b.holdDelta;
    assert h !in ReleasedOf(b.holds);
  }

  /** No base ever has more than five open holds. */
  lemma OpenHoldsBounded(env: Env, events: seq<Wire>, prefix: seq<Wire>, base: string)
    requires Injective(env.hash) && Local(env)
    ensures |OpenHolds(BookAfter(env, events, prefix, base))| <= OPEN_HOLD_ADMISSION_CEILING
  {
    hide BookAfter, ListsAgree, OccurrencesAgree, KeysAgree, OpenAgrees;
    var b := BookAfter(env, events, prefix, base);
    BookAfterInv(env, events, prefix, base);
    forall h | h in OpenHolds(b) ensures h in b.openByDelta.Values {
      OpenHoldIsIndexed(NamingOf(env.hash, base), env.mode, b, h);
      assert b.holdDelta[h] in b.openByDelta && b.openByDelta[b.holdDelta[h]] == h;
    }
    SubsetSize(OpenHolds(b), b.openByDelta.Values);
    ValuesNoMore(b.openByDelta);
  }

  function FirstNames(id: Naming, d: Delta, n: nat): set<Id> {
    if n == 0 then {} else FirstNames(id, d, n - 1) + {id(d, n - 1)}
  }

  lemma {:induction false} FirstNamesAre(id: Naming, d: Delta, n: nat, h: Id)
    ensures h in FirstNames(id, d, n) <==> exists k: nat :: k < n && h == id(d, k)
  {
    if n > 0 {
      FirstNamesAre(id, d, n - 1, h);
    }
  }

  lemma {:induction false} FirstNamesCount(id: Naming, d: Delta, n: nat)
    requires NamesApart(id) && Clean(d)
    ensures |FirstNames(id, d, n)| == n
  {
    if n > 0 {
      FirstNamesCount(id, d, n - 1);
      FirstNamesAre(id, d, n - 1, id(d, n - 1));
    }
  }

  /** The terminal count of a delta is the number of its released holds, in every reachable
      state: occurrence numbers are never skipped or reused. */
  lemma TerminalCountIsReleased(env: Env, events: seq<Wire>, prefix: seq<Wire>, base: string, d: Delta)
    requires Injective(env.hash) && Local(env) && NewlineFree(base) && Clean(d)
    ensures var b := BookAfter(env, events, prefix, base);
            |ReleasedHoldsOf(b, d)| == TerminalCount(b, d)
  {
    hide BookAfter, OpenAgrees;
    var b := BookAfter(env, events, prefix, base);
    var id := NamingOf(env.hash, base);
    BookAfterInv(env, events, prefix, base);
    NamingIsApart(env.hash, base);
    var n := TerminalCount(b, d);
    forall h ensures h in ReleasedHoldsOf(b, d) <==> h in FirstNames(id, d, n) {
      FirstNamesAre(id, d, n, h);
    }
    assert ReleasedHoldsOf(b, d) == FirstNames(id, d, n);
    FirstNamesCount(id, d, n);
  }

  // ----- deliveries ----------------------------------------------------------

  /** A delivery, once recorded, is listed under exactly one hold, exactly once, and stays
      on that hold whatever follows. */
  lemma DeliveryNeverMoves(env: Env, events: seq<Wire>, prefix: seq<Wire>, rest: seq<Wire>, base: string, x: Id)
    requires Injective(env.hash) && Local(env)
    requires x in BookAfter(env, events, prefix, base).deliveryIndex
    ensures var b, c := BookAfter(env, events, prefix, base), BookAfter(env, events, prefix + rest, base);
            && var h := b.deliveryIndex[x];
            && h in c.deliveries
            && (exists i :: 0 <= i < |c.deliveries[h]| && c.deliveries[h][i] == x)
            && Distinct(c.deliveries[h])
            && (forall g :: g in c.deliveries && x in c.deliveries[g] ==> g == h)
  {
    hide BookAfter, HoldsAgree;
    BookAfterGrows(env, events, prefix, rest, base);
    BookAfterInv(env, events, prefix + rest, base);
  }

  // ----- the fence -----------------------------------------------------------

  /** The record is an event of one of the machines that declares an epoch change. */
  predicate DeclaresAdvance(env: Env, ev: Wire) {
    match env.intake(ev)
    case Ok(Effect(e)) => e.epochBefore != e.epochAfter
    case Ok(Hold(e)) => e.epochBefore != e.epochAfter
    case _ => false
  }

  function EdgeFor(env: Env, ev: Wire): Edge {
    match env.intake(ev)
    case Ok(Effect(e)) => Edge(ev, e.epochBefore, e.epochAfter)
    case Ok(Hold(e)) => Edge(ev, e.epochBefore, e.epochAfter)
    case _ => Edge(ev, "", "")
  }

  /** The machines moved, as far as the fence is concerned. */
  ghost predicate MachinesMoved(x: Slice, y: Slice) {
    (exists m :: MachineAt(y.Ms(), m) != MachineAt(x.Ms(), m)) || y.Bk().holds != x.Bk().holds
  }

  /** A base's fence gains an edge exactly when a record moved one of its machines and
      declared an epoch change; an identity replay therefore never does. */
  lemma EdgeExact(env: Env, seen: map<string, Registration>, sl: Slice, ev: Wire, base: string)
    ensures var t := SliceConsume(env, seen, sl, ev, base);
            t.edges == sl.edges + if MachinesMoved(sl, t) && DeclaresAdvance(env, ev) then [EdgeFor(env, ev)] else []
  {
    hide PlanEffect, PlanHold, CommitSlice, Check, DeclaresAdvance, EdgeFor, MachinesMoved;
    var t := SliceConsume(env, seen, sl, ev, base);
    assert sl.edges + [] == sl.edges;
    HaltMovesNothing(sl);
    if env.intake(ev).Ok? && Check(env, seen, ev).New? && base == BaseHint(ev) && sl.halt.None? {
      match env.intake(ev).value {
        case Effect(e) => EffectEdge(env, sl, ev, e);
        case Hold(e) => HoldEdge(env, sl, ev, base, e);
        case Single => IdleCommit(sl, ev);
      }
    }
  }

  /** Every edge was drawn by a record of the stream, of this base, that declares an advance:
      in stream order, and no record drew two. */
  ghost predicate DrawnFrom(env: Env, base: string, events: seq<Wire>, edges: seq<Edge>, positions: seq<nat>) {
    && |positions| == |edges|
    && (forall i :: 0 <= i < |positions| ==> positions[i] < |events|)
    && (forall i, j :: 0 <= i < j < |positions| ==> positions[i] < positions[j])
    && forall i :: 0 <= i < |positions| ==>
         var ev := events[positions[i]];
         BaseHint(ev) == base && DeclaresAdvance(env, ev) && edges[i] == EdgeFor(env, ev)
  }

  lemma EdgeOfOwnRecord(env: Env, seen: map<string, Registration>, sl: Slice, ev: Wire, base: string)
    requires BaseHint(ev) != base
    ensures SliceConsume(env, seen, sl, ev, base).edges == sl.edges
  {
    hide PlanOf, CommitSlice, Check;
  }

  lemma {:induction false} SliceEdgesDrawn(env: Env, seen: map<string, Registration>, sl: Slice, events: seq<Wire>,
                                           base: string)
    returns (positions: seq<nat>)
    requires sl.edges == []
    ensures DrawnFrom(env, base, events, SliceRun(env, seen, sl, events, base).edges, positions)
  {
    hide SliceConsume, SeenRun, DeclaresAdvance, EdgeFor, MachinesMoved, BaseHint;
    if events == [] {
      return [];
    }
    var n := |events| - 1;
    var before, ev := events[..n], events[n];
    positions := SliceEdgesDrawn(env, seen, sl, before, base);
    var mid := SliceRun(env, seen, sl, before, base);
    EdgeExact(env, SeenRun(env, seen, before), mid, ev, base);
    if BaseHint(ev) != base {
      EdgeOfOwnRecord(env, SeenRun(env, seen, before), mid, ev, base);
    }
    if SliceRun(env, seen, sl, events, base).edges != mid.edges {
      positions := positions + [n];
    }
  }

  /** The fence of a base is made of the walked stream and of nothing else. */
  lemma FenceIsDrawn(env: Env, events: seq<Wire>, prefix: seq<Wire>, base: string) returns (positions: seq<nat>)
    ensures DrawnFrom(env, base, prefix, SliceAt(Run(env, Seed(events), prefix), base).edges, positions)
  {
    hide SliceRun, Run, DrawnFrom;
    RunSlice(env, Seed(events), prefix, base);
    positions := SliceEdgesDrawn(env, Seed(events).seen, SliceAt(Seed(events), base), prefix, base);
  }

  lemma HaltMovesNothing(sl: Slice)
    ensures !MachinesMoved(sl, sl) && forall h ::
            !MachinesMoved(sl, sl.HaltedWith(h)) && sl.HaltedWith(h).edges == sl.edges
  {
  }

  lemma EffectEdge(env: Env, sl: Slice, ev: Wire, e: EffectEvent)
    requires env.intake(ev) == Ok(Effect(e))
    ensures var t := CommitSlice(sl, ev, PlanEffect(sl.Ms(), e));
            t.edges == sl.edges + if MachinesMoved(sl, t) && DeclaresAdvance(env, ev) then [EdgeFor(env, ev)] else []
  {
    hide StepA, EffectOk, FencePasses;
    assert sl.edges + [] == sl.edges;
    var cur := MachineAt(sl.Ms(), e.movementId);
    match StepA(cur, e)
    case None =>
    case Some(next) =>
      var t := CommitSlice(sl, ev, PlanEffect(sl.Ms(), e));
      if PlanEffect(sl.Ms(), e).CommitA? {
        assert MachineAt(t.Ms(), e.movementId) == next;
        assert forall m :: m != e.movementId ==> MachineAt(t.Ms(), m) == MachineAt(sl.Ms(), m);
      }
  }

  lemma HoldEdge(env: Env, sl: Slice, ev: Wire, base: string, e: HoldEvent)
    requires env.intake(ev) == Ok(Hold(e))
    ensures var t := CommitSlice(sl, ev, PlanHold(env, sl.Ms(), sl.Bk(), base, e));
            t.edges == sl.edges + if MachinesMoved(sl, t) && DeclaresAdvance(env, ev) then [EdgeFor(env, ev)] else []
  {
    hide StepB, HoldOk, FencePasses, MachineAt;
    assert sl.edges + [] == sl.edges;
  }

  /** All the edges, each once, can be arranged as one simple path from the anchor. */
  ghost predicate OneSimplePath(edges: seq<Edge>, anchor: string, tail: string) {
    exists path :: Arranges(path, edges, anchor, tail)
  }

  /** The reported fence, exactly: a base's fence resolves to an epoch iff the base is not
      halted, is anchored at an object id, and its edges, each used once, form one simple
      path from the anchor to that epoch. */
  lemma ResolvedFenceExact(env: Env, events: seq<Wire>, base: string, tail: string)
    ensures var r, edges := Reduce(env, events), SliceAt(Run(env, Seed(events), events), base).edges;
            (base in r.epochs && r.epochs[base] == EpochReport(Str(tail), None)) <==>
            && base !in r.halts
            && base in env.anchors && env.anchors[base].Str? && ValidOid(env.anchors[base].s)
            && OneSimplePath(edges, env.anchors[base].s, tail)
  {
    hide Run, SliceAt, Finish, ValidOid, Arranges, WalkFrom;
    var s := Run(env, Seed(events), events);
    ReportOfSlice(env, s, base);
    FenceOfReport(Reduce(env, events), base);
    ResolvedSlice(env, base, SliceAt(s, base), tail);
    if base in env.anchors && env.anchors[base].Str? {
      WalkOkExact(SliceAt(s, base).edges, env.anchors[base].s, tail);
    }
  }

  lemma ResolvedSlice(env: Env, base: string, sl: Slice, tail: string)
    ensures SliceEpoch(env, base, sl) == Some(EpochReport(Str(tail), None)) <==>
            && sl.halt.None? && base in env.anchors && env.anchors[base].Str? && ValidOid(env.anchors[base].s)
            && WalkFrom(sl.edges, env.anchors[base].s) == Fence(tail, None)
  {
    hide ValidOid, WalkFrom;
  }

  lemma FenceOfReport(r: Report, base: string)
    ensures ReportAt(r, base).epoch == (if base in r.epochs then Some(r.epochs[base]) else None)
    ensures ReportAt(r, base).halt == (if base in r.halts then Some(r.halts[base]) else None)
  {
    hide RecordsAt;
  }
}
