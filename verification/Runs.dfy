/** What every reachable state keeps, over whole runs. */
module Runs {
  import opened Wrappers
  import opened Text
  import opened Wire
  import opened Events
  import opened SectionA
  import opened SectionB
  import opened HoldInvariants
  import opened Fences
  import opened Epochs
  import opened Reducer
  import opened Slices

  // ----- fence provenance ----------------------------------------------------

  /** The movement or hold an edge settled. */
  datatype Subject = MovementSubject(mid: Id) | HoldSubject(hid: Option<Id>) | NoSubject

  function SubjectOf(env: Env, edge: Edge): Subject {
    match env.intake(edge.source)
    case Ok(Effect(e)) => MovementSubject(e.movementId)
    case Ok(Hold(e)) => HoldSubject(e.holdId)
    case _ => NoSubject
  }

  /** The edge runs between two distinct object ids and comes from a valid record of this
      base whose row declares an epoch effect, and that record's step still shows. */
  ghost predicate Justified(env: Env, base: string, ms: Movements, book: Book, edge: Edge) {
    && BaseHint(edge.source) == base
    && ValidOid(edge.before) && ValidOid(edge.after) && edge.before != edge.after
    && match env.intake(edge.source)
       case Ok(Effect(e)) =>
         e.epochBefore == edge.before && e.epochAfter == edge.after && e.movementId in ms &&
         EffectSettles(e, ms[e.movementId]) && Settled(ms[e.movementId])
       case Ok(Hold(e)) =>
         e.epochBefore == edge.before && e.epochAfter == edge.after && HoldSettles(env.mode, e, book)
       case _ => false
  }

  /** Every edge is justified, and no movement or hold moved the fence twice. */
  ghost predicate FenceInv(env: Env, base: string, ms: Movements, book: Book, edges: seq<Edge>) {
    && (forall i :: 0 <= i < |edges| ==> Justified(env, base, ms, book, edges[i]))
    && (forall i, j :: 0 <= i < j < |edges| ==> SubjectOf(env, edges[i]) != SubjectOf(env, edges[j]))
  }

  ghost predicate MovementsGrow(ms: Movements, ms': Movements) {
    forall m :: m in ms ==> m in ms' && (Settled(ms[m]) ==> ms'[m] == ms[m])
  }

  lemma JustifiedGrows(env: Env, base: string, ms: Movements, book: Book, ms': Movements, book': Book, edge: Edge)
    requires Justified(env, base, ms, book, edge) && MovementsGrow(ms, ms') && BookGrows(book, book')
    ensures Justified(env, base, ms', book', edge)
  {
    hide Settled, EffectSettles, ValidOid, EffectOk, HoldOk;
  }

  lemma FenceInvGrows(env: Env, base: string, ms: Movements, book: Book, ms': Movements, book': Book, edges: seq<Edge>)
    requires FenceInv(env, base, ms, book, edges) && MovementsGrow(ms, ms') && BookGrows(book, book')
    ensures FenceInv(env, base, ms', book', edges)
  {
    hide Justified, MovementsGrow, BookGrows, SubjectOf;
    forall i | 0 <= i < |edges| ensures Justified(env, base, ms', book', edges[i]) {
      JustifiedGrows(env, base, ms, book, ms', book', edges[i]);
    }
  }

  lemma FenceInvSnoc(env: Env, base: string, ms: Movements, book: Book, edges: seq<Edge>, x: Edge)
    requires FenceInv(env, base, ms, book, edges) && Justified(env, base, ms, book, x)
    requires forall i :: 0 <= i < |edges| ==> SubjectOf(env, edges[i]) != SubjectOf(env, x)
    ensures FenceInv(env, base, ms, book, edges + [x])
  {
    hide Justified, SubjectOf;
  }

  /** What the plan of a section-A event tells: the step, and the fence of a step that
      settled its movement. */
  lemma EffectPlan(ms: Movements, e: EffectEvent, next: MachineA, fence: Option<Advance>)
    requires PlanEffect(ms, e) == CommitA(e.movementId, next, fence)
    ensures StepA(MachineAt(ms, e.movementId), e) == Some(next)
    ensures fence.Some? ==>
              && fence.value == Advance(e.epochBefore, e.epochAfter) && e.epochBefore != e.epochAfter
              && ValidOid(e.epochBefore) && ValidOid(e.epochAfter)
              && EffectSettles(e, next) && Settled(next) && !Settled(MachineAt(ms, e.movementId))
  {
    hide StepA, EffectSettles, Settled, EffectOk, ValidOid;
    if fence.Some? {
      EffectFence(MachineAt(ms, e.movementId), e, next);
    }
  }

  lemma EffectGrows(ms: Movements, e: EffectEvent, next: MachineA)
    requires StepA(MachineAt(ms, e.movementId), e) == Some(next)
    ensures MovementsGrow(ms, ms[e.movementId := next])
  {
    hide StepA, Settled;
    if e.movementId in ms && Settled(ms[e.movementId]) {
      SettledStays(ms[e.movementId], e, next);
    }
  }

  /** Edges of settled subjects never concern a movement that is still open. */
  lemma OpenMovementHasNoEdge(env: Env, base: string, ms: Movements, book: Book, edge: Edge, mid: Id)
    requires Justified(env, base, ms, book, edge) && !Settled(MachineAt(ms, mid))
    ensures SubjectOf(env, edge) != MovementSubject(mid)
  {
    hide Settled, EffectSettles, ValidOid;
  }

  lemma EffectKeepsFence(env: Env, base: string, ms: Movements, book: Book, edges: seq<Edge>, ev: Wire,
                         e: EffectEvent, next: MachineA, fence: Option<Advance>)
    requires FenceInv(env, base, ms, book, edges) && env.intake(ev) == Ok(Effect(e)) && BaseHint(ev) == base
    requires PlanEffect(ms, e) == CommitA(e.movementId, next, fence)
    ensures FenceInv(env, base, ms[e.movementId := next], book, EdgesWith(edges, ev, fence))
  {
    hide FenceInv, PlanEffect, StepA, EffectSettles, Settled, ValidOid, MachineAt, MovementsGrow, BookGrows;
    EffectPlan(ms, e, next, fence);
    EffectGrows(ms, e, next);
    BookGrowsReflexive(book);
    FenceInvGrows(env, base, ms, book, ms[e.movementId := next], book, edges);
    if fence.Some? {
      var x := Edge(ev, e.epochBefore, e.epochAfter);
      assert Justified(env, base, ms[e.movementId := next], book, x);
      assert SubjectOf(env, x) == MovementSubject(e.movementId);
      hide Justified, SubjectOf;
      forall i | 0 <= i < |edges| ensures SubjectOf(env, edges[i]) != SubjectOf(env, x) {
        FenceInvAt(env, base, ms, book, edges, i);
        OpenMovementHasNoEdge(env, base, ms, book, edges[i], e.movementId);
      }
      FenceInvSnoc(env, base, ms[e.movementId := next], book, edges, x);
    }
  }

  lemma FenceInvAt(env: Env, base: string, ms: Movements, book: Book, edges: seq<Edge>, i: nat)
    requires FenceInv(env, base, ms, book, edges) && i < |edges|
    ensures Justified(env, base, ms, book, edges[i])
  {
  }

  lemma BookGrowsReflexive(book: Book)
    ensures BookGrows(book, book)
  {
  }

  lemma OpenHoldHasNoEdge(env: Env, base: string, ms: Movements, book: Book, edge: Edge, hid: Id)
    requires Justified(env, base, ms, book, edge) && hid in book.holds && !book.holds[hid].name.Released?
    ensures SubjectOf(env, edge) != HoldSubject(Some(hid))
  {
    hide EffectSettles, ValidOid, Settled;
  }

  lemma HoldPlan(env: Env, ms: Movements, book: Book, base: string, e: HoldEvent, next: Book, fence: Option<Advance>)
    requires PlanHold(env, ms, book, base, e) == CommitB(next, fence)
    requires KeysAgree(book.holds, book.holdDelta)
    ensures StepB(env.hash, env.mode, book, base, e, ms.Keys) == Ok(next)
    ensures fence.Some? ==>
              && fence.value == Advance(e.epochBefore, e.epochAfter) && e.epochBefore != e.epochAfter
              && ValidOid(e.epochBefore) && ValidOid(e.epochAfter)
              && HoldSettles(env.mode, e, next) && e.holdId.Some?
              && e.holdId.value in book.holds && !book.holds[e.holdId.value].name.Released?
  {
    hide StepB, HoldOk, ValidOid, KeysAgree;
    if fence.Some? {
      HoldFence(env.hash, env.mode, book, base, e, ms.Keys, next);
    }
  }

  lemma HoldKeepsFence(env: Env, base: string, ms: Movements, book: Book, edges: seq<Edge>, ev: Wire,
                       e: HoldEvent, next: Book, fence: Option<Advance>)
    requires FenceInv(env, base, ms, book, edges) && env.intake(ev) == Ok(Hold(e)) && BaseHint(ev) == base
    requires PlanHold(env, ms, book, base, e) == CommitB(next, fence)
    requires KeysAgree(book.holds, book.holdDelta) && BookGrows(book, next)
    ensures FenceInv(env, base, ms, next, EdgesWith(edges, ev, fence))
  {
    hide FenceInv, PlanHold, StepB, HoldSettles, ValidOid, MovementsGrow, BookGrows, HoldOk, KeysAgree;
    HoldPlan(env, ms, book, base, e, next, fence);
    MovementsGrowReflexive(ms);
    FenceInvGrows(env, base, ms, book, ms, next, edges);
    if fence.Some? {
      var x := Edge(ev, e.epochBefore, e.epochAfter);
      assert Justified(env, base, ms, next, x);
      assert SubjectOf(env, x) == HoldSubject(e.holdId);
      hide Justified, SubjectOf;
      forall i | 0 <= i < |edges| ensures SubjectOf(env, edges[i]) != SubjectOf(env, x) {
        FenceInvAt(env, base, ms, book, edges, i);
        OpenHoldHasNoEdge(env, base, ms, book, edges[i], e.holdId.value);
      }
      FenceInvSnoc(env, base, ms, next, edges, x);
    }
  }

  lemma MovementsGrowReflexive(ms: Movements)
    ensures MovementsGrow(ms, ms)
  {
  }

  // ----- the invariant of one base -------------------------------------------

  /** The insertion order lists every movement once, movements are durable, and their names
      and the base's are newline-free. */
  ghost predicate MovementsInv(base: string, ms: Movements, order: seq<Id>) {
    && OrderAgrees(order, ms.Keys)
    && (forall m :: m in ms ==> WellReduced(ms[m]) && NewlineFree(m))
    && (ms != map[] ==> NewlineFree(base))
  }

  ghost predicate SliceInv(env: Env, base: string, sl: Slice) {
    && MovementsInv(base, sl.Ms(), sl.order)
    && BookInv(NamingOf(env.hash, base), env.mode, sl.Bk())
    && FenceInv(env, base, sl.Ms(), sl.Bk(), sl.edges)
  }

  lemma GenesisWellReduced()
    ensures WellReduced(GENESIS_A)
  {
  }

  lemma EffectNamesClean(e: EffectEvent)
    ensures NewlineFree(e.baseKey) && NewlineFree(e.movementId)
  {
  }

  lemma EffectKeepsMovements(ms: Movements, order: seq<Id>, e: EffectEvent, next: MachineA)
    requires MovementsInv(e.baseKey, ms, order) && StepA(MachineAt(ms, e.movementId), e) == Some(next)
    ensures MovementsInv(e.baseKey, ms[e.movementId := next],
                         if e.movementId in ms then order else order + [e.movementId])
  {
    hide StepA, WellReduced, EffectOk, NewlineFree;
    EffectNamesClean(e);
    var cur := MachineAt(ms, e.movementId);
    GenesisWellReduced();
    StepWellReduced(cur, e, next);
    if e.movementId !in ms {
      OrderAfterCreate(order, ms.Keys, e.movementId);
      assert ms[e.movementId := next].Keys == ms.Keys + {e.movementId};
    } else {
      assert ms[e.movementId := next].Keys == ms.Keys;
    }
  }

  // ----- one step ------------------------------------------------------------

  /** Facts about a base that no record ever undoes. */
  ghost predicate SliceGrows(x: Slice, y: Slice) {
    && (x.halt.Some? ==> y == x)
    && MovementsGrow(x.Ms(), y.Ms())
    && BookGrows(x.Bk(), y.Bk())
    && x.order <= y.order && x.edges <= y.edges
  }

  lemma SliceGrowsTransitive(x: Slice, y: Slice, z: Slice)
    requires SliceGrows(x, y) && SliceGrows(y, z)
    ensures SliceGrows(x, z)
  {
    hide Settled;
    BookGrowsTransitive(x.Bk(), y.Bk(), z.Bk());
    hide BookGrows;
    assert z.order[..|x.order|] == y.order[..|x.order|];
    assert z.edges[..|x.edges|] == y.edges[..|x.edges|];
  }

  lemma SliceGrowsReflexive(x: Slice)
    ensures SliceGrows(x, x)
  {
  }

  lemma EffectStepKeeps(env: Env, base: string, sl: Slice, ev: Wire, e: EffectEvent)
    requires SliceInv(env, base, sl) && env.intake(ev) == Ok(Effect(e)) && BaseHint(ev) == base == e.baseKey
    requires sl.halt.None?
    ensures var t := CommitSlice(sl, ev, PlanEffect(sl.Ms(), e)); SliceInv(env, base, t) && SliceGrows(sl, t)
  {
    hide PlanEffect, StepA, FenceInv, BookInv, MovementsInv, MovementsGrow, BookGrows, NamingOf;
    PlanKindEffect(sl.Ms(), e);
    BookGrowsReflexive(sl.Bk());
    MovementsGrowReflexive(sl.Ms());
    match PlanEffect(sl.Ms(), e)
    case CommitA(mid, next, fence) =>
      EffectPlan(sl.Ms(), e, next, fence);
      EffectGrows(sl.Ms(), e, next);
      EffectKeepsMovements(sl.Ms(), sl.order, e, next);
      EffectKeepsFence(env, base, sl.Ms(), sl.Bk(), sl.edges, ev, e, next, fence);
    case _ =>
  }

  lemma PlanKindEffect(ms: Movements, e: EffectEvent)
    ensures var p := PlanEffect(ms, e); p.Halts? || (p.CommitA? && p.mid == e.movementId)
  {
    hide StepA, FencePasses;
  }

  lemma PlanKindHold(env: Env, ms: Movements, book: Book, base: string, e: HoldEvent)
    ensures var p := PlanHold(env, ms, book, base, e); p.Halts? || p.CommitB?
  {
    hide StepB, FencePasses;
  }

  lemma HoldStepKeeps(env: Env, base: string, sl: Slice, ev: Wire, e: HoldEvent)
    requires Injective(env.hash) && NewlineFree(base)
    requires SliceInv(env, base, sl) && env.intake(ev) == Ok(Hold(e)) && BaseHint(ev) == base
    requires sl.halt.None?
    ensures var t := CommitSlice(sl, ev, PlanHold(env, sl.Ms(), sl.Bk(), base, e));
            SliceInv(env, base, t) && SliceGrows(sl, t)
  {
    hide PlanHold, StepB, FenceInv, BookInv, MovementsInv, MovementsGrow, BookGrows, NamingOf, KeysAgree;
    PlanKindHold(env, sl.Ms(), sl.Bk(), base, e);
    BookGrowsReflexive(sl.Bk());
    MovementsGrowReflexive(sl.Ms());
    match PlanHold(env, sl.Ms(), sl.Bk(), base, e)
    case CommitB(next, fence) =>
      InvHasKeys(NamingOf(env.hash, base), env.mode, sl.Bk());
      HoldPlan(env, sl.Ms(), sl.Bk(), base, e, next, fence);
      StepKeepsInv(env.hash, env.mode, sl.Bk(), base, e, sl.Ms().Keys);
      StepGrows(env.hash, env.mode, sl.Bk(), base, e, sl.Ms().Keys);
      HoldKeepsFence(env, base, sl.Ms(), sl.Bk(), sl.edges, ev, e, next, fence);
    case _ =>
  }

  lemma InvHasKeys(id: Naming, mode: CredentialMode, b: Book)
    requires BookInv(id, mode, b)
    ensures KeysAgree(b.holds, b.holdDelta)
  {
  }

  /** One record keeps the invariant of every base and undoes nothing. */
  lemma ConsumeKeeps(env: Env, seen: map<string, Registration>, sl: Slice, ev: Wire, base: string)
    requires Injective(env.hash) && Local(env) && SliceInv(env, base, sl)
    ensures var t := SliceConsume(env, seen, sl, ev, base); SliceInv(env, base, t) && SliceGrows(sl, t)
  {
    hide FenceInv, BookInv, MovementsInv, SliceGrows, Check, CommitSlice, PlanEffect, PlanHold;
    SliceGrowsReflexive(sl);
    assert forall h :: SliceInv(env, base, sl.(halt := h));
    match env.intake(ev)
    case Err(_) => HaltGrows(sl, ev);
    case Ok(built) =>
      HaltGrows(sl, ev);
      if Check(env, seen, ev).New? && base == BaseHint(ev) && sl.halt.None? {
        match built
        case Effect(e) => EffectStepKeeps(env, base, sl, ev, e);
        case Hold(e) => HoldStepKeeps(env, base, sl, ev, e);
        case Single => IdleCommit(sl, ev);
      }
  }

  lemma IdleCommit(sl: Slice, ev: Wire)
    ensures CommitSlice(sl, ev, Idle) == sl
  {
  }

  lemma HaltGrows(sl: Slice, ev: Wire)
    ensures forall h :: SliceGrows(sl, sl.HaltedWith(h))
  {
    hide MovementsGrow, BookGrows;
    MovementsGrowReflexive(sl.Ms());
    BookGrowsReflexive(sl.Bk());
  }

  // ----- whole runs ----------------------------------------------------------

  lemma {:induction false} SliceRunKeeps(env: Env, seen: map<string, Registration>, sl: Slice, events: seq<Wire>,
                                         base: string)
    requires Injective(env.hash) && Local(env) && SliceInv(env, base, sl)
    ensures var t := SliceRun(env, seen, sl, events, base); SliceInv(env, base, t) && SliceGrows(sl, t)
  {
    hide SliceInv, SliceGrows, SliceConsume, SeenRun, Local;
    if events == [] {
      SliceGrowsReflexive(sl);
    } else {
      var before, ev := events[..|events| - 1], events[|events| - 1];
      SliceRunKeeps(env, seen, sl, before, base);
      var mid := SliceRun(env, seen, sl, before, base);
      ConsumeKeeps(env, SeenRun(env, seen, before), mid, ev, base);
      SliceGrowsTransitive(sl, mid, SliceRun(env, seen, sl, events, base));
    }
  }

  lemma SeedInv(env: Env, events: seq<Wire>, base: string)
    ensures SliceInv(env, base, SliceAt(Seed(events), base))
  {
    hide BookInv, CeilingHalts;
    EmptyBookInv(NamingOf(env.hash, base), env.mode);
  }

  /** Every reachable state keeps every base's invariant. */
  lemma ReachableInv(env: Env, events: seq<Wire>, prefix: seq<Wire>, base: string)
    requires Injective(env.hash) && Local(env)
    ensures SliceInv(env, base, SliceAt(Run(env, Seed(events), prefix), base))
  {
    hide SliceInv, SliceGrows, SliceRun, Run, Local, SliceAt;
    SeedInv(env, events, base);
    RunSlice(env, Seed(events), prefix, base);
    SliceRunKeeps(env, Seed(events).seen, SliceAt(Seed(events), base), prefix, base);
  }

  /** Nothing a prefix of the stream settled is undone by the rest. */
  lemma ReachableGrows(env: Env, events: seq<Wire>, prefix: seq<Wire>, rest: seq<Wire>, base: string)
    requires Injective(env.hash) && Local(env)
    ensures SliceGrows(SliceAt(Run(env, Seed(events), prefix), base),
                       SliceAt(Run(env, Seed(events), prefix + rest), base))
  {
    hide SliceInv, SliceGrows, SliceRun, Run, Local, SliceAt;
    var s := Run(env, Seed(events), prefix);
    ReachableInv(env, events, prefix, base);
    RunConcat(env, Seed(events), prefix, rest);
    RunSlice(env, s, rest, base);
    SliceRunKeeps(env, s.seen, SliceAt(s, base), rest, base);
  }
}
