/** The shipped section-A table as an instance of the exactness theory of arbitrary tables:
    the durable projection accepts exactly what some live run could have appended. */
module ShippedTable {
  import opened Wrappers
  import opened Schema
  import opened Events
  import opened Projection
  import opened SectionA
  import T = ProjectionTables

  function KindOf(v: EffectVariant): T.Kind {
    match v
    case ReconcileAccept => T.Accept
    case ReconcileRejectRestoreHold => T.Reject
    case ReconcileReplayIdentity => T.Replay
    case _ => T.Plain
  }

  function VariantOf(v: EffectVariant): T.Variant<StateA> {
    T.Variant({FromA(v)}, ToA(v), OperatorRowA(v), KindOf(v))
  }

  ghost const SHIPPED: T.Table<StateA> :=
    T.Table(set v: EffectVariant :: VariantOf(v), SECTION_A_ROWS, MEMORY_ONLY, DURABLE_STATES, Reconciled, Held)

  function Lift(m: MachineA): T.Machine<StateA> {
    T.Machine(m.name, m.disposition)
  }

  function LiftEvent(e: EffectEvent): T.Event<StateA> {
    T.Event(VariantOf(e.variant), FromA(e.variant), e.disposition, EpochOkA(e))
  }

  lemma ShippedVariant(v: EffectVariant)
    ensures VariantOf(v) in SHIPPED.variants
  {
  }

  lemma ShippedStepRows(a: StateA, b: StateA)
    ensures Step(SHIPPED.rows, a, b) <==> exists v :: v in SHIPPED.variants && a in v.froms && v.to == b
    ensures Step(SHIPPED.rows, a, b) && b in SHIPPED.memory ==>
              exists v :: v in SHIPPED.variants && a in v.froms && v.to == b && T.Lands(SHIPPED, v)
  {
    RowsAreLiveSteps(a, b);
    hide Step, LiveStep, FromA, ToA, OperatorRowA, KindOf, T.Lands;
    if LiveStep(a, b) {
      var v := VariantFor(a, b);
      ShippedVariant(v);
      assert a in VariantOf(v).froms && VariantOf(v).to == b;
      MemoryRowLands(v);
    }
    if x :| x in SHIPPED.variants && a in x.froms && x.to == b {
      var v: EffectVariant :| x == VariantOf(v);
      VariantIsLive(v);
    }
  }

  lemma MemoryRowLands(v: EffectVariant)
    ensures ToA(v) in MEMORY_ONLY ==> T.Lands(SHIPPED, VariantOf(v))
  {
  }

  lemma VariantIsLive(v: EffectVariant)
    ensures LiveStep(FromA(v), ToA(v))
  {
  }

  lemma MemoryIsMemory(s: StateA)
    ensures s in MEMORY_ONLY <==> MemoryOnly(s)
    ensures s in DURABLE_STATES <==> Durable(s)
  {
  }

  lemma ShippedWellFormed()
    ensures T.WellFormed(SHIPPED)
  {
    hide Step;
    forall a, b
      ensures Step(SHIPPED.rows, a, b) <==> exists v :: v in SHIPPED.variants && a in v.froms && v.to == b
    {
      ShippedStepRows(a, b);
    }
    forall a, b | b in SHIPPED.memory && Step(SHIPPED.rows, a, b)
      ensures exists v :: v in SHIPPED.variants && a in v.froms && v.to == b && T.Lands(SHIPPED, v)
    {
      ShippedStepRows(a, b);
    }
    forall s ensures s in MEMORY_ONLY || s in DURABLE_STATES {
      MemoryIsMemory(s);
    }
  }

  lemma VariantIsFaithful(v: EffectVariant, d: StateA)
    requires Durable(d) && FromA(v) in Frontier(d)
    ensures T.FaithfulAt(SHIPPED, VariantOf(v), d, FromA(v))
  {
  }

  /** Every row of the shipped table is faithful: its operator rows leave durable states. */
  lemma ShippedFaithful()
    ensures T.FaithfulTable(SHIPPED)
  {
    hide Step, InFrontier, T.FaithfulAt, Frontier, FromA, ToA, OperatorRowA, KindOf;
    SectionARowsGenerate();
    forall x, d, f | x in SHIPPED.variants && d in SHIPPED.durable && f in x.froms
      && InFrontier(SHIPPED.rows, SHIPPED.memory, d, f)
      ensures T.FaithfulAt(SHIPPED, x, d, f)
    {
      MemoryIsMemory(d);
      FrontierIsComposed(SECTION_A_ROWS, d, f);
      var v: EffectVariant :| x == VariantOf(v);
      assert f == FromA(v);
      VariantIsFaithful(v, d);
    }
  }

  /** The reducer over the emitted constants is the durable step over the shipped table. */
  lemma ShippedStep(cur: MachineA, e: EffectEvent)
    requires Durable(cur.name)
    ensures T.DurableStep(SHIPPED, Lift(cur), LiftEvent(e)) ==
            match StepA(cur, e) case None => None case Some(next) => Some(Lift(next))
  {
    hide Step, InFrontier, IsEdge, EpochOkA, EffectOk;
    SectionARowsGenerate();
    MemoryIsMemory(cur.name);
    MemoryIsMemory(ToA(e.variant));
    FrontierIsComposed(SECTION_A_ROWS, cur.name, FromA(e.variant));
    EdgesAreComposed(SECTION_A_ROWS, cur.name, ToA(e.variant));
  }

  /** Projection exactness of the shipped table, from the general theorem. */
  lemma ShippedExact(cur: MachineA, e: EffectEvent, next: MachineA)
    requires Durable(cur.name) && Durable(ToA(e.variant)) && EpochOkA(e)
    ensures StepA(cur, e) == Some(next) <==>
            T.LiveReachable(SHIPPED, Lift(cur), LiftEvent(e), Lift(next))
              || T.Replayed(SHIPPED, Lift(cur), LiftEvent(e), Lift(next))
  {
    hide EffectOk, EpochOkA, Step, InFrontier;
    ShippedWellFormed();
    ShippedFaithful();
    ShippedVariant(e.variant);
    MemoryIsMemory(cur.name);
    MemoryIsMemory(ToA(e.variant));
    ShippedStep(cur, e);
    hide StepA;
    assert T.Faithful(SHIPPED, VariantOf(e.variant));
    T.FaithfulIsExact(SHIPPED, Lift(cur), LiftEvent(e), Lift(next));
  }

  // ----- live runs and durable traces of the shipped machine -----------------

  /** `events` takes the live machine from `state` to `final`. */
  ghost predicate LiveRun(state: MachineA, events: seq<EffectEvent>, final: MachineA)
    decreases |events|
  {
    if events == [] then state == final
    else
      var next := ApplyA(state, events[0]);
      next.Some? && LiveRun(next.value, events[1..], final)
  }

  /** The events of a run that reach the durable log. */
  function DurablePart(events: seq<EffectEvent>): seq<EffectEvent> {
    if events == [] then []
    else (if Durable(ToA(events[0].variant)) then [events[0]] else []) + DurablePart(events[1..])
  }

  /** Reduce a durable trace of one movement. */
  function ReplayA(cur: MachineA, trace: seq<EffectEvent>): Option<MachineA>
    decreases |trace|
  {
    if trace == [] then Some(cur)
    else
      var next := StepA(cur, trace[0]);
      if next.None? then None else ReplayA(next.value, trace[1..])
  }

  /** `live` is a state the process may be in when its durable state is `cur`. */
  ghost predicate Tracks(cur: MachineA, live: MachineA) {
    Durable(cur.name) && exists run :: DurablePart(run) == [] && LiveRun(cur, run, live)
  }

  /** Some live run goes from `cur` through memory-only states and then takes e's row,
      ending in `next`. */
  ghost predicate LiveReachable(cur: MachineA, e: EffectEvent, next: MachineA) {
    exists mid :: Tracks(cur, mid) && ApplyA(mid, e) == Some(next)
  }

  ghost predicate EpochsHold(trace: seq<EffectEvent>) {
    forall i :: 0 <= i < |trace| ==> EpochOkA(trace[i])
  }

  /** No accepting reconcile is replayed along the trace. */
  ghost predicate NoAcceptReplay(cur: MachineA, trace: seq<EffectEvent>)
    decreases |trace|
  {
    trace == [] ||
    (&& !(cur.name.Reconciled? && trace[0].variant.ReconcileAccept?)
     && (StepA(cur, trace[0]).Some? ==> NoAcceptReplay(StepA(cur, trace[0]).value, trace[1..])))
  }

  // ----- the same over the general table -------------------------------------

  function LiftAll(events: seq<EffectEvent>): (lifted: seq<T.Event<StateA>>)
    ensures |lifted| == |events| && forall i :: 0 <= i < |events| ==> lifted[i] == LiftEvent(events[i])
  {
    if events == [] then [] else [LiftEvent(events[0])] + LiftAll(events[1..])
  }

  function Lifted(m: Option<MachineA>): Option<T.Machine<StateA>> {
    if m.None? then None else Some(Lift(m.value))
  }

  lemma ApplyLifts(state: MachineA, e: EffectEvent)
    ensures T.Apply(SHIPPED, Lift(state), LiftEvent(e)) == Lifted(ApplyA(state, e))
    ensures ApplyA(state, e).Some? ==> T.Typed(SHIPPED, LiftEvent(e)) && LiftEvent(e).from == state.name
  {
    ShippedVariant(e.variant);
  }

  lemma {:induction false} LiveRunLifts(state: MachineA, events: seq<EffectEvent>, final: MachineA)
    ensures LiveRun(state, events, final) <==> T.LiveRun(SHIPPED, Lift(state), LiftAll(events), Lift(final))
    decreases |events|
  {
    if events != [] {
      ApplyLifts(state, events[0]);
      hide ApplyA, T.Apply, T.Typed, LiftEvent, EffectOk;
      if ApplyA(state, events[0]).Some? {
        LiveRunLifts(ApplyA(state, events[0]).value, events[1..], final);
      }
    }
  }

  lemma {:induction false} DurablePartLifts(events: seq<EffectEvent>)
    ensures T.DurablePart(SHIPPED, LiftAll(events)) == LiftAll(DurablePart(events))
  {
    if events != [] {
      var e := events[0];
      MemoryIsMemory(ToA(e.variant));
      DurablePartLifts(events[1..]);
      assert Durable(ToA(e.variant)) ==> DurablePart(events)[1..] == DurablePart(events[1..]);
      hide KindOf, OperatorRowA, FromA, ToA, EffectOk, EpochOkA;
    }
  }

  /** A run that logs nothing passes through memory-only states. */
  lemma {:induction false} MemoryRunLifts(state: MachineA, run: seq<EffectEvent>, mid: MachineA)
    requires LiveRun(state, run, mid) && DurablePart(run) == []
    ensures T.MemoryRun(SHIPPED, Lift(state), LiftAll(run), Lift(mid))
    decreases |run|
  {
    if run != [] {
      var e := run[0];
      ApplyLifts(state, e);
      MemoryIsMemory(ToA(e.variant));
      LandsInMemory(state, e);
      hide ApplyA, T.Apply, T.Typed, LiftEvent, EffectOk, ToA;
      MemoryRunLifts(ApplyA(state, e).value, run[1..], mid);
    }
  }

  lemma LandsInMemory(state: MachineA, e: EffectEvent)
    requires MemoryOnly(ToA(e.variant)) && ApplyA(state, e).Some?
    ensures ApplyA(state, e).value.name == ToA(e.variant)
  {
  }

  /** And back: a run through memory-only states logs nothing. */
  lemma {:induction false} MemoryRunUnlogged(st: T.Machine<StateA>, run: seq<T.Event<StateA>>, mid: T.Machine<StateA>)
    requires T.MemoryRun(SHIPPED, st, run, mid)
    ensures T.DurablePart(SHIPPED, run) == []
    decreases |run|
  {
    if run != [] {
      TakesMemoryRow(st, run[0]);
      MemoryRunUnlogged(T.Apply(SHIPPED, st, run[0]).value, run[1..], mid);
      hide T.Apply;
    }
  }

  lemma TakesMemoryRow(st: T.Machine<StateA>, h: T.Event<StateA>)
    requires T.Typed(SHIPPED, h) && T.Apply(SHIPPED, st, h).Some? && T.Apply(SHIPPED, st, h).value.name in MEMORY_ONLY
    ensures h.variant.to in MEMORY_ONLY
  {
    var v: EffectVariant :| h.variant == VariantOf(v);
  }

  function MemoryEvent(v: EffectVariant): (e: EffectEvent)
    requires MemoryOnly(ToA(v))
    ensures e.variant == v
  {
    EffectRecord(v, "b", "m", "e", "e", Some("e"), None)
  }

  /** An unlogged event of the general machine, as an event of the shipped one. */
  lemma MemoryRowTaken(state: MachineA, h: T.Event<StateA>) returns (e: EffectEvent)
    requires T.Typed(SHIPPED, h) && h.variant.to in MEMORY_ONLY && T.Apply(SHIPPED, Lift(state), h).Some?
    ensures Lifted(ApplyA(state, e)) == T.Apply(SHIPPED, Lift(state), h) && !Durable(ToA(e.variant))
  {
    var v: EffectVariant :| h.variant == VariantOf(v);
    e := MemoryEvent(v);
  }

  /** Every run of the general machine that logs a trace of shipped events is matched by one
      of the shipped machine. */
  lemma {:induction false} RunLowers(state: MachineA, run: seq<T.Event<StateA>>, end: T.Machine<StateA>,
                                     trace: seq<EffectEvent>)
    returns (events: seq<EffectEvent>, final: MachineA)
    requires T.LiveRun(SHIPPED, Lift(state), run, end) && T.DurablePart(SHIPPED, run) == LiftAll(trace)
    ensures LiveRun(state, events, final) && Lift(final) == end && DurablePart(events) == trace
    decreases |run|
  {
    if run == [] {
      return [], state;
    }
    var h, e, rest := run[0], *, trace;
    if h.variant.to in MEMORY_ONLY {
      e := MemoryRowTaken(state, h);
      assert T.DurablePart(SHIPPED, run) == T.DurablePart(SHIPPED, run[1..]);
    } else {
      assert T.DurablePart(SHIPPED, run) == [h] + T.DurablePart(SHIPPED, run[1..]);
      e, rest := trace[0], trace[1..];
      assert h == LiftEvent(e);
      ApplyLifts(state, e);
      MemoryIsMemory(ToA(e.variant));
      assert LiftAll(trace) == [h] + LiftAll(rest);
    }
    hide T.Apply, ApplyA, EffectOk, EpochOkA, KindOf, OperatorRowA, FromA, ToA;
    var tail, last := RunLowers(ApplyA(state, e).value, run[1..], end, rest);
    events, final := [e] + tail, last;
    assert events[1..] == tail;
  }

  /** Reducing a trace is replaying it over the general table. */
  lemma {:induction false} ReplayLifts(cur: MachineA, trace: seq<EffectEvent>)
    requires Durable(cur.name)
    ensures T.ReduceTrace(SHIPPED, Lift(cur), LiftAll(trace)) == Lifted(ReplayA(cur, trace))
    ensures NoAcceptReplay(cur, trace) <==> T.NoAcceptReplay(SHIPPED, Lift(cur), LiftAll(trace))
    decreases |trace|
  {
    if trace != [] {
      var e := trace[0];
      ShippedStep(cur, e);
      StepIsDurable(cur, e);
      assert LiftAll(trace)[1..] == LiftAll(trace[1..]);
      hide StepA, T.DurableStep, EffectOk, EpochOkA, T.Typed, LiftEvent, T.WellFormed;
      if StepA(cur, e).Some? {
        ReplayLifts(StepA(cur, e).value, trace[1..]);
      }
    }
  }

  /** What a reduced trace holds could have been logged. */
  lemma {:induction false} ReducedIsLoggable(cur: MachineA, trace: seq<EffectEvent>)
    requires Durable(cur.name) && ReplayA(cur, trace).Some?
    ensures T.Loggable(SHIPPED, LiftAll(trace)) && Durable(ReplayA(cur, trace).value.name)
    decreases |trace|
  {
    if trace != [] {
      var lifted := LiftAll(trace);
      StepIsDurable(cur, trace[0]);
      hide StepA, EffectOk, EpochOkA, T.Typed;
      ReducedIsLoggable(StepA(cur, trace[0]).value, trace[1..]);
      assert forall i :: 0 < i < |lifted| ==> lifted[i] == LiftAll(trace[1..])[i - 1];
    }
  }

  lemma StepIsDurable(cur: MachineA, e: EffectEvent)
    requires Durable(cur.name)
    ensures StepA(cur, e).Some? ==>
            Durable(StepA(cur, e).value.name) && EpochOkA(e) && LiftEvent(e).variant.to !in MEMORY_ONLY
    ensures T.Typed(SHIPPED, LiftEvent(e))
    ensures LiftEvent(e).variant.kind.Accept? <==> e.variant.ReconcileAccept?
  {
    hide EpochOkA, EffectOk;
    ShippedVariant(e.variant);
    MemoryIsMemory(ToA(e.variant));
  }

  // ----- the theorems, as instances ------------------------------------------

  /** Projection exactness: a durable event whose epochs are consistent is accepted from a
      durable state exactly when a live run could have appended it there, with the same
      resulting state; the one addition is replaying an accepting reconcile. */
  lemma DurableStepExact(cur: MachineA, e: EffectEvent, next: MachineA)
    requires Durable(cur.name) && Durable(ToA(e.variant)) && EpochOkA(e)
    ensures StepA(cur, e) == Some(next) <==>
            LiveReachable(cur, e, next)
            || (cur.name.Reconciled? && e.variant.ReconcileAccept? && cur.disposition == e.disposition && next == cur)
  {
    ShippedExact(cur, e, next);
    hide StepA, EpochOkA, EffectOk;
    if T.LiveReachable(SHIPPED, Lift(cur), LiftEvent(e), Lift(next)) {
      var run, mid :| T.MemoryRun(SHIPPED, Lift(cur), run, mid) && mid.name == LiftEvent(e).from
                      && T.Apply(SHIPPED, mid, LiftEvent(e)) == Some(Lift(next));
      var live := MemoryRunTracks(cur, run, mid);
      ApplyLifts(live, e);
    }
    if LiveReachable(cur, e, next) {
      var mid :| Tracks(cur, mid) && ApplyA(mid, e) == Some(next);
      var run :| DurablePart(run) == [] && LiveRun(cur, run, mid);
      MemoryRunLifts(cur, run, mid);
      ApplyLifts(mid, e);
    }
  }

  lemma MemoryRunTracks(cur: MachineA, run: seq<T.Event<StateA>>, mid: T.Machine<StateA>) returns (live: MachineA)
    requires Durable(cur.name) && T.MemoryRun(SHIPPED, Lift(cur), run, mid)
    ensures Tracks(cur, live) && Lift(live) == mid
  {
    T.MemoryRunIsLive(SHIPPED, Lift(cur), run, mid);
    MemoryRunUnlogged(Lift(cur), run, mid);
    var events;
    events, live := RunLowers(cur, run, mid, []);
  }

  /** Whatever a live run does, its durable trace is accepted exactly when the events that
      reached the log meet the epoch algebra, and then it ends where the run ended. */
  lemma LiveTraceAccepted(cur: MachineA, live: MachineA, events: seq<EffectEvent>, final: MachineA)
    requires Tracks(cur, live) && LiveRun(live, events, final)
    ensures ReplayA(cur, DurablePart(events)).Some? <==> EpochsHold(DurablePart(events))
    ensures var end := ReplayA(cur, DurablePart(events));
            end.Some? ==> Tracks(end.value, final) && (Durable(final.name) ==> end.value == final)
  {
    var run :| DurablePart(run) == [] && LiveRun(cur, run, live);
    MemoryRunLifts(cur, run, live);
    LiveRunLifts(live, events, final);
    DurablePartLifts(events);
    ReplayLifts(cur, DurablePart(events));
    ShippedWellFormed();
    ShippedFaithful();
    MemoryRowsLand();
    MemoryIsMemory(cur.name);
    MemoryIsMemory(final.name);
    T.LiveTraceExact(SHIPPED, Lift(cur), LiftAll(run), Lift(live), LiftAll(events), Lift(final));
    hide LiveRun, DurablePart, T.WellFormed, T.FaithfulTable, EpochOkA, EffectOk, Tracks;
    EpochsLift(DurablePart(events));
    var end := ReplayA(cur, DurablePart(events));
    if end.Some? {
      ReducedIsLoggable(cur, DurablePart(events));
      var tail :| T.MemoryRun(SHIPPED, Lift(end.value), tail, Lift(final));
      var last := MemoryRunTracks(end.value, tail, Lift(final));
    }
  }

  lemma MemoryRowsLand()
    ensures forall v :: v in SHIPPED.variants && v.to in SHIPPED.memory ==> T.Lands(SHIPPED, v)
  {
    forall x | x in SHIPPED.variants && x.to in SHIPPED.memory ensures T.Lands(SHIPPED, x) {
      var v: EffectVariant :| x == VariantOf(v);
      MemoryRowLands(v);
    }
  }

  lemma EpochsLift(trace: seq<EffectEvent>)
    ensures T.EpochsHold(LiftAll(trace)) <==> EpochsHold(trace)
  {
    hide EpochOkA, EffectOk;
    forall i | 0 <= i < |trace| ensures LiftAll(trace)[i].epochsOk <==> EpochOkA(trace[i]) {
    }
  }

  /** Conversely, every accepted trace is the durable trace of some live run. */
  lemma AcceptedTraceIsLive(cur: MachineA, trace: seq<EffectEvent>, final: MachineA) returns (events: seq<EffectEvent>)
    requires Durable(cur.name) && ReplayA(cur, trace) == Some(final) && NoAcceptReplay(cur, trace)
    ensures LiveRun(cur, events, final) && DurablePart(events) == trace
  {
    ReplayLifts(cur, trace);
    ReducedIsLoggable(cur, trace);
    ShippedWellFormed();
    ShippedFaithful();
    MemoryIsMemory(cur.name);
    var run := T.AcceptedTraceIsLive(SHIPPED, Lift(cur), LiftAll(trace), Lift(final));
    var last;
    events, last := RunLowers(cur, run, Lift(final), trace);
  }

  // ----- a table the generator accepts and the reducer does not fit ----------

  /** One more event on a row that is there already: an operator may reconcile a submitted
      movement to HELD. */
  const SUBMITTED_RECONCILE: T.Variant<StateA> := T.Variant({Submitted}, Held, true, T.Plain)

  ghost const OPERATOR_FROM_MEMORY: T.Table<StateA> := SHIPPED.(variants := SHIPPED.variants + {SUBMITTED_RECONCILE})

  lemma SubmittedMayBeHeld()
    ensures Step(SECTION_A_ROWS, Submitted, Held)
  {
    RowsAreLiveSteps(Submitted, Held);
    assert LiveStep(Submitted, Held);
    hide Step;
  }

  lemma OperatorFromMemoryWellFormed()
    ensures T.WellFormed(OPERATOR_FROM_MEMORY)
  {
    hide Step, T.WellFormed, VariantOf, SECTION_A_ROWS;
    ShippedWellFormed();
    SubmittedMayBeHeld();
    assert SHIPPED.durable == DURABLE_STATES && SHIPPED.rows == SECTION_A_ROWS;
    AddingKeeps(SHIPPED, SUBMITTED_RECONCILE, Submitted);
  }

  /** A variant for a step the rows already have changes nothing about being well formed. */
  lemma AddingKeeps(t: T.Table<StateA>, x: T.Variant<StateA>, a: StateA)
    requires T.WellFormed(t) && x.froms == {a} && Step(t.rows, a, x.to) && x.to in t.durable
    ensures T.WellFormed(t.(variants := t.variants + {x}))
  {
    hide Step;
    var u := t.(variants := t.variants + {x});
    forall c, b ensures Step(u.rows, c, b) <==> exists v :: v in u.variants && c in v.froms && v.to == b {
      if Step(t.rows, c, b)
    {
        var v :| v in t.variants && c in v.froms && v.to == b;
        assert v in u.variants;
      }
    }
    forall c, b | b in u.memory && Step(u.rows, c, b)
      ensures exists v :: v in u.variants && c in v.froms && v.to == b && T.Lands(u, v)
    {
      var v :| v in t.variants && c in v.froms && v.to == b && T.Lands(t, v);
      assert v in u.variants && T.Lands(u, v);
    }
  }

  /** The projection constants stay as shipped, and yet the new event, live after SUBMITTED,
      is refused: an operator row is stepped from the durable state itself. */
  lemma MemoryOperatorRefused()
    ensures OPERATOR_FROM_MEMORY.rows == SHIPPED.rows && T.WellFormed(OPERATOR_FROM_MEMORY)
    ensures !T.Faithful(OPERATOR_FROM_MEMORY, SUBMITTED_RECONCILE)
    ensures var cur, e := T.Machine(Prepared, None),
                          T.Event(SUBMITTED_RECONCILE, Submitted, Some(RejectRestoreHold), true);
            && T.Typed(OPERATOR_FROM_MEMORY, e)
            && T.LiveReachable(OPERATOR_FROM_MEMORY, cur, e, T.Machine(Held, None))
            && T.DurableStep(OPERATOR_FROM_MEMORY, cur, e) == None
  {
    OperatorFromMemoryWellFormed();
    SubmitLeadsThere();
    hide Step, InFrontier, IsEdge, T.WellFormed, VariantOf, T.MemoryRun;
    var t := OPERATOR_FROM_MEMORY;
    SectionARowsGenerate();
    FrontierIsComposed(t.rows, Prepared, Submitted);
    assert !T.FaithfulAt(t, SUBMITTED_RECONCILE, Prepared, Submitted);
    var cur, mid := T.Machine(Prepared, None), T.Machine(Submitted, None);
    var e := T.Event(SUBMITTED_RECONCILE, Submitted, Some(RejectRestoreHold), true);
    assert T.Apply(t, mid, e) == Some(T.Machine(Held, None));
  }

  lemma SubmitLeadsThere()
    ensures exists run :: T.MemoryRun(OPERATOR_FROM_MEMORY, T.Machine(Prepared, None), run, T.Machine(Submitted, None))
  {
    ShippedVariant(Submit);
    var v := VariantOf(Submit);
    assert v == T.Variant({Prepared}, Submitted, false, T.Plain) && Submitted in MEMORY_ONLY;
    hide VariantOf;
    OneMemoryStep(OPERATOR_FROM_MEMORY, v, Prepared);
  }

  lemma OneMemoryStep(t: T.Table<StateA>, v: T.Variant<StateA>, a: StateA)
    requires v in t.variants && a in v.froms && v.to in t.memory && v.kind.Plain?
    ensures exists run :: T.MemoryRun(t, T.Machine(a, None), run, T.Machine(v.to, None))
  {
    var e, mid := T.Event(v, a, None, true), T.Machine(v.to, None);
    assert [e][1..] == [];
    assert T.MemoryRun(t, mid, [], mid);
    assert T.MemoryRun(t, T.Machine(a, None), [e], mid);
  }
}
