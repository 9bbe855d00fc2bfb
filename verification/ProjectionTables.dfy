/** The durable reducer and the live machine over an arbitrary transition table: when the
    composed projection accepts exactly what some live run could have appended. */
module ProjectionTables {
  import opened Wrappers
  import opened Schema
  import opened Projection

  /** The variants the runtime recognises by class: the three reconciles, and all others. */
  datatype Kind = Plain | Accept | Reject | Replay

  /** One event variant, as its row is transcribed into it. */
  datatype Variant<S> = Variant(froms: set<S>, to: S, operator: bool, kind: Kind)

  /** A typed event: its audit source, its disposition, and whether its epochs satisfy its
      row's algebra. */
  datatype Event<S> = Event(variant: Variant<S>, from: S, disposition: Option<Disposition>, epochsOk: bool)

  datatype Machine<S> = Machine(name: S, disposition: Option<Disposition>)

  /** A section-A table: its event variants, its rows, the durability partition, and the two
      states the runtime names. */
  datatype Table<S> = Table(variants: set<Variant<S>>, rows: seq<Row<S>>, memory: set<S>, durable: set<S>,
                            reconciled: S, held: S)

  // ----- the two machines ----------------------------------------------------

  /** One live step; None is an illegal pair. */
  ghost function Apply<S>(t: Table<S>, st: Machine<S>, e: Event<S>): Option<Machine<S>> {
    if st.name !in e.variant.froms then None
    else match e.variant.kind
      case Replay => if st.disposition == e.disposition then Some(st) else None
      case Accept => Some(Machine(t.reconciled, e.disposition))
      case Reject => Some(Machine(t.held, None))
      case Plain => Some(Machine(e.variant.to, None))
  }

  /** One durable step over the composed projection; None halts the base. */
  ghost function DurableStep<S(!new)>(t: Table<S>, cur: Machine<S>, e: Event<S>): Option<Machine<S>> {
    if e.variant.to in t.memory || !e.epochsOk then None
    else if cur.name == t.reconciled && e.variant.kind.Accept? then
      if cur.disposition == e.disposition then Some(cur) else None
    else if cur.name !in t.durable || !InFrontier(t.rows, t.memory, cur.name, e.from) then None
    else if !IsEdge(t.rows, t.memory, cur.name, e.variant.to) then None
    else if e.variant.operator then Apply(t, cur, e)
    else Some(Machine(e.variant.to, None))
  }

  // ----- what a table is -----------------------------------------------------

  /** The rows are exactly those the variants transcribe: no variant has sources of its own,
      and every live row has a variant. */
  ghost predicate Described<S(!new)>(t: Table<S>) {
    forall a, b :: Step(t.rows, a, b) <==> exists v :: v in t.variants && a in v.froms && v.to == b
  }

  /** Whether taking the row lands on its target: the runtime moves to the states it names on
      an accepting or rejecting reconcile and stays put on a replay, whatever the row says. */
  ghost predicate Lands<S>(t: Table<S>, v: Variant<S>) {
    match v.kind
    case Plain => true
    case Accept => v.to == t.reconciled
    case Reject => v.to == t.held
    case Replay => v.froms <= {v.to}
  }

  /** Every row into a memory-only state can be taken: one of its variants lands there. */
  ghost predicate MemoryRowsTaken<S(!new)>(t: Table<S>) {
    forall a, b :: b in t.memory && Step(t.rows, a, b) ==>
      exists v :: v in t.variants && a in v.froms && v.to == b && Lands(t, v)
  }

  /** Durability is an exclusive partition of the states the machine moves to. */
  ghost predicate Partitioned<S(!new)>(t: Table<S>) {
    && t.durable !! t.memory && t.reconciled in t.durable && t.held in t.durable
    && forall v :: v in t.variants ==> v.to in t.memory || v.to in t.durable
  }

  ghost predicate WellFormed<S(!new)>(t: Table<S>) {
    Described(t) && MemoryRowsTaken(t) && Partitioned(t)
  }

  /** What an event's constructor guarantees. */
  ghost predicate Typed<S>(t: Table<S>, e: Event<S>) {
    e.variant in t.variants && e.from in e.variant.froms
  }

  // ----- live runs -----------------------------------------------------------

  /** `events` takes the live machine from `st` to `final`, each stamped with the state it
      was appended in. */
  ghost predicate LiveRun<S>(t: Table<S>, st: Machine<S>, events: seq<Event<S>>, final: Machine<S>)
    decreases |events|
  {
    if events == [] then st == final
    else
      var next := Apply(t, st, events[0]);
      Typed(t, events[0]) && events[0].from == st.name && next.Some? && LiveRun(t, next.value, events[1..], final)
  }

  /** A live run whose every step leaves the machine in a memory-only state. */
  ghost predicate MemoryRun<S>(t: Table<S>, st: Machine<S>, run: seq<Event<S>>, mid: Machine<S>)
    decreases |run|
  {
    if run == [] then st == mid
    else
      var next := Apply(t, st, run[0]);
      && Typed(t, run[0]) && run[0].from == st.name && next.Some? && next.value.name in t.memory
      && MemoryRun(t, next.value, run[1..], mid)
  }

  /** No event of the run reaches the durable log. */
  ghost predicate Unlogged<S>(t: Table<S>, run: seq<Event<S>>) {
    forall i :: 0 <= i < |run| ==> run[i].variant.to in t.memory
  }

  /** Some live run goes from `cur` through memory-only states to the event's source and
      then takes its row, ending in `next`. */
  ghost predicate LiveReachable<S(!new)>(t: Table<S>, cur: Machine<S>, e: Event<S>, next: Machine<S>) {
    exists run, mid :: MemoryRun(t, cur, run, mid) && mid.name == e.from && Apply(t, mid, e) == Some(next)
  }

  lemma ApplyLands<S(!new)>(t: Table<S>, st: Machine<S>, e: Event<S>)
    requires Lands(t, e.variant) && Apply(t, st, e).Some?
    ensures Apply(t, st, e).value.name == e.variant.to
  {
  }

  lemma {:induction false} MemoryRunIsLive<S>(t: Table<S>, st: Machine<S>, run: seq<Event<S>>, mid: Machine<S>)
    requires MemoryRun(t, st, run, mid)
    ensures LiveRun(t, st, run, mid)
    decreases |run|
  {
    if run != [] {
      MemoryRunIsLive(t, Apply(t, st, run[0]).value, run[1..], mid);
    }
  }

  lemma {:induction false} MemoryRunSnoc<S>(t: Table<S>, st: Machine<S>, run: seq<Event<S>>, mid: Machine<S>,
                                            e: Event<S>)
    requires MemoryRun(t, st, run, mid) && Typed(t, e) && e.from == mid.name
    requires Apply(t, mid, e).Some? && Apply(t, mid, e).value.name in t.memory
    ensures MemoryRun(t, st, run + [e], Apply(t, mid, e).value)
    decreases |run|
  {
    hide Typed;
    if run == [] {
      assert run + [e] == [e] && [e][1..] == [];
      hide Apply;
      assert MemoryRun(t, Apply(t, st, e).value, [], Apply(t, mid, e).value);
    } else {
      hide Apply;
      MemoryRunSnoc(t, Apply(t, st, run[0]).value, run[1..], mid, e);
      assert (run + [e])[1..] == run[1..] + [e];
    }
  }

  lemma {:induction false} LiveRunConcat<S>(t: Table<S>, a: Machine<S>, xs: seq<Event<S>>, b: Machine<S>,
                                            ys: seq<Event<S>>, c: Machine<S>)
    requires LiveRun(t, a, xs, b) && LiveRun(t, b, ys, c)
    ensures LiveRun(t, a, xs + ys, c)
    decreases |xs|
  {
    hide Apply, Typed;
    if xs == [] {
      assert xs + ys == ys;
    } else {
      LiveRunConcat(t, Apply(t, a, xs[0]).value, xs[1..], b, ys, c);
      assert (xs + ys)[1..] == xs[1..] + ys;
    }
  }

  /** A memory path of the rows is run by events, whatever disposition it starts with. */
  lemma {:induction false} PathIsLive<S(!new)>(t: Table<S>, cur: Machine<S>, path: seq<S>)
    returns (run: seq<Event<S>>, mid: Machine<S>)
    requires WellFormed(t) && MemoryPath(t.rows, t.memory, path) && path[0] == cur.name
    ensures MemoryRun(t, cur, run, mid) && mid.name == path[|path| - 1] && Unlogged(t, run)
    decreases |path|
  {
    if |path| == 1 {
      return [], cur;
    }
    var front, a, b := path[..|path| - 1], path[|path| - 2], path[|path| - 1];
    assert MemoryPath(t.rows, t.memory, front) by {
      hide Step;
      assert forall i :: 0 <= i < |front| ==> front[i] == path[i];
    }
    var before, st := PathIsLive(t, cur, front);
    assert Step(t.rows, path[|path| - 1 - 1], path[|path| - 1]);
    hide MemoryPath, Step;
    var v :| v in t.variants && a in v.froms && v.to == b && Lands(t, v);
    var e := Event(v, a, st.disposition, true);
    mid := Apply(t, st, e).value;
    ApplyLands(t, st, e);
    run := before + [e];
    MemoryRunSnoc(t, cur, before, st, e);
  }

  /** A memory-only run stays in the frontier of where it started, and is at its start or
      in memory. */
  lemma {:induction false} RunStays<S(!new)>(t: Table<S>, d: S, st: Machine<S>, run: seq<Event<S>>, mid: Machine<S>)
    requires WellFormed(t) && InFrontier(t.rows, t.memory, d, st.name) && MemoryRun(t, st, run, mid)
    ensures InFrontier(t.rows, t.memory, d, mid.name)
    ensures mid == st || mid.name in t.memory
    decreases |run|
  {
    hide InFrontier, Step;
    if run != [] {
      var e := run[0];
      var next := Apply(t, st, e).value;
      if !e.variant.kind.Replay? {
        assert next.name == e.variant.to;
        assert Step(t.rows, st.name, next.name);
        FrontierStep(t.rows, t.memory, d, st.name, next.name);
      }
      RunStays(t, d, next, run[1..], mid);
    }
  }

  // ----- exactness of one event ----------------------------------------------

  /** The one acceptance that no live run explains: replaying the disposition a movement was
      reconciled with. */
  ghost predicate Replayed<S>(t: Table<S>, cur: Machine<S>, e: Event<S>, next: Machine<S>) {
    cur.name == t.reconciled && e.variant.kind.Accept? && cur.disposition == e.disposition && next == cur
  }

  /** Whether a row stamped from live state `f` of the frontier of `d` is stepped from `d` as
      the live machine steps it from `f`. */
  ghost predicate FaithfulAt<S>(t: Table<S>, v: Variant<S>, d: S, f: S) {
    if v.operator then
      d in v.froms && !(v.kind.Accept? && d == t.reconciled) && (v.kind.Replay? ==> f == d)
    else
      v.kind.Plain? || (v.kind.Reject? && v.to == t.held)
  }

  /** A condition on the table alone: every durable state whose frontier meets an operator
      row's sources is itself one of them, and a recognised class is an operator row. */
  ghost predicate Faithful<S(!new)>(t: Table<S>, v: Variant<S>) {
    forall d, f :: d in t.durable && f in v.froms && InFrontier(t.rows, t.memory, d, f) ==> FaithfulAt(t, v, d, f)
  }

  ghost predicate StepExactAt<S(!new)>(t: Table<S>, cur: Machine<S>, e: Event<S>, next: Machine<S>) {
    DurableStep(t, cur, e) == Some(next) <==> LiveReachable(t, cur, e, next) || Replayed(t, cur, e, next)
  }

  /** The projection is exact for a variant: whatever the durable state and the event. */
  ghost predicate Exact<S(!new)>(t: Table<S>, v: Variant<S>) {
    forall cur: Machine<S>, e: Event<S>, next: Machine<S> ::
      cur.name in t.durable && e.variant == v && Typed(t, e) && e.epochsOk ==> StepExactAt(t, cur, e, next)
  }

  lemma FrontierOfSource<S(!new)>(t: Table<S>, cur: Machine<S>, e: Event<S>)
    requires Described(t) && Typed(t, e) && e.variant.to !in t.memory && InFrontier(t.rows, t.memory, cur.name, e.from)
    ensures IsEdge(t.rows, t.memory, cur.name, e.variant.to)
  {
    hide InFrontier, Step;
    assert Step(t.rows, e.from, e.variant.to);
    EdgeFrom(t.rows, t.memory, cur.name, e.from, e.variant.to);
  }

  /** A source in the frontier is reached live; one that is the durable state itself, by
      doing nothing. */
  lemma SourceIsLive<S(!new)>(t: Table<S>, cur: Machine<S>, f: S) returns (run: seq<Event<S>>, mid: Machine<S>)
    requires WellFormed(t) && InFrontier(t.rows, t.memory, cur.name, f)
    ensures MemoryRun(t, cur, run, mid) && mid.name == f && Unlogged(t, run)
    ensures f == cur.name ==> mid == cur
  {
    if f == cur.name {
      return [], cur;
    }
    var path :| MemoryPath(t.rows, t.memory, path) && path[0] == cur.name && path[|path| - 1] == f;
    run, mid := PathIsLive(t, cur, path);
  }

  /** From any live state the run may be in, a faithful row ends where the durable step does. */
  lemma FaithfulStep<S(!new)>(t: Table<S>, cur: Machine<S>, e: Event<S>, run: seq<Event<S>>, mid: Machine<S>)
    requires WellFormed(t) && Typed(t, e) && e.epochsOk && e.variant.to !in t.memory && cur.name in t.durable
    requires InFrontier(t.rows, t.memory, cur.name, e.from) && FaithfulAt(t, e.variant, cur.name, e.from)
    requires MemoryRun(t, cur, run, mid) && mid.name == e.from
    ensures DurableStep(t, cur, e) == Apply(t, mid, e)
  {
    hide InFrontier, Step, IsEdge, Described, MemoryRowsTaken, MemoryRun;
    FrontierOfSource(t, cur, e);
    FrontierStart(t.rows, t.memory, cur.name);
    RunStays(t, cur.name, cur, run, mid);
  }

  lemma FaithfulIsExact<S(!new)>(t: Table<S>, cur: Machine<S>, e: Event<S>, next: Machine<S>)
    requires WellFormed(t) && Typed(t, e) && e.epochsOk && e.variant.to !in t.memory && cur.name in t.durable
    requires Faithful(t, e.variant)
    ensures StepExactAt(t, cur, e, next)
  {
    hide InFrontier, Step, IsEdge, Described, MemoryRowsTaken;
    if InFrontier(t.rows, t.memory, cur.name, e.from) {
      assert FaithfulAt(t, e.variant, cur.name, e.from);
      var run, mid := SourceIsLive(t, cur, e.from);
      FaithfulStep(t, cur, e, run, mid);
    }
    if LiveReachable(t, cur, e, next) {
      var run, mid :| MemoryRun(t, cur, run, mid) && mid.name == e.from && Apply(t, mid, e) == Some(next);
      FrontierStart(t.rows, t.memory, cur.name);
      RunStays(t, cur.name, cur, run, mid);
      FaithfulStep(t, cur, e, run, mid);
    }
  }

  /** An event that shows the difference where a row is not faithful. */
  lemma UnfaithfulIsInexact<S(!new)>(t: Table<S>, v: Variant<S>, d: S, f: S)
    returns (cur: Machine<S>, e: Event<S>, next: Machine<S>)
    requires WellFormed(t) && v in t.variants && v.to !in t.memory && d in t.durable && f in v.froms
    requires InFrontier(t.rows, t.memory, d, f) && !FaithfulAt(t, v, d, f)
    ensures cur.name == d && e.variant == v && e.from == f && e.epochsOk && !StepExactAt(t, cur, e, next)
  {
    hide InFrontier, Step, IsEdge, Described, MemoryRowsTaken;
    cur := Machine(d, Some(AcceptOurs));
    var run, mid := SourceIsLive(t, cur, f);
    e := Event(v, f, if v.kind.Replay? then mid.disposition else Some(AcceptForeignAdvanced), true);
    FrontierOfSource(t, cur, e);
    if v.kind.Replay? && !v.operator {
      next := Machine(v.to, None);
      if LiveReachable(t, cur, e, next) {
        ReplayStays(t, cur, e, next);
      }
    } else {
      next := Apply(t, mid, e).value;
      assert LiveReachable(t, cur, e, next);
    }
  }

  lemma ReplayStays<S(!new)>(t: Table<S>, cur: Machine<S>, e: Event<S>, next: Machine<S>)
    requires WellFormed(t) && e.variant.kind.Replay? && LiveReachable(t, cur, e, next)
    ensures next == cur || next.name in t.memory
  {
    hide InFrontier, Step, Described, MemoryRowsTaken;
    var run, mid :| MemoryRun(t, cur, run, mid) && mid.name == e.from && Apply(t, mid, e) == Some(next);
    FrontierStart(t.rows, t.memory, cur.name);
    RunStays(t, cur.name, cur, run, mid);
  }

  /** Projection exactness, for any table: a variant's durable events are accepted from every
      durable state exactly when a live run could have appended them there, with the same
      result, the replay of an accepting disposition aside, if and only if the table's rows
      meet the faithfulness condition for it. */
  lemma ExactIffFaithful<S(!new)>(t: Table<S>, v: Variant<S>)
    requires WellFormed(t) && v in t.variants && v.to !in t.memory
    ensures Exact(t, v) <==> Faithful(t, v)
  {
    hide WellFormed, InFrontier, StepExactAt, FaithfulAt;
    if Faithful(t, v) {
      forall cur: Machine<S>, e: Event<S>, next: Machine<S> | cur.name in t.durable && e.variant == v && Typed(t, e)
        && e.epochsOk
        ensures StepExactAt(t, cur, e, next)
      {
        FaithfulIsExact(t, cur, e, next);
      }
    } else {
      var d, f :| d in t.durable && f in v.froms && InFrontier(t.rows, t.memory, d, f) && !FaithfulAt(t, v, d, f);
      var cur, e, next := UnfaithfulIsInexact(t, v, d, f);
      assert Typed(t, e);
    }
  }

  // ----- whole traces --------------------------------------------------------

  ghost predicate FaithfulTable<S(!new)>(t: Table<S>) {
    forall v :: v in t.variants && v.to !in t.memory ==> Faithful(t, v)
  }

  /** The events of a run that reach the durable log. */
  ghost function DurablePart<S>(t: Table<S>, events: seq<Event<S>>): seq<Event<S>> {
    if events == [] then []
    else (if events[0].variant.to in t.memory then [] else [events[0]]) + DurablePart(t, events[1..])
  }

  /** Reduce a durable trace. */
  ghost function ReduceTrace<S(!new)>(t: Table<S>, cur: Machine<S>, trace: seq<Event<S>>): Option<Machine<S>>
    decreases |trace|
  {
    if trace == [] then Some(cur)
    else
      var next := DurableStep(t, cur, trace[0]);
      if next.None? then None else ReduceTrace(t, next.value, trace[1..])
  }

  ghost predicate EpochsHold<S>(trace: seq<Event<S>>) {
    forall i :: 0 <= i < |trace| ==> trace[i].epochsOk
  }

  lemma DurableLanding<S(!new)>(t: Table<S>, cur: Machine<S>, run: seq<Event<S>>, live: Machine<S>, e: Event<S>)
    requires WellFormed(t) && Typed(t, e) && e.variant.to !in t.memory && cur.name in t.durable
    requires MemoryRun(t, cur, run, live) && e.from == live.name && Apply(t, live, e).Some?
    requires Faithful(t, e.variant)
    ensures e.epochsOk ==> DurableStep(t, cur, e) == Apply(t, live, e)
    ensures Apply(t, live, e).value.name in t.durable
  {
    hide InFrontier, Step, IsEdge, Described, MemoryRowsTaken, MemoryRun;
    FrontierStart(t.rows, t.memory, cur.name);
    RunStays(t, cur.name, cur, run, live);
    assert FaithfulAt(t, e.variant, cur.name, e.from);
    if e.epochsOk {
      FaithfulStep(t, cur, e, run, live);
    }
  }

  /** Over a faithful table the durable trace of any live run is accepted exactly when its own
      events meet the epoch algebra, and then the reduced state is the live one, or a durable
      state the live machine left through memory-only states. */
  lemma {:induction false} LiveTraceExact<S(!new)>(t: Table<S>, cur: Machine<S>, run: seq<Event<S>>, live: Machine<S>,
                                                  events: seq<Event<S>>, final: Machine<S>)
    requires WellFormed(t) && FaithfulTable(t) && cur.name in t.durable
    requires forall v :: v in t.variants && v.to in t.memory ==> Lands(t, v)
    requires MemoryRun(t, cur, run, live) && LiveRun(t, live, events, final)
    ensures ReduceTrace(t, cur, DurablePart(t, events)).Some? <==> EpochsHold(DurablePart(t, events))
    ensures ReduceTrace(t, cur, DurablePart(t, events)).Some? ==>
              var end := ReduceTrace(t, cur, DurablePart(t, events)).value;
              && (exists tail :: MemoryRun(t, end, tail, final))
              && (final.name !in t.memory ==> end == final)
    decreases |events|
  {
    hide InFrontier, Step, IsEdge, Described, MemoryRowsTaken, DurableStep, Apply;
    if events == [] {
      FrontierStart(t.rows, t.memory, cur.name);
      RunStays(t, cur.name, cur, run, live);
    } else {
      var e, next := events[0], Apply(t, live, events[0]).value;
      if e.variant.to in t.memory {
        ApplyLands(t, live, e);
        MemoryRunSnoc(t, cur, run, live, e);
        LiveTraceExact(t, cur, run + [e], next, events[1..], final);
        assert DurablePart(t, events) == DurablePart(t, events[1..]);
      } else {
        DurableLanding(t, cur, run, live, e);
        assert MemoryRun(t, next, [], next);
        LiveTraceExact(t, next, [], next, events[1..], final);
        assert DurablePart(t, events)[1..] == DurablePart(t, events[1..]);
        TraceHead(t, cur, DurablePart(t, events));
      }
    }
  }

  lemma TraceHead<S(!new)>(t: Table<S>, cur: Machine<S>, trace: seq<Event<S>>)
    requires trace != []
    ensures EpochsHold(trace) <==> trace[0].epochsOk && EpochsHold(trace[1..])
    ensures !trace[0].epochsOk ==> ReduceTrace(t, cur, trace) == None
  {
    hide InFrontier, IsEdge;
    if EpochsHold(trace[1..]) && trace[0].epochsOk {
      forall i | 0 <= i < |trace| ensures trace[i].epochsOk {
        if i > 0 {
          assert trace[i] == trace[1..][i - 1];
        }
      }
    }
  }

  /** Events a durable log can hold: typed, with a durable target, and with proper epochs. */
  ghost predicate Loggable<S>(t: Table<S>, trace: seq<Event<S>>) {
    forall i :: 0 <= i < |trace| ==> Typed(t, trace[i]) && trace[i].variant.to !in t.memory && trace[i].epochsOk
  }

  /** Some live history leaves the trace: each event was appended by a run through memory-only
      states, or replays an accepting disposition. */
  ghost predicate LiveLog<S(!new)>(t: Table<S>, cur: Machine<S>, trace: seq<Event<S>>, final: Machine<S>)
    decreases |trace|
  {
    if trace == [] then cur == final
    else
      exists next :: (LiveReachable(t, cur, trace[0], next) || Replayed(t, cur, trace[0], next))
        && LiveLog(t, next, trace[1..], final)
  }

  ghost predicate TraceExactAt<S(!new)>(t: Table<S>, cur: Machine<S>, trace: seq<Event<S>>, final: Machine<S>) {
    ReduceTrace(t, cur, trace) == Some(final) <==> LiveLog(t, cur, trace, final)
  }

  /** The reducer accepts exactly the traces live histories leave, from every durable state. */
  ghost predicate TracesExact<S(!new)>(t: Table<S>) {
    forall cur: Machine<S>, trace: seq<Event<S>>, final: Machine<S> :: cur.name in t.durable && Loggable(t, trace) ==>
      TraceExactAt(t, cur, trace, final)
  }

  lemma StepStaysDurable<S(!new)>(t: Table<S>, cur: Machine<S>, e: Event<S>)
    requires Partitioned(t) && e.variant in t.variants && cur.name in t.durable && DurableStep(t, cur, e).Some?
    ensures DurableStep(t, cur, e).value.name in t.durable
  {
    hide InFrontier, IsEdge;
  }

  lemma {:induction false} FaithfulTraces<S(!new)>(t: Table<S>, cur: Machine<S>, trace: seq<Event<S>>,
                                                   final: Machine<S>)
    requires WellFormed(t) && FaithfulTable(t) && cur.name in t.durable && Loggable(t, trace)
    ensures TraceExactAt(t, cur, trace, final)
    decreases |trace|
  {
    if trace != [] {
      var e, rest := trace[0], trace[1..];
      assert Typed(t, e) && e.variant.to !in t.memory && e.epochsOk && Loggable(t, rest) by {
        hide Typed;
        assert forall i :: 0 <= i < |rest| ==> rest[i] == trace[i + 1];
      }
      forall next: Machine<S> ensures DurableStep(t, cur, e) == Some(next) <==>
        LiveReachable(t, cur, e, next) || Replayed(t, cur, e, next)
      {
        FaithfulIsExact(t, cur, e, next);
      }
      if DurableStep(t, cur, e).Some? {
        StepStaysDurable(t, cur, e);
        FaithfulTraces(t, DurableStep(t, cur, e).value, rest, final);
      }
      hide DurableStep, LiveReachable, Replayed, WellFormed, FaithfulTable, Loggable;
    }
  }

  /** Exactness over whole traces holds for just the tables whose rows are faithful. */
  lemma TracesExactIffFaithful<S(!new)>(t: Table<S>)
    requires WellFormed(t)
    ensures TracesExact(t) <==> FaithfulTable(t)
  {
    hide WellFormed, Faithful, DurableStep, LiveReachable, Replayed, Typed;
    if FaithfulTable(t) {
      forall cur: Machine<S>, trace: seq<Event<S>>, final: Machine<S> | cur.name in t.durable && Loggable(t, trace)
        ensures TraceExactAt(t, cur, trace, final)
      {
        FaithfulTraces(t, cur, trace, final);
      }
    }
    if TracesExact(t) {
      forall v | v in t.variants && v.to !in t.memory ensures Faithful(t, v) {
        forall cur: Machine<S>, e: Event<S>, next: Machine<S> | cur.name in t.durable && e.variant == v && Typed(t, e)
          && e.epochsOk
          ensures StepExactAt(t, cur, e, next)
        {
          assert TraceExactAt(t, cur, [e], next);
          OneEventTrace(t, cur, e, next);
        }
        ExactIffFaithful(t, v);
      }
    }
  }

  lemma OneEventTrace<S(!new)>(t: Table<S>, cur: Machine<S>, e: Event<S>, next: Machine<S>)
    ensures TraceExactAt(t, cur, [e], next) <==> StepExactAt(t, cur, e, next)
  {
    hide DurableStep, LiveReachable, Replayed;
    assert [e][1..] == [];
    assert ReduceTrace(t, cur, [e]) == DurableStep(t, cur, e) by {
      if DurableStep(t, cur, e).Some? {
        assert ReduceTrace(t, DurableStep(t, cur, e).value, []) == DurableStep(t, cur, e);
      }
    }
    if LiveLog(t, cur, [e], next) {
      var n :| (LiveReachable(t, cur, [e][0], n) || Replayed(t, cur, [e][0], n)) && LiveLog(t, n, [e][1..], next);
      assert n == next;
    }
    if LiveReachable(t, cur, e, next) || Replayed(t, cur, e, next) {
      assert LiveLog(t, next, [e][1..], next);
    }
  }

  /** No accepting reconcile is replayed along the trace. */
  ghost predicate NoAcceptReplay<S(!new)>(t: Table<S>, cur: Machine<S>, trace: seq<Event<S>>)
    decreases |trace|
  {
    trace == [] ||
    (&& !(cur.name == t.reconciled && trace[0].variant.kind.Accept?)
     && (DurableStep(t, cur, trace[0]).Some? ==> NoAcceptReplay(t, DurableStep(t, cur, trace[0]).value, trace[1..])))
  }

  lemma {:induction false} DurablePartConcat<S>(t: Table<S>, xs: seq<Event<S>>, ys: seq<Event<S>>)
    ensures DurablePart(t, xs + ys) == DurablePart(t, xs) + DurablePart(t, ys)
  {
    if xs == [] {
      assert xs + ys == ys;
    } else {
      assert (xs + ys)[1..] == xs[1..] + ys;
      DurablePartConcat(t, xs[1..], ys);
    }
  }

  lemma {:induction false} MemoryLeavesNoTrace<S>(t: Table<S>, run: seq<Event<S>>)
    requires Unlogged(t, run)
    ensures DurablePart(t, run) == []
  {
    if run != [] {
      MemoryLeavesNoTrace(t, run[1..]);
    }
  }

  /** Over a faithful table an accepted trace without accept replays is the durable trace of
      one live run. */
  lemma {:induction false} AcceptedTraceIsLive<S(!new)>(t: Table<S>, cur: Machine<S>, trace: seq<Event<S>>,
                                                        final: Machine<S>)
    returns (events: seq<Event<S>>)
    requires WellFormed(t) && FaithfulTable(t) && cur.name in t.durable && Loggable(t, trace)
    requires ReduceTrace(t, cur, trace) == Some(final) && NoAcceptReplay(t, cur, trace)
    ensures LiveRun(t, cur, events, final) && DurablePart(t, events) == trace
    decreases |trace|
  {
    if trace == [] {
      return [];
    }
    hide InFrontier, Step, IsEdge;
    var e, rest := trace[0], trace[1..];
    assert forall i :: 0 <= i < |rest| ==> rest[i] == trace[i + 1];
    var next := DurableStep(t, cur, e).value;
    assert FaithfulAt(t, e.variant, cur.name, e.from);
    var run, mid := SourceIsLive(t, cur, e.from);
    FaithfulStep(t, cur, e, run, mid);
    MemoryRunIsLive(t, cur, run, mid);
    StepStaysDurable(t, cur, e);
    hide DurableStep, WellFormed, FaithfulTable;
    var tail := AcceptedTraceIsLive(t, next, rest, final);
    events := run + ([e] + tail);
    StepThenRun(t, cur, run, mid, e, next, tail, final);
  }

  lemma StepThenRun<S(!new)>(t: Table<S>, cur: Machine<S>, run: seq<Event<S>>, mid: Machine<S>, e: Event<S>,
                             next: Machine<S>, tail: seq<Event<S>>, final: Machine<S>)
    requires Unlogged(t, run) && LiveRun(t, cur, run, mid) && Typed(t, e) && e.from == mid.name
             && Apply(t, mid, e) == Some(next)
    requires e.variant.to !in t.memory && LiveRun(t, next, tail, final)
    ensures LiveRun(t, cur, run + ([e] + tail), final)
    ensures DurablePart(t, run + ([e] + tail)) == [e] + DurablePart(t, tail)
  {
    hide Apply, Typed;
    assert ([e] + tail)[1..] == tail;
    LiveRunConcat(t, cur, run, mid, [e] + tail, final);
    MemoryLeavesNoTrace(t, run);
    DurablePartConcat(t, run, [e] + tail);
  }
}
