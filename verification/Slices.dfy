/** The walk decomposed: each base evolves on its own, and bases share nothing but the table
    of event ids already seen. */
module Slices {
  import opened Wrappers
  import opened Text
  import opened Wire
  import opened Events
  import opened SectionA
  import opened SectionB
  import opened Epochs
  import opened Reducer

  // ----- one base's part of the state ----------------------------------------

  /** Everything the walk holds for one base. */
  datatype Slice = Slice(
    halt: Option<Halt>,
    movements: Option<Movements>,
    order: seq<Id>,
    book: Option<Book>,
    edges: seq<Edge>)
  {
    function Ms(): Movements {
      if movements.Some? then movements.value else map[]
    }

    function Bk(): Book {
      if book.Some? then book.value else EMPTY_BOOK
    }

    /** The first cause stays. */
    function HaltedWith(h: Halt): Slice {
      if halt.Some? then this else this.(halt := Some(h))
    }
  }

  function OrderAt(order: seq<(string, Id)>, base: string): seq<Id> {
    if order == [] then []
    else
      OrderAt(order[..|order| - 1], base)
      + if order[|order| - 1].0 == base then [order[|order| - 1].1] else []
  }

  function Lookup<V>(m: map<string, V>, k: string): Option<V> {
    if k in m then Some(m[k]) else None
  }

  function SliceAt(s: State, base: string): Slice {
    Slice(Lookup(s.halts, base), Lookup(s.movements, base), OrderAt(s.aOrder, base), Lookup(s.books, base),
          EdgesAt(s, base))
  }

  // ----- one base's step -----------------------------------------------------

  function EdgesWith(edges: seq<Edge>, ev: Wire, fence: Option<Advance>): seq<Edge> {
    if fence.None? then edges else edges + [Edge(ev, fence.value.before, fence.value.after)]
  }

  function CommitSlice(sl: Slice, ev: Wire, plan: Plan): Slice {
    match plan
    case Idle => sl
    case Halts(code) => sl.HaltedWith(Halt(code, Some(ev)))
    case CommitA(mid, machine, fence) =>
      sl.(movements := Some(sl.Ms()[mid := machine]),
          order := if mid in sl.Ms() then sl.order else sl.order + [mid],
          edges := EdgesWith(sl.edges, ev, fence))
    case CommitB(book, fence) =>
      sl.(book := Some(book), edges := EdgesWith(sl.edges, ev, fence))
  }

  /** What a record does to one base, given the ids seen so far. */
  function SliceConsume(env: Env, seen: map<string, Registration>, sl: Slice, ev: Wire, base: string): Slice {
    match env.intake(ev)
    case Err(code) => if base == BaseHint(ev) then sl.HaltedWith(Halt(code, Some(ev))) else sl
    case Ok(built) =>
      match Check(env, seen, ev)
      case Divergent(code, bases) => if base in bases then sl.HaltedWith(Halt(code, Some(ev))) else sl
      case Duplicate => sl
      case New =>
        if base != BaseHint(ev) || sl.halt.Some? then sl
        else CommitSlice(sl, ev, PlanOf(env, sl.Ms(), sl.Bk(), base, built))
  }

  /** What a record does to the table of ids: nothing depends on any machine or halt. */
  function SeenConsume(env: Env, seen: map<string, Registration>, ev: Wire): map<string, Registration> {
    if env.intake(ev).Ok? && Check(env, seen, ev).New? then Registered(env, seen, ev) else seen
  }

  function SeenRun(env: Env, seen: map<string, Registration>, events: seq<Wire>): map<string, Registration> {
    if events == [] then seen
    else SeenConsume(env, SeenRun(env, seen, events[..|events| - 1]), events[|events| - 1])
  }

  function SliceRun(env: Env, seen: map<string, Registration>, sl: Slice, events: seq<Wire>, base: string): Slice {
    if events == [] then sl
    else
      var before := events[..|events| - 1];
      SliceConsume(env, SeenRun(env, seen, before), SliceRun(env, seen, sl, before, base), events[|events| - 1], base)
  }

  // ----- the decomposition ---------------------------------------------------

  lemma OrderAtSnoc(order: seq<(string, Id)>, base: string, mid: Id, b: string)
    ensures OrderAt(order + [(base, mid)], b) == OrderAt(order, b) + if b == base then [mid] else []
  {
    assert (order + [(base, mid)])[..|order|] == order;
  }

  lemma HaltedSlice(s: State, bases: set<string>, h: Halt, b: string)
    ensures SliceAt(s.(halts := HaltBases(s.halts, bases, h)), b) ==
            if b in bases then SliceAt(s, b).HaltedWith(h) else SliceAt(s, b)
  {
  }

  lemma WithHaltSlice(s: State, base: string, code: Code, ev: Wire, b: string)
    ensures SliceAt(WithHalt(s, base, code, ev), b) ==
            if b == base then SliceAt(s, b).HaltedWith(Halt(code, Some(ev))) else SliceAt(s, b)
  {
    hide OrderAt, EdgesAt;
    HaltedSlice(s, {base}, Halt(code, Some(ev)), b);
    assert HaltBase(s.halts, base, Halt(code, Some(ev))) == HaltBases(s.halts, {base}, Halt(code, Some(ev)));
  }

  lemma LookupUpdated<V>(m: map<string, V>, base: string, v: V, b: string)
    ensures Lookup(m[base := v], b) == if b == base then Some(v) else Lookup(m, b)
  {
  }

  lemma EdgesSlice(s: State, base: string, ev: Wire, fence: Option<Advance>, b: string, t: State)
    requires t.edges == WithEdge(s, base, ev, fence)
    ensures EdgesAt(t, b) == if b == base then EdgesWith(EdgesAt(s, b), ev, fence) else EdgesAt(s, b)
  {
  }

  lemma MovementFields(s: State, base: string, ev: Wire, mid: Id, machine: MachineA, fence: Option<Advance>, t: State)
    requires t == Committed(s, base, ev, CommitA(mid, machine, fence))
    ensures t.books == s.books && t.halts == s.halts && t.edges == WithEdge(s, base, ev, fence)
    ensures t.movements == s.movements[base := MovementsAt(s, base)[mid := machine]]
    ensures t.aOrder == if mid in MovementsAt(s, base) then s.aOrder else s.aOrder + [(base, mid)]
  {
    hide WithEdge, MovementsAt;
  }

  lemma MovementSlice(s: State, base: string, ev: Wire, mid: Id, machine: MachineA, fence: Option<Advance>, b: string,
                      t: State)
    requires t == Committed(s, base, ev, CommitA(mid, machine, fence))
    ensures SliceAt(t, b) == if b == base then CommitSlice(SliceAt(s, b), ev, CommitA(mid, machine, fence))
            else SliceAt(s, b)
  {
    MovementFields(s, base, ev, mid, machine, fence, t);
    hide Committed;
    EdgesSlice(s, base, ev, fence, b, t);
    hide WithEdge, EdgesAt, EdgesWith;
    OrderAtSnoc(s.aOrder, base, mid, b);
    hide OrderAt;
    assert MovementsAt(s, base) == SliceAt(s, base).Ms();
    hide MovementsAt;
    LookupUpdated(s.movements, base, t.movements[base], b);
    hide Lookup;
  }

  lemma BookSlice(s: State, base: string, ev: Wire, book: Book, fence: Option<Advance>, b: string, t: State)
    requires t == Committed(s, base, ev, CommitB(book, fence))
    ensures SliceAt(t, b) == if b == base then CommitSlice(SliceAt(s, b), ev, CommitB(book, fence)) else SliceAt(s, b)
  {
    assert t.movements == s.movements && t.halts == s.halts && t.aOrder == s.aOrder;
    assert EdgesAt(t, b) == if b == base then EdgesWith(EdgesAt(s, b), ev, fence) else EdgesAt(s, b);
    hide OrderAt, EdgesAt, WithEdge, EdgesWith;
  }

  lemma CommittedSlice(s: State, base: string, ev: Wire, plan: Plan, b: string)
    ensures SliceAt(Committed(s, base, ev, plan), b) ==
            if b == base then CommitSlice(SliceAt(s, b), ev, plan) else SliceAt(s, b)
    ensures Committed(s, base, ev, plan).seen == s.seen
  {
    var t := Committed(s, base, ev, plan);
    match plan
    case Idle =>
    case Halts(code) => WithHaltSlice(s, base, code, ev, b);
    case CommitA(mid, machine, fence) => MovementSlice(s, base, ev, mid, machine, fence, b, t);
    case CommitB(book, fence) => BookSlice(s, base, ev, book, fence, b, t);
  }

  lemma RegisteredSlice(s: State, seen: map<string, Registration>, b: string)
    ensures SliceAt(s.(seen := seen), b) == SliceAt(s, b)
  {
    hide OrderAt;
  }

  lemma NewRecordSlice(env: Env, s: State, ev: Wire, built: Built, b: string)
    ensures SliceAt(Apply(env, s, built, ev), b) ==
            if b == BaseHint(ev) then CommitSlice(SliceAt(s, b), ev,
                                                  PlanOf(env, SliceAt(s, b).Ms(), SliceAt(s, b).Bk(), b, built))
            else SliceAt(s, b)
    ensures Apply(env, s, built, ev).seen == s.seen
  {
    hide PlanOf, Committed, CommitSlice, OrderAt, EdgesAt;
    var base := BaseHint(ev);
    var plan := PlanOf(env, MovementsAt(s, base), BookAt(s, base), base, built);
    CommittedSlice(s, base, ev, plan, b);
  }

  /** The table of ids evolves on its own. */
  lemma ConsumeSeen(env: Env, s: State, ev: Wire)
    ensures Consume(env, s, ev).seen == SeenConsume(env, s.seen, ev)
  {
    hide Apply, Registered, Check;
    if env.intake(ev).Ok? {
      var r := s.(seen := Registered(env, s.seen, ev));
      NewRecordSlice(env, r, ev, env.intake(ev).value, BaseHint(ev));
    }
  }

  /** One record acts on each base separately. */
  lemma ConsumeSlice(env: Env, s: State, ev: Wire, b: string)
    ensures SliceAt(Consume(env, s, ev), b) == SliceConsume(env, s.seen, SliceAt(s, b), ev, b)
  {
    hide PlanOf, CommitSlice, OrderAt, Registered, EdgesAt, Apply, WithHalt;
    match env.intake(ev)
    case Err(code) => WithHaltSlice(s, BaseHint(ev), code, ev, b);
    case Ok(built) =>
      match Check(env, s.seen, ev)
      case Divergent(code, bases) => HaltedSlice(s, bases, Halt(code, Some(ev)), b);
      case Duplicate =>
      case New =>
        hide HaltBases;
        var r := s.(seen := Registered(env, s.seen, ev));
        RegisteredSlice(s, r.seen, b);
        NewRecordSlice(env, r, ev, built, b);
  }

  /** The walk is one independent machine per base over a shared table of ids. */
  lemma {:induction false} RunSlice(env: Env, s: State, events: seq<Wire>, b: string)
    ensures Run(env, s, events).seen == SeenRun(env, s.seen, events)
    ensures SliceAt(Run(env, s, events), b) == SliceRun(env, s.seen, SliceAt(s, b), events, b)
  {
    hide Consume, SliceConsume, SeenConsume, SliceAt;
    if events != [] {
      var before := events[..|events| - 1];
      RunSlice(env, s, before, b);
      ConsumeSeen(env, Run(env, s, before), events[|events| - 1]);
      ConsumeSlice(env, Run(env, s, before), events[|events| - 1], b);
    }
  }

  // ----- validate, then apply; then freeze -----------------------------------

  /** The machines, order, book and edges of two slices agree. */
  ghost predicate SameMachines(x: Slice, y: Slice) {
    y == x.(halt := y.halt)
  }

  /** A record that halts the base leaves everything else of it exactly as it was. */
  lemma HaltChangesNothing(env: Env, seen: map<string, Registration>, sl: Slice, ev: Wire, base: string)
    ensures var t := SliceConsume(env, seen, sl, ev, base);
            t.halt != sl.halt ==> SameMachines(sl, t) && sl.halt.None? && t.halt.Some? && t.halt.value.cause == Some(ev)
  {
    hide PlanOf, Check;
  }

  /** A base once halted never changes again, whatever follows. */
  lemma {:induction false} HaltedIsFrozen(env: Env, seen: map<string, Registration>, sl: Slice, events: seq<Wire>,
                                          base: string)
    requires sl.halt.Some?
    ensures SliceRun(env, seen, sl, events, base) == sl
  {
    hide PlanOf, Check, SeenRun;
    if events != [] {
      HaltedIsFrozen(env, seen, sl, events[..|events| - 1], base);
    }
  }

  /** The same of a whole run: what a halted base reports is fixed by the run's prefix. */
  lemma FrozenAfterHalt(env: Env, s: State, prefix: seq<Wire>, rest: seq<Wire>, base: string)
    requires base in Run(env, s, prefix).halts
    ensures SliceAt(Run(env, s, prefix + rest), base) == SliceAt(Run(env, s, prefix), base)
  {
    hide Run, SliceRun, OrderAt;
    var t := Run(env, s, prefix);
    RunConcat(env, s, prefix, rest);
    RunSlice(env, t, rest, base);
    HaltedIsFrozen(env, t.seen, SliceAt(t, base), rest, base);
  }

  lemma HaltingPlan(s: State, base: string, ev: Wire, plan: Plan)
    requires Committed(s, base, ev, plan).halts != s.halts
    ensures Committed(s, base, ev, plan) == s.(halts := Committed(s, base, ev, plan).halts)
  {
    hide EdgesAt, WithEdge;
  }

  /** A record that halts anything commits nothing anywhere. */
  lemma HaltCommitsNothing(env: Env, s: State, ev: Wire)
    ensures var t := Consume(env, s, ev); t.halts != s.halts ==> t == s.(halts := t.halts, seen := t.seen)
  {
    hide PlanOf, Check, OrderAt, EdgesAt, Committed, Registered;
    var r := s.(seen := Registered(env, s.seen, ev));
    var base := BaseHint(ev);
    if env.intake(ev).Ok? && Check(env, s.seen, ev).New? && base !in s.halts {
      var plan := PlanOf(env, MovementsAt(r, base), BookAt(r, base), base, env.intake(ev).value);
      if Committed(r, base, ev, plan).halts != r.halts {
        HaltingPlan(r, base, ev, plan);
      }
    }
  }
}
