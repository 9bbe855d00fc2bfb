/** The walk as it runs: a state mutated in place, one copy per step and one commit point,
    proved to compute the walk on values. */
module Walk {
  import opened Wrappers
  import opened Text
  import opened Wire
  import opened Events
  import opened SectionA
  import opened SectionB
  import opened HoldBooks
  import opened Epochs
  import opened Reducer

  /** The table of event ids already seen. */
  class Dedup {
    var seen: map<string, Registration>

    constructor ()
      ensures seen == map[]
    {
      seen := map[];
    }

    /** Judge a valid record, registering it when its id is new. */
    method Judge(env: Env, ev: Wire) returns (verdict: Verdict)
      modifies this
      ensures verdict == Check(env, old(seen), ev)
      ensures seen == if verdict.New? then Registered(env, old(seen), ev) else old(seen)
    {
      var id := Get(ev, "event_id");
      var base := BaseHint(ev);
      if !id.Str? || id.s == "" {
        return Divergent(SchemaMajorUnknown, {base});
      }
      var canon := env.canonical(ev);
      if id.s in seen {
        var first := seen[id.s];
        return if first.canon != canon then Divergent(EventPayloadDivergent, {base, first.base}) else Duplicate;
      }
      seen := seen[id.s := Registration(canon, base)];
      return New;
    }
  }

  /** One base's movements, written in place by a section-A step. */
  class MovementMap {
    var states: Movements

    constructor (states: Movements)
      ensures this.states == states
    {
      this.states := states;
    }

    method Set(mid: Id, machine: MachineA)
      modifies this
      ensures states == old(states)[mid := machine]
    {
      states := states[mid := machine];
    }
  }

  function MovementViews(movements: map<string, MovementMap>): map<string, Movements>
    reads movements.Values
  {
    map b | b in movements :: movements[b].states
  }

  function ListsOf(books: map<string, HoldBook>): set<DeliveryList>
    reads books.Values
  {
    set b, h | b in books && h in books[b].deliveries :: books[b].deliveries[h]
  }

  function BookViews(books: map<string, HoldBook>): map<string, Book>
    reads books.Values, ListsOf(books)
  {
    map b | b in books :: books[b].View()
  }

  /** The books with their delivery lists. */
  ghost function BookContainers(books: map<string, HoldBook>): set<object>
    reads books.Values
  {
    books.Values + ListsOf(books)
  }

  /** No two holds of a base share a list, and no two bases share anything. */
  ghost predicate SeparateBooks(books: map<string, HoldBook>)
    reads books.Values
  {
    && (forall b :: b in books ==> books[b].Valid())
    && (forall b, c :: b in books && c in books && b != c ==> books[b].Repr() !! books[c].Repr())
  }

  ghost predicate SeparateMaps(movements: map<string, MovementMap>) {
    forall b, c :: b in movements && c in movements && b != c ==> movements[b] != movements[c]
  }

  /** Views of untouched containers stay the same, whatever else was written. */
  twostate lemma UntouchedBooks(books: map<string, HoldBook>)
    requires forall b :: b in books ==> unchanged(books[b])
    requires forall b, h :: b in books && h in books[b].deliveries ==> unchanged(books[b].deliveries[h])
    ensures BookViews(books) == old(BookViews(books)) && BookContainers(books) == old(BookContainers(books))
    ensures SeparateBooks(books) <==> old(SeparateBooks(books))
  {
    forall b | b in books
      ensures books[b].View() == old(books[b].View()) && books[b].Repr() == old(books[b].Repr())
      ensures books[b].Valid() <==> old(books[b].Valid())
    {
      assert forall h :: h in books[b].deliveries ==> books[b].deliveries[h].items == old(books[b].deliveries[h].items);
    }
    hide HoldBook.View, HoldBook.Repr, HoldBook.Valid;
  }

  twostate lemma UntouchedMaps(movements: map<string, MovementMap>)
    requires forall b :: b in movements ==> unchanged(movements[b])
    ensures MovementViews(movements) == old(MovementViews(movements))
  {
    assert forall b :: b in movements ==> movements[b].states == old(movements[b].states);
  }

  lemma BookAdded(books: map<string, HoldBook>, base: string, book: HoldBook)
    ensures BookViews(books[base := book]) == BookViews(books)[base := book.View()]
    ensures BookViews(books).Keys == books.Keys
  {
  }

  lemma HeldAt(s: State, movements: map<string, MovementMap>, books: map<string, HoldBook>, base: string)
    requires s.movements == MovementViews(movements) && s.books == BookViews(books)
    ensures MovementsAt(s, base) == if base in movements then movements[base].states else map[]
    ensures BookAt(s, base) == if base in books then books[base].View() else EMPTY_BOOK
  {
  }

  lemma MovementsAdded(movements: map<string, MovementMap>, base: string, own: MovementMap)
    ensures MovementViews(movements[base := own]) == MovementViews(movements)[base := own.states]
  {
  }

  /** A base's containers may be replaced by others that nothing committed shares. */
  lemma StillSeparate(movements: map<string, MovementMap>, books: map<string, HoldBook>, base: string, own: MovementMap,
                      book: HoldBook)
    requires SeparateMaps(movements) && SeparateBooks(books) && book.Valid()
    requires own !in movements.Values && book.Repr() !! BookContainers(books)
    ensures SeparateMaps(movements[base := own])
    ensures SeparateBooks(books[base := book])
            && BookContainers(books[base := book]) <= BookContainers(books) + book.Repr()
  {
    forall b | b in books ensures books[b].Repr() <= BookContainers(books) {
    }
  }

  /** Why a stepped copy is dropped, if it is. */
  function Refusal(halt: Option<Code>, advanced: bool, fence: Advance): Option<Code> {
    if halt.Some? then halt
    else if advanced && !(ValidOid(fence.before) && ValidOid(fence.after)) then Some(SchemaMajorUnknown)
    else None
  }

  function EdgesPlus(s: State, base: string, edge: Option<Edge>): map<string, seq<Edge>> {
    if edge.Some? then s.edges[base := EdgesAt(s, base) + [edge.value]] else s.edges
  }

  function EffectCommitted(s: State, base: string, movements: Movements, order: seq<(string, Id)>,
                           edge: Option<Edge>): State {
    s.(movements := s.movements[base := movements], aOrder := order, edges := EdgesPlus(s, base, edge))
  }

  function HoldCommitted(s: State, base: string, book: Book, edge: Option<Edge>): State {
    s.(books := s.books[base := book], bOrder := if base in s.books then s.bOrder else s.bOrder + [base],
       edges := EdgesPlus(s, base, edge))
  }

  function HaltedFor(s: State, base: string, ev: Wire, code: Code): State {
    s.(halts := HaltBase(s.halts, base, Halt(code, Some(ev))))
  }

  function EdgeOf(advanced: bool, fence: Advance, ev: Wire): Option<Edge> {
    if advanced then Some(Edge(ev, fence.before, fence.after)) else None
  }

  /** A section-A step on a copy and the refusal rule decide what is committed. */
  lemma EffectPlanned(s: State, base: string, e: EffectEvent, ev: Wire, halt: Option<Code>, advanced: bool,
                      movements: Movements, order: seq<(string, Id)>)
    requires var ms := MovementsAt(s, base);
             match StepA(MachineAt(ms, e.movementId), e)
             case None => halt == Some(IllegalTransition)
             case Some(next) =>
               && halt == None
               && movements == ms[e.movementId := next]
               && order == (if e.movementId in ms then s.aOrder else s.aOrder + [(base, e.movementId)])
               && advanced == (next != MachineAt(ms, e.movementId) && e.epochBefore != e.epochAfter)
    ensures var fence := Advance(e.epochBefore, e.epochAfter);
            Committed(s, base, ev, PlanEffect(MovementsAt(s, base), e)) ==
            match Refusal(halt, advanced, fence)
            case Some(code) => HaltedFor(s, base, ev, code)
            case None => EffectCommitted(s, base, movements, order, EdgeOf(advanced, fence, ev))
  {
    hide StepA, EffectOk, ValidOid, HaltBase, MovementsAt, MachineAt, EdgesAt;
  }

  lemma HoldPlanned(env: Env, s: State, base: string, e: HoldEvent, ev: Wire, halt: Option<Code>, advanced: bool,
                    next: Book)
    requires match StepB(env.hash, env.mode, BookAt(s, base), base, e, MovementsAt(s, base).Keys)
             case Err(code) => halt == Some(code)
             case Ok(book) =>
               && halt == None
               && next == book
               && advanced == (book.holds != BookAt(s, base).holds && e.epochBefore != e.epochAfter)
    ensures var fence := Advance(e.epochBefore, e.epochAfter);
            Committed(s, base, ev, PlanHold(env, MovementsAt(s, base), BookAt(s, base), base, e)) ==
            match Refusal(halt, advanced, fence)
            case Some(code) => HaltedFor(s, base, ev, code)
            case None => HoldCommitted(s, base, next, EdgeOf(advanced, fence, ev))
  {
    hide StepB, HoldOk, ValidOid, HaltBase, MovementsAt, BookAt, EdgesAt;
  }

  lemma IdleCommit(s: State, base: string, ev: Wire)
    ensures Committed(s, base, ev, Idle) == s
  {
  }

  /** Everything one walk accumulates. */
  class ReduceState {
    const env: Env
    const dedup: Dedup
    var halts: map<string, Halt>
    var movements: map<string, MovementMap>
    var aOrder: seq<(string, Id)>
    var books: map<string, HoldBook>
    var bOrder: seq<string>
    var edges: map<string, seq<Edge>>

    /** The accumulator as a value. */
    function View(): State
      reads this, dedup, movements.Values, books.Values, ListsOf(books)
    {
      State(dedup.seen, halts, MovementViews(movements), aOrder, BookViews(books), bOrder, edges)
    }

    /** Every movement map, hold book and delivery list of the committed state. */
    ghost function Containers(): set<object>
      reads this, books.Values
    {
      movements.Values + BookContainers(books)
    }

    ghost predicate Valid()
      reads this, books.Values
    {
      SeparateMaps(movements) && SeparateBooks(books)
    }

    /** Everything the walk reports but the halts refers to the very same objects as before. */
    twostate predicate NothingCommitted()
      reads this
    {
      movements == old(movements) && aOrder == old(aOrder) && books == old(books) && bOrder == old(bOrder)
        && edges == old(edges)
    }

    constructor (env: Env)
      ensures this.env == env && fresh(dedup) && Valid() && Containers() == {}
      ensures View() == State(map[], map[], map[], [], map[], [], map[])
    {
      this.env := env;
      dedup := new Dedup();
      halts, movements, aOrder := map[], map[], [];
      books, bOrder, edges := map[], [], map[];
    }

    /** A copy was stepped: the state is as before, and shares nothing with what is new. */
    twostate lemma NothingWritten()
      requires unchanged(this) && unchanged(dedup) && forall x :: x in old(Containers()) && !fresh(x) ==> unchanged(x)
      ensures View() == old(View()) && Containers() == old(Containers()) && (Valid() <==> old(Valid()))
      ensures forall x :: x in Containers() ==> !fresh(x)
    {
      hide BookViews, MovementViews, SeparateBooks;
      forall b | b in books ensures unchanged(books[b]) {
        assert books[b] in old(Containers());
      }
      forall b, h | b in books && h in books[b].deliveries ensures unchanged(books[b].deliveries[h]) {
        assert books[b].deliveries[h] in old(ListsOf(books));
        assert books[b].deliveries[h] in old(Containers());
      }
      forall b | b in movements ensures unchanged(movements[b]) {
        assert movements[b] in old(Containers());
      }
      UntouchedBooks(books);
      UntouchedMaps(movements);
    }

    /** The first cause is the base's reported halt. */
    method RecordHalt(base: string, halt: Halt)
      modifies this`halts
      ensures halts == HaltBase(old(halts), base, halt)
    {
      if base !in halts {
        halts := halts[base := halt];
      }
    }

    method RecordHalts(bases: set<string>, halt: Halt)
      modifies this`halts
      ensures halts == HaltBases(old(halts), bases, halt)
    {
      var rest := bases;
      while rest != {}
        invariant rest <= bases
        invariant halts == HaltBases(old(halts), bases - rest, halt)
      {
        var b :| b in rest;
        RecordHalt(b, halt);
        rest := rest - {b};
      }
      assert bases - {} == bases;
    }

    /** Commit the copy, or record why it is dropped: then the state holds the very same
        containers as before. No container of either outcome is written. */
    method CommitOrHalt(shadow: Shadow, halt: Option<Code>, advanced: bool, fence: Advance, ev: Wire)
      requires Valid() && shadow.Apart(this) && shadow.edge == None
      modifies this, shadow`edge
      ensures Valid() && Containers() <= old(Containers()) + shadow.Repr()
      ensures Refusal(halt, advanced, fence).Some? ==> NothingCommitted()
      ensures halts == old(halts) || NothingCommitted()
      ensures View() == match Refusal(halt, advanced, fence)
                        case Some(code) => HaltedFor(old(View()), shadow.base, ev, code)
                        case None =>
                          if shadow.sectionA
                          then EffectCommitted(old(View()), shadow.base, shadow.movements.states, shadow.order,
                                               EdgeOf(advanced, fence, ev))
                          else HoldCommitted(old(View()), shadow.base, shadow.book.View(), EdgeOf(advanced, fence, ev))
    {
      hide HoldBook.View, ValidOid, BookViews, MovementViews, EffectCommitted, HoldCommitted, HaltedFor, SeparateMaps,
           SeparateBooks, BookContainers;
      if halt.Some? {
        HaltFor(shadow.base, halt.value, ev);
        return;
      }
      if advanced {
        if !(ValidOid(fence.before) && ValidOid(fence.after)) {
          HaltFor(shadow.base, SchemaMajorUnknown, ev);
          return;
        }
        shadow.edge := Some(Edge(ev, fence.before, fence.after));
      }
      UntouchedBooks(books);
      UntouchedMaps(movements);
      shadow.Commit(this);
    }

    method HaltFor(base: string, code: Code, ev: Wire)
      requires Valid()
      modifies this`halts
      ensures Valid() && Containers() == old(Containers())
      ensures View() == HaltedFor(old(View()), base, ev, code)
    {
      hide HaltBase, SeparateMaps, SeparateBooks, BookViews, MovementViews;
      RecordHalt(base, Halt(code, Some(ev)));
      UntouchedBooks(books);
      UntouchedMaps(movements);
    }

    /** A section-A event on a copy. Nothing of the state is written. */
    method TryEffect(e: EffectEvent, base: string) returns (shadow: Shadow, halt: Option<Code>, advanced: bool)
      requires Valid()
      ensures Valid() && View() == old(View()) && Containers() == old(Containers())
      ensures fresh(shadow) && fresh(shadow.Repr()) && shadow.Apart(this) && shadow.edge == None
      ensures shadow.base == base && shadow.sectionA
      ensures var ms := MovementsAt(View(), base);
              match StepA(MachineAt(ms, e.movementId), e)
              case None => halt == Some(IllegalTransition)
              case Some(next) =>
                && halt == None
                && shadow.movements.states == ms[e.movementId := next]
                && shadow.order == (if e.movementId in ms then aOrder else aOrder + [(base, e.movementId)])
                && advanced == (next != MachineAt(ms, e.movementId) && e.epochBefore != e.epochAfter)
    {
      hide StepA, BookViews, MovementViews, SeparateMaps, SeparateBooks, BookContainers, HoldBook.View, HoldBook.Valid;
      shadow := new Shadow(this, base, true);
      halt, advanced := shadow.StepEffect(e);
      NothingWritten();
    }

    /** A section-B event on a copy. Nothing of the state is written. */
    method TryHold(e: HoldEvent, base: string) returns (shadow: Shadow, halt: Option<Code>, advanced: bool)
      requires Valid()
      ensures Valid() && View() == old(View()) && Containers() == old(Containers())
      ensures fresh(shadow) && fresh(shadow.Repr()) && shadow.Apart(this) && shadow.edge == None
      ensures shadow.base == base && !shadow.sectionA
      ensures match StepB(env.hash, env.mode, BookAt(View(), base), base, e, MovementsAt(View(), base).Keys)
              case Err(code) => halt == Some(code)
              case Ok(book) =>
                && halt == None
                && shadow.book.View() == book
                && advanced == (book.holds != BookAt(View(), base).holds && e.epochBefore != e.epochAfter)
    {
      hide StepB, BookViews, SeparateMaps, SeparateBooks, BookContainers, HoldBook.View, HoldBook.Valid;
      shadow := new Shadow(this, base, false);
      var known := if base in movements then movements[base].states.Keys else {};
      assert known == MovementsAt(View(), base).Keys;
      ghost var own := shadow.Repr();
      halt, advanced := shadow.StepHold(env, e, known);
      assert fresh(shadow.Repr() - own);
      NothingWritten();
    }

    /** A section-A event: validate on a copy, then commit. */
    method ApplyEffectEvent(e: EffectEvent, ev: Wire)
      requires Valid()
      modifies this
      ensures Valid() && fresh(Containers() - old(Containers()))
      ensures halts == old(halts) || NothingCommitted()
      ensures View() == Committed(old(View()), BaseHint(ev), ev, PlanEffect(MovementsAt(old(View()), BaseHint(ev)), e))
    {
      hide StepA, EffectOk, PlanEffect, Committed, Refusal, EffectCommitted, HoldCommitted, HaltedFor, BookViews,
           MovementViews, Valid, Containers, Shadow.Repr, Shadow.Apart, HoldBook.View;
      var base := BaseHint(ev);
      var shadow, halt, advanced := TryEffect(e, base);
      EffectPlanned(View(), base, e, ev, halt, advanced, shadow.movements.states, shadow.order);
      CommitOrHalt(shadow, halt, advanced, Advance(e.epochBefore, e.epochAfter), ev);
    }

    /** A section-B event: validate on a copy, then commit. */
    method ApplyHoldEvent(e: HoldEvent, ev: Wire)
      requires Valid()
      modifies this
      ensures Valid() && fresh(Containers() - old(Containers()))
      ensures halts == old(halts) || NothingCommitted()
      ensures var base := BaseHint(ev);
              View() == Committed(old(View()), base, ev,
                                  PlanHold(env, MovementsAt(old(View()), base), BookAt(old(View()), base), base, e))
    {
      hide StepB, HoldOk, PlanHold, Committed, Refusal, EffectCommitted, HoldCommitted, HaltedFor, BookViews,
           MovementViews, Valid, Containers, Shadow.Repr, Shadow.Apart, HoldBook.View;
      var base := BaseHint(ev);
      var shadow, halt, advanced := TryHold(e, base);
      HoldPlanned(env, View(), base, e, ev, halt, advanced, shadow.book.View());
      CommitOrHalt(shadow, halt, advanced, Advance(e.epochBefore, e.epochAfter), ev);
    }

    /** The state after one valid new record. Whatever the outcome, no container committed
        before is written, and a refusal leaves every one of them in place. */
    method ApplyEvent(built: Built, ev: Wire)
      requires Valid()
      modifies this
      ensures Valid() && fresh(Containers() - old(Containers()))
      ensures forall x :: x in old(Containers()) ==> unchanged(x)
      ensures halts == old(halts) || NothingCommitted()
      ensures View() == Apply(env, old(View()), built, ev)
    {
      hide PlanHold, PlanEffect, Committed, SeparateMaps, SeparateBooks, BookViews, MovementViews;
      match built {
        case Single =>
          IdleCommit(View(), BaseHint(ev), ev);
        case Effect(e) => ApplyEffectEvent(e, ev);
        case Hold(e) => ApplyHoldEvent(e, ev);
      }
    }

    /** One record: construct, judge, and unless its base is halted apply. A record that halts
        anything leaves every committed container in place, unwritten. */
    method ConsumeRecord(ev: Wire)
      requires Valid()
      modifies this, dedup
      ensures Valid() && fresh(Containers() - old(Containers()))
      ensures forall x :: x in old(Containers()) ==> unchanged(x)
      ensures halts == old(halts) || NothingCommitted()
      ensures env.intake(ev).Err? || !Check(env, old(dedup.seen), ev).New? || BaseHint(ev) in old(halts) ==>
              NothingCommitted()
      ensures View() == Consume(env, old(View()), ev)
    {
      hide Check, Registered, Apply, HaltBase, HoldBook.View, Committed, SeparateMaps, SeparateBooks, BookViews,
           MovementViews;
      var base := BaseHint(ev);
      var halted := base in halts;
      var intake := env.intake(ev);
      if intake.Err? {
        HaltFor(base, intake.error, ev);
        return;
      }
      ghost var s := View();
      var verdict := dedup.Judge(env, ev);
      UntouchedBooks(books);
      UntouchedMaps(movements);
      match verdict {
        case Divergent(code, bases) =>
          RecordHalts(bases, Halt(code, Some(ev)));
          UntouchedBooks(books);
          UntouchedMaps(movements);
        case Duplicate =>
        case New =>
          assert View() == s.(seen := Registered(env, s.seen, ev));
          if !halted {
            ApplyEvent(intake.value, ev);
          }
      }
    }
  }

  /** A copy of the base's book, or an empty one. */
  method CopyHoldBook(books: map<string, HoldBook>, base: string) returns (copy: HoldBook)
    ensures copy.Valid() && fresh(copy.Repr())
    ensures copy.View() == if base in books then old(books[base].View()) else EMPTY_BOOK
  {
    hide HoldBook.View, HoldBook.Repr, HoldBook.Valid;
    if base in books {
      copy := new HoldBook.Copy(books[base]);
    } else {
      copy := new HoldBook();
    }
  }

  /** A copy of what one event may touch, stepped freely and either committed or dropped. */
  class Shadow {
    const base: string
    const sectionA: bool
    const movements: MovementMap
    var order: seq<(string, Id)>
    const book: HoldBook
    const isNew: bool
    var edge: Option<Edge>

    ghost function Repr(): set<object>
      reads book
    {
      {movements} + book.Repr()
    }

    /** Nothing of the copy belongs to the committed state. */
    ghost predicate Apart(ctx: ReduceState)
      reads ctx, ctx.books.Values, book
    {
      && book.Valid() && Repr() !! ctx.Containers()
      && (!sectionA ==> isNew == (base !in ctx.books))
    }

    constructor (ctx: ReduceState, base: string, sectionA: bool)
      ensures this.base == base && this.sectionA == sectionA
      ensures book.Valid() && fresh(Repr()) && edge == None
      ensures if sectionA then movements.states == MovementsAt(old(ctx.View()), base) && order == ctx.aOrder
              else book.View() == BookAt(old(ctx.View()), base) && isNew == (base !in ctx.books)
    {
      HeldAt(ctx.View(), ctx.movements, ctx.books, base);
      hide HoldBook.View, BookViews, MovementViews, MovementsAt, BookAt, HoldBook.Repr, HoldBook.Valid;
      var copy := CopyHoldBook(if sectionA then map[] else ctx.books, base);
      this.base := base;
      this.sectionA := sectionA;
      movements := new MovementMap(if sectionA && base in ctx.movements then ctx.movements[base].states else map[]);
      order := if sectionA then ctx.aOrder else [];
      isNew := !sectionA && base !in ctx.books;
      edge := None;
      book := copy;
    }

    /** A section-A event stepped on the copy; says whether the fence would move. */
    method StepEffect(e: EffectEvent) returns (halt: Option<Code>, advanced: bool)
      modifies movements, this`order
      ensures match StepA(MachineAt(old(movements.states), e.movementId), e)
              case None => halt == Some(IllegalTransition)
              case Some(next) =>
                && halt == None
                && movements.states == old(movements.states)[e.movementId := next]
                && order == (if e.movementId in old(movements.states) then old(order)
                             else old(order) + [(base, e.movementId)])
                && advanced == (next != MachineAt(old(movements.states), e.movementId) && e.epochBefore != e.epochAfter)
    {
      var before := MachineAt(movements.states, e.movementId);
      if e.movementId !in movements.states {
        movements.Set(e.movementId, GENESIS_A);
        order := order + [(base, e.movementId)];
      }
      var next := StepA(before, e);
      if next.None? {
        return Some(IllegalTransition), false;
      }
      movements.Set(e.movementId, next.value);
      return None, next.value != before && e.epochBefore != e.epochAfter;
    }

    /** A section-B event stepped on the copy. */
    method StepHold(env: Env, e: HoldEvent, known: set<Id>) returns (halt: Option<Code>, advanced: bool)
      requires book.Valid()
      modifies Repr()
      ensures book.Valid() && fresh(Repr() - old(Repr())) && unchanged(this)
      ensures match StepB(env.hash, env.mode, old(book.View()), base, e, known)
              case Err(code) => halt == Some(code)
              case Ok(next) =>
                && halt == None
                && book.View() == next
                && advanced == (next.holds != old(book.View()).holds && e.epochBefore != e.epochAfter)
    {
      hide StepB;
      var snapshot := book.holds;
      halt := book.Step(env.hash, env.mode, base, e, known);
      advanced := halt.None? && book.holds != snapshot && e.epochBefore != e.epochAfter;
    }

    /** The one place where the walk's state changes. */
    method Commit(ctx: ReduceState)
      requires ctx.Valid() && Apart(ctx)
      modifies ctx`movements, ctx`aOrder, ctx`books, ctx`bOrder, ctx`edges
      ensures ctx.Valid() && ctx.Containers() <= old(ctx.Containers()) + Repr()
      ensures ctx.View() == if sectionA then EffectCommitted(old(ctx.View()), base, movements.states, order, edge)
                            else HoldCommitted(old(ctx.View()), base, book.View(), edge)
    {
      hide HoldBook.View, BookViews, MovementViews, SeparateMaps, SeparateBooks, HoldBook.Valid, HoldBook.Repr,
           BookContainers;
      ghost var ms, bs := ctx.movements, ctx.books;
      if sectionA {
        ctx.movements := ctx.movements[base := movements];
        ctx.aOrder := order;
      } else {
        ctx.books := ctx.books[base := book];
        if isNew {
          ctx.bOrder := ctx.bOrder + [base];
        }
      }
      if edge.Some? {
        ctx.edges := ctx.edges[base := (if base in ctx.edges then ctx.edges[base] else []) + [edge.value]];
      }
      UntouchedBooks(bs);
      UntouchedMaps(ms);
      StillSeparate(ms, bs, base, movements, book);
      MovementsAdded(ms, base, movements);
      BookAdded(bs, base, book);
    }
  }
}
