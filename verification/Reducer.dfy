/** The one pass over a durable stream, as a function on values: intake, deduplication,
    dispatch to a machine, the fence edge, and the report. */
module Reducer {
  import opened Wrappers
  import opened Text
  import opened Wire
  import opened Schema
  import opened Events
  import opened SectionA
  import opened SectionB
  import opened Epochs

  /** The context of one run: its credential mode and epoch anchors, the digest, and how
      records are validated and canonicalised. */
  datatype Env = Env(
    mode: CredentialMode,
    anchors: map<string, Value>,
    hash: Digest,
    intake: Wire -> Result<Built, Code>,
    canonical: Wire -> Wire)

  /** All the walk relies on: validation and canonical form respect the base. */
  ghost predicate Local(env: Env) {
    && (forall ev :: env.intake(ev).Ok? && env.intake(ev).value.Effect? ==>
        env.intake(ev).value.effect.baseKey == BaseHint(ev))
    && (forall ev :: env.intake(ev).Ok? && env.intake(ev).value.Hold? ==>
        env.intake(ev).value.hold.baseKey == BaseHint(ev))
    && (forall x, y :: env.canonical(x) == env.canonical(y) ==> BaseHint(x) == BaseHint(y))
  }

  /** A base's halt: its code, and the record that caused it (none for the ceiling). */
  datatype Halt = Halt(code: Code, cause: Option<Wire>)

  /** What an event id was first seen with. */
  datatype Registration = Registration(canon: Wire, base: string)

  type Movements = map<Id, MachineA>

  datatype State = State(
    seen: map<string, Registration>,
    halts: map<string, Halt>,
    movements: map<string, Movements>,
    aOrder: seq<(string, Id)>,
    books: map<string, Book>,
    bOrder: seq<string>,
    edges: map<string, seq<Edge>>)

  const RECOVERY_CEILING_EVENTS: nat := 10000

  // ----- admission ceiling ---------------------------------------------------

  /** The ids of one base's records. */
  function IdsAt(events: seq<Wire>, base: string): set<string> {
    set i | 0 <= i < |events| && BaseHint(events[i]) == base && Get(events[i], "event_id").Str? ::
      Get(events[i], "event_id").s
  }

  /** A record that brings its base's count up: it has no id, or one not met before. */
  predicate Counts(before: seq<Wire>, ev: Wire) {
    var id := Get(ev, "event_id");
    !id.Str? || id.s == "" || id.s !in IdsAt(before, BaseHint(ev))
  }

  /** One base's records, copies counted once. */
  function BaseCount(events: seq<Wire>, base: string): nat {
    if events == [] then 0
    else
      var before, ev := events[..|events| - 1], events[|events| - 1];
      BaseCount(before, base) + if BaseHint(ev) == base && Counts(before, ev) then 1 else 0
  }

  function BasesOf(events: seq<Wire>): set<string> {
    set i | 0 <= i < |events| :: BaseHint(events[i])
  }

  function CeilingHalts(events: seq<Wire>): map<string, Halt> {
    map b | b in BasesOf(events) && BaseCount(events, b) > RECOVERY_CEILING_EVENTS :: Halt(RecoveryCeiling, None)
  }

  /** The state the walk starts in. */
  function Seed(events: seq<Wire>): State {
    State(map[], CeilingHalts(events), map[], [], map[], [], map[])
  }

  // ----- deduplication -------------------------------------------------------

  datatype Verdict = New | Duplicate | Divergent(code: Code, bases: set<string>)

  function Check(env: Env, seen: map<string, Registration>, ev: Wire): Verdict {
    var id := Get(ev, "event_id");
    if !id.Str? || id.s == "" then Divergent(SchemaMajorUnknown, {BaseHint(ev)})
    else if id.s !in seen then New
    else if seen[id.s].canon == env.canonical(ev) then Duplicate
    else Divergent(EventPayloadDivergent, {BaseHint(ev), seen[id.s].base})
  }

  function Registered(env: Env, seen: map<string, Registration>, ev: Wire): map<string, Registration> {
    var id := Get(ev, "event_id");
    if id.Str? then seen[id.s := Registration(env.canonical(ev), BaseHint(ev))] else seen
  }

  // ----- halts ---------------------------------------------------------------

  /** The first cause is the base's reported halt. */
  function HaltBase(halts: map<string, Halt>, base: string, halt: Halt): map<string, Halt> {
    if base in halts then halts else halts[base := halt]
  }

  function HaltBases(halts: map<string, Halt>, bases: set<string>, halt: Halt): map<string, Halt> {
    map b | b in halts.Keys + bases :: if b in halts then halts[b] else halt
  }

  function WithHalt(s: State, base: string, code: Code, ev: Wire): State {
    s.(halts := HaltBase(s.halts, base, Halt(code, Some(ev))))
  }

  // ----- applying one event --------------------------------------------------

  function MovementsAt(s: State, base: string): Movements {
    if base in s.movements then s.movements[base] else map[]
  }

  function BookAt(s: State, base: string): Book {
    if base in s.books then s.books[base] else EMPTY_BOOK
  }

  function EdgesAt(s: State, base: string): seq<Edge> {
    if base in s.edges then s.edges[base] else []
  }

  function MachineAt(ms: Movements, mid: Id): MachineA {
    if mid in ms then ms[mid] else GENESIS_A
  }

  /** A lowercase 40-digit hexadecimal object id. */
  predicate ValidOid(s: string) {
    |s| == 40 && forall i :: 0 <= i < 40 ==> '0' <= s[i] <= '9' || 'a' <= s[i] <= 'f'
  }

  /** The fence an accepted event moves. */
  datatype Advance = Advance(before: string, after: string)

  /** What one valid new record decides for its base: nothing, a halt, or one machine's new
      state together with at most one fence edge. */
  datatype Plan =
    | Idle
    | Halts(code: Code)
    | CommitA(mid: Id, machine: MachineA, fence: Option<Advance>)
    | CommitB(book: Book, fence: Option<Advance>)

  /** Only a step that changed something contributes an edge. */
  function FenceOf(moved: bool, before: string, after: string): Option<Advance> {
    if moved && before != after then Some(Advance(before, after)) else None
  }

  predicate FencePasses(fence: Option<Advance>) {
    fence.Some? ==> ValidOid(fence.value.before) && ValidOid(fence.value.after)
  }

  function PlanEffect(ms: Movements, e: EffectEvent): Plan {
    var cur := MachineAt(ms, e.movementId);
    match StepA(cur, e)
    case None => Halts(IllegalTransition)
    case Some(next) =>
      var fence := FenceOf(next != cur, e.epochBefore, e.epochAfter);
      if FencePasses(fence) then CommitA(e.movementId, next, fence) else Halts(SchemaMajorUnknown)
  }

  function PlanHold(env: Env, ms: Movements, book: Book, base: string, e: HoldEvent): Plan {
    match StepB(env.hash, env.mode, book, base, e, ms.Keys)
    case Err(code) => Halts(code)
    case Ok(next) =>
      var fence := FenceOf(next.holds != book.holds, e.epochBefore, e.epochAfter);
      if FencePasses(fence) then CommitB(next, fence) else Halts(SchemaMajorUnknown)
  }

  /** The step of one record, taken on a copy of what its base holds. */
  function PlanOf(env: Env, ms: Movements, book: Book, base: string, built: Built): Plan {
    match built
    case Effect(e) => PlanEffect(ms, e)
    case Hold(e) => PlanHold(env, ms, book, base, e)
    case Single => Idle
  }

  function WithEdge(s: State, base: string, ev: Wire, fence: Option<Advance>): map<string, seq<Edge>> {
    if fence.None? then s.edges
    else s.edges[base := EdgesAt(s, base) + [Edge(ev, fence.value.before, fence.value.after)]]
  }

  /** The one place where the state changes. */
  function Committed(s: State, base: string, ev: Wire, plan: Plan): State {
    match plan
    case Idle => s
    case Halts(code) => WithHalt(s, base, code, ev)
    case CommitA(mid, machine, fence) =>
      var ms := MovementsAt(s, base);
      s.(movements := s.movements[base := ms[mid := machine]],
         aOrder := if mid in ms then s.aOrder else s.aOrder + [(base, mid)],
         edges := WithEdge(s, base, ev, fence))
    case CommitB(book, fence) =>
      s.(books := s.books[base := book],
         bOrder := if base in s.books then s.bOrder else s.bOrder + [base],
         edges := WithEdge(s, base, ev, fence))
  }

  function Apply(env: Env, s: State, built: Built, ev: Wire): State {
    var base := BaseHint(ev);
    Committed(s, base, ev, PlanOf(env, MovementsAt(s, base), BookAt(s, base), base, built))
  }

  /** One record. Construction precedes deduplication, and a halted base only registers. */
  function Consume(env: Env, s: State, ev: Wire): State {
    var base := BaseHint(ev);
    match env.intake(ev)
    case Err(code) => WithHalt(s, base, code, ev)
    case Ok(built) =>
      match Check(env, s.seen, ev)
      case Divergent(code, bases) => s.(halts := HaltBases(s.halts, bases, Halt(code, Some(ev))))
      case Duplicate => s
      case New =>
        var registered := s.(seen := Registered(env, s.seen, ev));
        if base in s.halts then registered else Apply(env, registered, built, ev)
  }

  function Run(env: Env, s: State, events: seq<Wire>): State {
    if events == [] then s
    else Consume(env, Run(env, s, events[..|events| - 1]), events[|events| - 1])
  }

  lemma {:induction false} RunConcat(env: Env, s: State, xs: seq<Wire>, ys: seq<Wire>)
    ensures Run(env, s, xs + ys) == Run(env, Run(env, s, xs), ys)
  {
    hide Consume;
    if ys == [] {
      assert xs + ys == xs;
    } else {
      assert (xs + ys)[..|xs + ys| - 1] == xs + ys[..|ys| - 1];
      RunConcat(env, s, xs, ys[..|ys| - 1]);
    }
  }

  lemma RunSnoc(env: Env, s: State, xs: seq<Wire>, ev: Wire)
    ensures Run(env, s, xs + [ev]) == Consume(env, Run(env, s, xs), ev)
  {
    hide Consume;
    assert (xs + [ev])[..|xs|] == xs;
  }

  // ----- the report ----------------------------------------------------------

  datatype MovementReport = MovementReport(machine: MachineA, viaRecovery: bool)

  datatype HoldReport = HoldReport(machine: MachineB, deliveries: seq<Id>)

  /** A base's fence: the epoch it resolved to or stopped at, and the halt, if any. */
  datatype EpochReport = EpochReport(epoch: Value, halt: Option<Code>)

  datatype Report = Report(
    movements: map<string, map<Id, MovementReport>>,
    recovery: seq<Wire>,
    holds: map<string, map<Id, HoldReport>>,
    notes: map<string, seq<Note>>,
    halts: map<string, Halt>,
    epochs: map<string, EpochReport>)

  predicate NeedsRecovery(halts: map<string, Halt>, base: string, machine: MachineA) {
    base !in halts && machine.name.Prepared?
  }

  function ReportMovement(halts: map<string, Halt>, base: string, machine: MachineA): MovementReport {
    if NeedsRecovery(halts, base, machine) then MovementReport(MachineA(Held, None), true)
    else MovementReport(machine, false)
  }

  /** The record a recovering process appends; the issuer stamps the remaining fields. */
  function RecoveryRecord(hash: Digest, base: string, mid: Id): Wire {
    map["event_id" := Str(DeriveRecoveryEventId(hash, base, mid)),
        "schema_major" := Int(1), "schema_minor" := Int(0),
        "family" := Str("effect_lifecycle"), "variant" := Str("CrashRecoveryFromPrepared"),
        "trigger_event" := Str("crash_recovery"), "movement_id" := Str(mid), "base_key" := Str(base),
        "from" := Str("PREPARED"), "to" := Str("HELD"), "hold_effect" := Str("CREATED")]
  }

  function RecoveryAppends(hash: Digest, s: State, order: seq<(string, Id)>): seq<Wire> {
    if order == [] then []
    else
      var (base, mid) := order[|order| - 1];
      RecoveryAppends(hash, s, order[..|order| - 1])
      + if NeedsRecovery(s.halts, base, MachineAt(MovementsAt(s, base), mid)) then [RecoveryRecord(hash, base, mid)]
        else []
  }

  function ReportMovements(s: State): map<string, map<Id, MovementReport>> {
    map b | b in s.movements :: map m | m in s.movements[b] :: ReportMovement(s.halts, b, s.movements[b][m])
  }

  function ReportBook(book: Book): map<Id, HoldReport> {
    map h | h in book.holds :: HoldReport(book.holds[h], DeliveriesOf(book, h))
  }

  /** The fence of one base; None when nothing was observed for it. */
  function EpochOf(env: Env, s: State, base: string): Option<EpochReport> {
    if base in s.halts then
      Some(EpochReport(if base in env.anchors then env.anchors[base] else Null, Some(s.halts[base].code)))
    else if base in env.anchors then
      var anchor := env.anchors[base];
      if !anchor.Str? || !ValidOid(anchor.s) then Some(EpochReport(Null, Some(EpochGap)))
      else
        var fence := WalkFrom(EdgesAt(s, base), anchor.s);
        Some(EpochReport(Str(fence.epoch), fence.halt))
    else if EdgesAt(s, base) == [] then None
    else Some(EpochReport(Null, Some(EpochGap)))
  }

  function ReportEpochs(env: Env, s: State): map<string, EpochReport> {
    map b | b in env.anchors.Keys + s.edges.Keys + s.halts.Keys && EpochOf(env, s, b).Some? :: EpochOf(env, s, b).value
  }

  function Finish(env: Env, s: State): Report {
    Report(ReportMovements(s),
           RecoveryAppends(env.hash, s, s.aOrder),
           map b | b in s.books :: ReportBook(s.books[b]),
           map b | b in s.books && s.books[b].notes != [] :: s.books[b].notes,
           s.halts,
           ReportEpochs(env, s))
  }

  /** The whole reduce. */
  function Reduce(env: Env, events: seq<Wire>): Report {
    Finish(env, Run(env, Seed(events), events))
  }
}
