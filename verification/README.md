# Verified model of the dispatcher's boundary, branch surfaces and account rotation

This project models three parts of the dispatcher and proves what they promise.

**The boundary reducer** (`tools/fsmgen.py`, the runtime it emits, and `schema/lifecycle_fsm.yaml`).
A durable stream of lifecycle records is walked once. Records are validated, deduplicated by event id
and applied to one of two machines per base: the dispatcher's own movements (section A) and foreign
holds (section B). Every step runs on a copy and is committed at one point; an accepted step may
contribute one fence edge, and at the end each base's edges are folded into one epoch chain.

* `Wire`, `Schema`, `Events`, `Intakes`, `Text` hold the records, the closed vocabularies with their
  transition rows, the typed events, the fail-closed construction, and the digest preimages.
* `Projection` derives the durable projection of a transition table; `ProjectionTables` proves, for any table,
  when the reducer built on it accepts exactly what live runs append; `SectionA` is the shipped machine, and
  `ShippedTable` derives the exactness of its steps and traces from the general theorems.
* `SectionB`, `HoldInvariants`, `Tags`, `Fences` are the hold book: its step, its invariant, what a
  writer's tag can and cannot do, and which steps move the fence. `Decisions` says of the book's own fields
  which records are accepted, and the whole book each leaves.
* `Epochs` is the epoch fold.
* `Reducer` is the walk as a function on values. `Slices` shows that it is one independent machine per
  base over a shared table of event ids; `Runs`, `Safety`, `BaseReports`, `NonInterference`,
  `Redelivery`, `Recovery`, `Convergence` prove the whole-run guarantees on that basis, and `Reports` says
  what one record does to its base and what the report tells of it.
* `HoldBooks`, `Walk`, `Ceilings`, `Boundary` are the walk as it runs, with classes mutated in place and
  loops, proved to compute exactly the function of `Reducer`. A step writes a base's movement map or a hold's
  delivery list in place, so these are heap objects of their own (`Walk.MovementMap`,
  `HoldBooks.DeliveryList`): no two bases and no two holds share one, a copy has new ones, and a refused step
  leaves every committed one where it was, unwritten.
* `Instance` connects the abstract context of the walk with the boundary's own record rules; `Fields` and
  `Vocabulary` spell out every row's fields and names, `Typing` is the whole intake, fields and refusal codes
  included, and `Copies` says field by field which records of one event id are copies.

**The panel aggregate** (same generator, `schema/panel_aggregate.yaml`) is in `Panel`, for any rule table and
any classification of outcomes that the validator accepts.

**Merged declaration spaces** (`src/claude_dispatcher/branch_surface.py`) are in `Keys`, `Surface`, `Routing`
(which entry every key belongs to), `Closure` and `Fold` (the whole branch fold); **the account scheduler**
(`src/claude_dispatcher/accounts.py`) is in `Accounts`.

`dafny verify dfyconfig.toml` checks everything.

Assumptions, named where they are used. SHA-256 is a digest function that is assumed injective
(`Text.Injective`) exactly in the lemmas that say so. The canonical form of a record is the record
restricted to the compared fields, not its JSON text. `Reducer.Local` says that validation and canonical
form respect a record's base key; `Instance.StandardIsLocal` proves it of the boundary's own rules, so it
is no assumption about them. Timestamps and the field rules of records that neither machine reduces are
parameters of `Wire.Rules`.

A section-A table (`ProjectionTables.Table`) is its event variants with their rows. `WellFormed` asks that the
rows be those of the variants, that durability be an exclusive partition, and that every row into a
memory-only state can be taken: the runtime moves to RECONCILED or HELD on an accepting or rejecting reconcile
and stays put on a replay, whatever target such a row names (tools/fsmgen.py:1458-1464).

Where the code and its documentation differ, the code is modelled, and the exact condition is proved.

* The durable reducer is documented as driving the composed projection of the table. An `operator_reconcile` row is
  stepped from the durable state itself (tools/fsmgen.py:2521-2525), so when such a row starts in a memory-only
  state its event is live and yet refused. `ProjectionTables.ExactIffFaithful` and `TracesExactIffFaithful` say
  for which tables the reducer is exact; `ShippedTable.MemoryOperatorRefused` is the shipped table with one more
  operator event, for which it is not.
* The rule-table validator is meant to guarantee that no rule order discards evidence (tools/fsmgen.py:310-311).
  It does not: `otherwise` may also stand early, an arm may yield any result, and a class may have any value or
  none. `Panel.AcceptanceIsNotEnough` and `Panel.NullClassesApprove` are accepted tables that approve a blocked
  subject; `Panel.EvidenceKeptExact` and `Panel.ApprovedExact` are the exact conditions, look-ups in the table
  that need no run.
* A comment says that the release gates still run on a replayed automatic release (tools/fsmgen.py:2755-2759), but
  the step returns before them (tools/fsmgen.py:2910-2917); `Fences.AutoReplayExact` states what the code does.
* Merged fingerprints are joined by ` + `, and texts that hold a joint, or begin with its second half, can merge
  like others (`Surface.UnseparableHides`). `Surface.WideningExact` says that between all other texts the comparison
  reports exactly the changed ones.
* Nothing ever removes a hold from the refused set, so a refused automatic release is refused for good.

## Model

| member | source | states |
|---|---|---|
| `Projection.ComposeProjection` | tools/fsmgen.py:371-401 | the stack search terminates and returns, for each durable state, exactly the states reachable through memory-only intermediates and exactly the non-memory states one step beyond |
| `Projection.BuildAdjacency` | tools/fsmgen.py:376-384 | the adjacency built from the rows holds every step of a row and no other |
| `Projection.Explore` | tools/fsmgen.py:386-400 | one search: its frontier and successors are the reference definitions by paths |
| `Projection.RunProjects` | tools/fsmgen.py:371-375 | for any row table, the durable states of any live run are linked by projection edges, and the run's current state is in the last one's frontier |
| `Projection.ProjectionLifts` | tools/fsmgen.py:371-375 | conversely, every log of linked durable states is what some live run leaves behind |
| `SectionA.VariantTakesRow` | schema/lifecycle_fsm.yaml:39-150 | each event variant is one row of the section-A table: source and target, trigger, guard, epoch effect and hold effect are the row's |
| `SectionA.TriggerHasVariant` | schema/lifecycle_fsm.yaml:39-150 | conversely, every trigger of every row has a variant that transcribes it |
| `SectionA.StepByRow` | tools/fsmgen.py:2480-2528 | exactly which records a reduced movement accepts, by state and payload, epochs included, and the state each leaves; an accepting reconcile need not advance the epoch |
| `SectionB.HoldVariantTakesRow` | schema/lifecycle_fsm.yaml:329-410 | each hold variant is one row of the section-B table, re-entered from STANDING where the table says so, and moves a hold to the row's target |
| `SectionA.SectionARowsGenerate` | schema/lifecycle_fsm.yaml:39-150 | the row table and the live steps are one relation |
| `SectionA.ProjectionConstantsExact` | src/claude_dispatcher/boundary/generated/__init__.py:352-371 | the emitted frontier and edges are the composition of the row table, in both directions |
| `SectionA.GenerateProjection` | tools/fsmgen.py:371-401 | running the generator on section-A rows yields the emitted constants |
| `ProjectionTables.ExactIffFaithful` | tools/fsmgen.py:2480-2528 | for any table: a row's durable events are accepted exactly when some live run through memory-only states takes the row with that result (or the accepting disposition is replayed) iff the row is faithful, that is, every operator row that a durable state's frontier reaches starts in that state itself |
| `ProjectionTables.TracesExactIffFaithful` | tools/fsmgen.py:2480-2528 | for any table: accepted traces are exactly those made of live steps iff every durable row is faithful |
| `ProjectionTables.LiveTraceExact` | tools/fsmgen.py:2480-2528 | for any faithful table, the durable trace of a live run is accepted iff its durable events satisfy the epoch algebra, and then ends where the run does |
| `ProjectionTables.AcceptedTraceIsLive` | tools/fsmgen.py:1444-1464 | for any faithful table, an accepted trace without an accept replay is the durable trace of a constructed live run |
| `ShippedTable.ShippedFaithful` | schema/lifecycle_fsm.yaml:39-150 | every row of the shipped table is faithful |
| `ShippedTable.ShippedStep` | tools/fsmgen.py:2480-2528 | the reducer over the emitted constants is the durable step of the general theory over the shipped table |
| `ShippedTable.ShippedExact` | src/claude_dispatcher/boundary/generated/__init__.py:352-371 | exactness of the shipped projection, as an instance |
| `ShippedTable.DurableStepExact` | tools/fsmgen.py:2480-2528 | the same for the shipped machine over its emitted constants: a durable event with consistent epochs is accepted, with a given result, iff some live run through memory-only states takes its row with that result, or it replays the accepting disposition of a reconciled movement |
| `ShippedTable.LiveTraceAccepted` | tools/fsmgen.py:2480-2528 | the durable trace of any live run is accepted iff its durable events satisfy the epoch algebra, whatever the memory-only ones carry, and then ends in the run's state and disposition |
| `ShippedTable.AcceptedTraceIsLive` | tools/fsmgen.py:1444-1464 | conversely, every accepted trace without an accept replay is the durable trace of some live run |
| `ShippedTable.MemoryOperatorRefused` | tools/fsmgen.py:2521-2525 | the shipped table with one more event, an operator reconcile of a submitted movement to HELD: well formed, with the same rows and so the same projection constants, and yet the new event is live after SUBMITTED and refused |
| `Text.HoldIdInjective` | tools/fsmgen.py:1531-1538 | a hold id names one base, ref, old and new object and occurrence, for newline-free parts |
| `Text.RecoveryIdInjective` | tools/fsmgen.py:1563-1569 | a recovery event id names one base and movement |
| `Text.JoinInjective` | tools/fsmgen.py:1520-1528 | newline joining is injective over newline-free lines, whatever their number |
| `Text.PreimageTexts` | tools/fsmgen.py:1520-1592 | the texts that hold ids and delta digests are digests of |
| `Wire.CanonicalFixesBase` | tools/fsmgen.py:1700-1720 | records with one canonical form carry one base key |
| `Copies.DerivedIdExact` | tools/fsmgen.py:1684-1697 | an id is derived iff the record is a recovery or an automatic release and the id is the digest of its own base and movement, or base, hold and delivery |
| `Copies.CanonicalExact` | tools/fsmgen.py:1700-1720 | two records that carry an id have one canonical form iff they agree on every field but `branch`, or, for derived ids, on the named fields of their kind, the fence and the evidence of a release among them |
| `Copies.SecondRecordExact` | tools/fsmgen.py:1750-1779 | a second valid record of a registered id is a duplicate iff it so agrees, and otherwise diverges |
| `Copies.SecondRecordReduced` | tools/fsmgen.py:2175-2216 | over the whole reduce: it changes nothing if it so agrees, and otherwise halts both bases |
| `Instance.StandardIsLocal` | tools/fsmgen.py:2271-2297 | a constructed event's base key is the base its record is accounted to, and canonical form fixes the base |
| `Instance.EffectIsConstructed` | src/claude_dispatcher/boundary/generated/__init__.py:699-724 | a section-A record is constructed iff it meets the field rules and its constructor's guards |
| `Instance.HoldIsConstructed` | src/claude_dispatcher/boundary/generated/__init__.py:699-724 | the same for section B |
| `Typing.IntakeExact` | tools/fsmgen.py:1815-1868 | which records are taken as an effect, as a hold event, and as another kind, spelled out over the wire: the one schema version, the name of the row, its fields, states, trigger, dispositions and guards, no epoch on the last kind |
| `Typing.EffectFields` | src/claude_dispatcher/boundary/generated/__init__.py:699-724 | a typed effect carries exactly the record's fields |
| `Typing.HoldFields` | src/claude_dispatcher/boundary/generated/__init__.py:699-724 | and a typed hold event likewise, and whether its id is derived |
| `Typing.RefusalCode` | tools/fsmgen.py:2218-2229 | a record of a reduced family is refused as an illegal transition iff its wire form is right but its source, hold effect or a guard is not, and as an unknown schema otherwise |
| `Vocabulary.RowNamesExact` | src/claude_dispatcher/boundary/generated/__init__.py:699-711 | every row has a name of its own, and a record is of the row it names |
| `Vocabulary.StateNamesExact` | schema/lifecycle_fsm.yaml:31-32 | which name means which state of either machine, and the reading of a section-B state inverts its printing |
| `Fields.EffectFieldsExact` | schema/lifecycle_fsm.yaml:641-679 | the required, optional and forbidden lists of every section-A row, with the value rules, say which field must, may or must not be there and what it holds: authorization by trigger, the object where one was observed, an operator's disposition |
| `Fields.HoldFieldsExact` | schema/lifecycle_fsm.yaml:690-748 | the same for section B: the delta on observations, hold and actor on decisions, delivery and digest on automatic releases, never an authorization |
| `HoldInvariants.StepKeepsInv` | tools/fsmgen.py:2882-2931 | every accepted section-B step keeps the book invariant: open holds keyed by delta are exactly the unreleased ones, the k-th hold of a delta has the k-th derived id, deliveries are partitioned, the ceiling holds, releases are safe |
| `HoldInvariants.CreationFresh` | tools/fsmgen.py:2589-2602 | the id of a created hold is unused, so a creation never collides |
| `HoldInvariants.StepGrows` | tools/fsmgen.py:2861-2879 | no accepted step undoes anything: holds and deltas persist, a release keeps its disposition, a delivery keeps its hold, a refusal is kept |
| `HoldInvariants.AutoReleaseIsGated` | tools/fsmgen.py:2770-2831 | a hold becomes released by verified match only through an event that passed every gate |
| `HoldInvariants.RefusalIsRemembered` | tools/fsmgen.py:2928-2929 | an accepted refusal marks its hold |
| `Decisions.AcceptExact` | tools/fsmgen.py:2709-2767 | an operator's acceptance of an open hold is taken iff it is in the run's mode and from the hold's own state, whatever the epochs, and gives RELEASED with its disposition; on a released hold iff the disposition is the same, and nothing changes. The whole new book |
| `Decisions.RejectExact` | tools/fsmgen.py:2882-2931 | a refusal to release and a standing decision are taken iff in the run's mode, without an epoch change and from the hold's own open state; the whole new book |
| `Decisions.IdentityExact` | tools/fsmgen.py:2882-2931 | the identity row is taken iff the hold is released with the same disposition |
| `Decisions.AutoReleaseExact` | tools/fsmgen.py:2770-2858 | an automatic release of an open hold is taken iff the hold is held and was itself never refused, the run is separated, and delivery, digest, movement and epoch are this hold's own; other holds do not matter |
| `Decisions.ObservationExact` | tools/fsmgen.py:2589-2706 | exactly what an observed delta does: absorbed by the hold of a known delivery or by the open hold of the delta, or opened as the delta's next occurrence below five open holds, or refused with which code; the whole new book and journal |
| `Decisions.UnknownHoldRefused` | tools/fsmgen.py:2655-2666 | a decision about an unknown hold is refused |
| `Tags.ObservationOutcome` | tools/fsmgen.py:2610-2666 | what an observation does, in terms of resolution alone: an existing hold never changes state, an unknown one is held |
| `Tags.TagDoesNotMatter` | tools/fsmgen.py:2610-2666 | one observation under two tags gives the same book but for the journal, or the same refusal; the journal gains exactly the disagreement |
| `Tags.ObservationRecorded` | tools/fsmgen.py:2669-2690 | an accepted observation's hold carries the observation's own delta, is the hold and holds the delivery the event names; contradictory redeliveries are never accepted |
| `Fences.DecisionOutcome` | tools/fsmgen.py:2709-2767 | an accepted decision addresses a known hold, moves no other, is taken from the hold's own state, and on a released hold is only a replay of the same disposition |
| `Fences.AutoReplayExact` | tools/fsmgen.py:2910-2917 | replaying an automatic release is accepted in the event's mode without consulting the gates, and changes nothing |
| `Fences.EffectFence` | tools/fsmgen.py:1894-1972 | a section-A step that changes movement and epoch settles an open movement, and a pinned new object is the new fence |
| `Fences.HoldFence` | tools/fsmgen.py:2823-2831 | a section-B step that changes hold and epoch releases an open hold; an automatic one sets the fence to the hold's recorded target |
| `Epochs.WalkEpochChain` | tools/fsmgen.py:2934-2969 | the bucketed walk terminates and computes the fold |
| `Epochs.WalkOkExact` | tools/fsmgen.py:2934-2969 | ok with a tail iff all edges, each once, form one simple path from the anchor to it |
| `Epochs.WalkIgnoresOrder` | tools/fsmgen.py:2934-2969 | status, epoch and halt code are invariant under permuting the edges |
| `Epochs.ExtendOkExact` | tools/fsmgen.py:2934-2969 | a resolved chain stays resolved under one more edge iff the edge starts at the tail and reaches a new epoch, which becomes the tail |
| `Epochs.WalkStopExact` | tools/fsmgen.py:2934-2969 | the walk stops at an epoch with a code iff the moves forced from the anchor lead there and that is what is found: EPOCH_FORK for several edges or one back to a visited epoch, EPOCH_GAP for edges left over, none when all are used |
| `Slices.ConsumeSlice` | tools/fsmgen.py:2175-2216 | one record acts on each base separately, given the ids seen |
| `Slices.RunSlice` | tools/fsmgen.py:2090-2126 | the walk is one independent machine per base over a shared table of ids that no machine or halt influences |
| `Slices.HaltChangesNothing` | tools/fsmgen.py:2271-2319 | on values: a record that halts a base leaves its movements, order, book and edges as they were (of the mutable containers, see `Walk.ReduceState.ConsumeRecord`) |
| `Slices.HaltCommitsNothing` | tools/fsmgen.py:2447-2458 | on values: a record that halts anything changes nothing on any base (of the mutable containers, see `Walk.ReduceState.ConsumeRecord`) |
| `Slices.FrozenAfterHalt` | tools/fsmgen.py:2156-2168 | once halted, nothing of a base changes again, its first cause included |
| `Runs.ConsumeKeeps` | tools/fsmgen.py:2175-2319 | one record keeps every base's invariant and undoes nothing |
| `Runs.ReachableInv` | tools/fsmgen.py:2090-2126 | in every reachable state: the book invariant; every fence edge has distinct 40-hex ends and comes from a valid record of the base whose row declares an epoch effect and whose outcome still shows; no movement or hold moved the fence twice; orders list exactly what exists (`Safety.FenceIsDrawn` ties the edges to the walked stream) |
| `Runs.ReachableGrows` | tools/fsmgen.py:2090-2126 | nothing a prefix of the stream settled is undone by the rest |
| `Safety.AutoReleaseWasGated` | tools/fsmgen.py:2770-2858 | every transition to an automatic release had a separated run, a known unrefused hold, a delivery recorded on it, its own delta digest, a known movement, and its recorded target as fence |
| `Safety.RefusedNeverAutoReleased` | tools/fsmgen.py:2928-2929 | a hold whose release an operator refused is never released automatically, whatever follows |
| `Safety.OpenHoldsBounded` | tools/fsmgen.py:2693-2706 | at most five holds of a base are open in any reachable state |
| `Safety.TerminalCountIsReleased` | tools/fsmgen.py:2861-2879 | the occurrence counter of a delta is the number of its released holds |
| `Safety.DeliveryNeverMoves` | tools/fsmgen.py:2861-2879 | a recorded delivery is listed under one hold, once, and stays there |
| `Safety.EdgeExact` | tools/fsmgen.py:2305-2319 | a fence gains exactly one edge when a record moved one of its base's machines and declared an epoch change, and none otherwise |
| `Safety.FenceIsDrawn` | tools/fsmgen.py:2305-2319 | over a whole run, every edge of a base was drawn by a record of the walked stream, of that base, that declares an advance; the edges stand in stream order and no record drew two |
| `Safety.ResolvedFenceExact` | tools/fsmgen.py:2341-2383 | a base's reported fence resolves to an epoch iff the base is not halted, is anchored at an object id, and its edges form one simple path to that epoch |
| `BaseReports.ReportOfSlice` | tools/fsmgen.py:2322-2383 | what is reported about a base is determined by that base's own part of the state |
| `Reports.EffectFate` | tools/fsmgen.py:2271-2319 | a new effect record on an unhalted base halts it as illegal when its step is refused, as unknown schema when an advancing epoch is no object id, and otherwise moves that movement alone and adds the one edge iff the movement changed and the epochs differ |
| `Reports.HoldFate` | tools/fsmgen.py:2271-2319 | the same of a hold record and the base's book |
| `Reports.OtherFate` | tools/fsmgen.py:2175-2216 | every other record halts its base with the intake's code, or the two bases of a divergence, or changes nothing |
| `Reports.HoldsReported` | tools/fsmgen.py:2324-2338 | every base with a book reports exactly its holds, each with its own state and disposition and its deliveries in recorded order, and its notes |
| `Reports.MovementsReported` | tools/fsmgen.py:2531-2565 | every movement is reported in its own state, except one left PREPARED on an unhalted base, which is reported held by recovery |
| `Reports.FencesReported` | tools/fsmgen.py:2341-2383 | the fence of a base: its anchor under the halt's code, the end of its edges, a gap without a usable anchor, or nothing |
| `Reports.ReleaseIsReported` | tools/fsmgen.py:2322-2338 | once a hold is released, every continuation reports it released with that disposition |
| `Reports.AcceptanceIsReported` | tools/fsmgen.py:2709-2767 | from record to report: an operator's acceptance of an open hold is reported, whatever follows |
| `NonInterference.VerdictIsLocal` | tools/fsmgen.py:1750-1779 | when no id crosses bases, the verdict on a record needs only its own base's registrations |
| `NonInterference.BasesDoNotInterfere` | tools/fsmgen.py:2090-2126 | when no id occurs under two base keys, everything reported about a base equals what its own records alone would report |
| `Redelivery.RedeliveryIsTransparent` | tools/fsmgen.py:2198-2216 | a valid copy with the same canonical form, inserted anywhere after the registering record, leaves the whole report unchanged, the ceiling count included |
| `Redelivery.DivergentCopyHalts` | tools/fsmgen.py:1770-1776 | a valid copy with another canonical form halts both bases it touched, for good |
| `Recovery.CopiesRecover` | tools/fsmgen.py:2480-2528 | appending stamped copies holds exactly the movements they name and changes nothing else of any base |
| `Convergence.RequestCanBeStamped` | tools/fsmgen.py:2536-2558 | a requested recovery record is complete: any issuer stamp makes it a valid record |
| `Convergence.StampIsCopy` | tools/fsmgen.py:1684-1720 | independently stamped copies share id and canonical form |
| `Convergence.PartialRecovery` | tools/fsmgen.py:2531-2565 | appending stamped copies of any of the requested records, in any number and order, yields the movement states already reported and the same halts, holds, notes and fences, and still requests exactly the records no copy answered |
| `Convergence.RecoveryConverges` | tools/fsmgen.py:2531-2565 | once all are answered, no further record is requested |
| `HoldBooks.HoldBook.Open` | tools/fsmgen.py:2861-2868 | opening a hold in place is the operation on the book as a value |
| `HoldBooks.HoldBook.Copy` | tools/fsmgen.py:2461-2478 | a copy has the same value and shares no container with the original, delivery lists included |
| `HoldBooks.HoldBook.Deliver` | tools/fsmgen.py:2869-2873 | a delivery is appended in place to its hold's own list, at most once, and no other hold's list changes |
| `HoldBooks.SharedListLeaks` | tools/fsmgen.py:2461-2464 | through a shared list, an append to a copy changes the original |
| `HoldBooks.HoldBook.Close` | tools/fsmgen.py:2874-2878 | closing the hold's delta and counting the release in place |
| `HoldBooks.HoldBook.RecordOutcomeInPlace` | tools/fsmgen.py:2861-2879 | the bookkeeping of a legal step in place |
| `HoldBooks.HoldBook.Step` | tools/fsmgen.py:2882-2931 | one section-B step in place gives the value step's book, or its halt |
| `Walk.Dedup.Judge` | tools/fsmgen.py:1750-1779 | the verdict on a record, registering it exactly when it is new |
| `Walk.ReduceState.RecordHalt` | tools/fsmgen.py:2156-2168 | only the first cause is recorded |
| `Walk.Shadow.StepEffect` | tools/fsmgen.py:2420-2434 | a section-A step writes only the copy's movement map; the fence moves only if the movement changed |
| `Walk.Shadow.StepHold` | tools/fsmgen.py:2436-2445 | a section-B step writes only the copied book and its lists; the fence moves only if a hold changed |
| `Walk.ReduceState.TryEffect` | tools/fsmgen.py:2296-2297 | copying and stepping a section-A event writes nothing of the state, and the copy shares nothing with it |
| `Walk.ReduceState.TryHold` | tools/fsmgen.py:2296-2297 | the same for section B |
| `Walk.Shadow.Commit` | tools/fsmgen.py:2447-2458 | the commit replaces exactly the stepped machine's containers by the copy's and appends at most one edge; no two bases come to share one |
| `Walk.ReduceState.CommitOrHalt` | tools/fsmgen.py:2297-2319 | a refused copy leaves the very same containers and only a halt, an accepted one is committed |
| `Walk.ReduceState.ApplyEvent` | tools/fsmgen.py:2271-2319 | validate on a copy, then commit: no container committed before is written, a halt keeps every one of them in place, and the result is the walk's step on values |
| `Walk.ReduceState.ConsumeRecord` | tools/fsmgen.py:2175-2216 | one record in place equals the step on values; containers stay separate, none committed before is written, and a record that is invalid, seen before, divergent, on a halted base or refused leaves all of them in place |
| `Ceilings.PerBaseCounts` | tools/fsmgen.py:1782-1798 | the one-pass counts are each base's records with copies counted once |
| `Ceilings.CountExact` | tools/fsmgen.py:1782-1798 | a base counts each id of its records once and every record without one |
| `Ceilings.CeilingExact` | tools/fsmgen.py:1801-1807 | a base is halted before the walk iff it counts more than ten thousand |
| `Boundary.SeedCeilingHalts` | tools/fsmgen.py:1801-1807 | exactly the bases over the ceiling are halted before the walk |
| `Boundary.FinishSectionA` | tools/fsmgen.py:2531-2565 | the looped report is the movement report, and the appended records are those of the prepared movements of unhalted bases, in order |
| `Boundary.FinishBook` | tools/fsmgen.py:2324-2332 | one base's holds with their deliveries |
| `Boundary.WalkEpochs` | tools/fsmgen.py:2341-2383 | the fence of every anchored, advanced or halted base |
| `Boundary.ConsumeCovered` | tools/fsmgen.py:2447-2458 | every record keeps the insertion orders in step with the state they are iterated for |
| `Boundary.ReduceBoundary` | tools/fsmgen.py:2090-2126 | the whole run in place computes the reduce on values |
| `Panel.AggregateLoop` | tools/fsmgen.py:3136-3164 | the loop returns the result of the first applicable rule |
| `Panel.VerdictAtIntensity` | tools/fsmgen.py:3067-3081 | any accepted table decides by the classes present, whether the intensity is SKIP, and whether the seats differ from those of the intensity: none, the designated seat, or the roster |
| `Panel.SchemaAtIntensity` | tools/fsmgen.py:3084-3164 | the shipped verdict at each intensity, over the roster's and the outcomes' own fields |
| `Panel.ApprovalAtIntensity` | tools/fsmgen.py:3067-3164 | SINGLE approves iff exactly the designated seat answered and is clean, FULL iff exactly the roster did and all are, SKIP never, and is not applicable iff nothing adverse was reported |
| `Panel.VerdictBySituation` | tools/fsmgen.py:3136-3164 | the verdict of any accepted table is the first rule applying in the panel's situation: classes present, nobody required, seats differing |
| `Panel.EvidenceKeptExact` | tools/fsmgen.py:298-325 | for every accepted rule table and every class table: adverse evidence is kept at every intensity iff in each attainable situation with an adverse class the first applicable rule refuses |
| `Panel.AcceptanceIsNotEnough` | tools/fsmgen.py:306-325 | a rule table the validator accepts that approves a blocked subject |
| `Panel.NullClassesApprove` | tools/fsmgen.py:298-305 | a class table it accepts under which the shipped rules do |
| `Panel.ApprovalBySituation` | tools/fsmgen.py:3136-3164 | for every accepted rule table and every class table: APPROVED means a non-empty required set of clean outcomes iff the first applicable rule approves that situation and no other attainable one |
| `Panel.SchemaIsSound` | schema/panel_aggregate.yaml:122-133 | the shipped table discards no blocking or unparseable outcome and approves exactly what deserves it |
| `Panel.SchemaDecides` | schema/panel_aggregate.yaml:122-133 | the verdict of the shipped table in every case |
| `Panel.ApprovedExact` | tools/fsmgen.py:306-325 | for every accepted rule table over the shipped classes: APPROVED iff the outcomes are those of a non-empty required set and all are clean, if and only if six look-ups in the table hold |
| `Panel.AggregateSeatResults` | tools/fsmgen.py:3167-3185 | the keyed filter as a loop gives the verdict of the records: INCOMPLETE on a conflict, otherwise the aggregate of the matching outcomes |
| `Panel.OutcomesExact` | tools/fsmgen.py:3178-3185 | the filter finds a conflict iff some seat has two results, and otherwise collects exactly the attempt's evidence |
| `Panel.VerdictInvariant` | tools/fsmgen.py:3167-3185 | the verdict depends only on which of the attempt's records there are |
| `Panel.VerdictIgnores` | tools/fsmgen.py:3167-3185 | permuting the records, repeating one anywhere, or inserting a foreign one leaves the verdict as it was |
| `Panel.RecordsKeepEvidence` | tools/fsmgen.py:3167-3185 | under a table that keeps evidence, one adverse record of the attempt makes the verdict a refusal, whatever the other records are |
| `Keys.Split` | src/claude_dispatcher/branch_surface.py:307-328 | the index loop never reads past the end and splits at unescaped slashes |
| `Keys.TsKeySegments` | src/claude_dispatcher/branch_surface.py:299-338 | the parser as a loop equals its definition |
| `Keys.DanglingExact` | src/claude_dispatcher/branch_surface.py:313-320 | splitting fails iff the key ends in an odd run of backslashes |
| `Keys.RefusalExact` | src/claude_dispatcher/branch_surface.py:313-338 | the parser refuses exactly a dangling escape or a part that is not one of the four tags, a colon and some text |
| `Keys.EscapeExact` | src/claude_dispatcher/role_protocol.py:6009-6076 | printing puts a backslash before each slash and backslash and changes nothing else |
| `Keys.RoundTrip` | src/claude_dispatcher/role_protocol.py:6009-6076 | parsing a printed key returns its segments, whatever the texts contain |
| `Keys.PrintInjective` | src/claude_dispatcher/role_protocol.py:6009-6076 | two symbols never share a key |
| `Keys.ParsedIsPrintable` | src/claude_dispatcher/branch_surface.py:756-783 | re-joining a parsed key's remaining segments never fails |
| `Surface.LandsWhereAttempted` | src/claude_dispatcher/branch_surface.py:807-829 | a key lands in a file space only when an attempted file names it, and is otherwise left unread under its own space |
| `Surface.ResolvedExact` | src/claude_dispatcher/branch_surface.py:817-829 | a specifier resolves to a file space iff some candidate is present and all present candidates name that space |
| `Surface.CollectExact` | src/claude_dispatcher/branch_surface.py:742-783 | totality: a key's contributions are exactly the items routed to it, a space is unread exactly when an item left it so |
| `Surface.SpacesAccounted` | src/claude_dispatcher/branch_surface.py:785-798 | every landed space is an attempted file space or recorded unread, and none is ever recorded as not attempted |
| `Surface.BuildSurfaceLoop` | src/claude_dispatcher/branch_surface.py:654-804 | the nested loops compute the surface, refusing exactly the caller bugs |
| `Routing.EntriesExact` | src/claude_dispatcher/branch_surface.py:737-783 | a file's fingerprint is in an entry iff one of its keys belongs there: `s:spec` plus a rest under the rest in the one space spec names, `k:global` plus a rest under the rest globally, any other key under itself in the file's own space |
| `Routing.UnreadExact` | src/claude_dispatcher/branch_surface.py:737-783 | a space is unread, with a reason, iff some key leaves it so |
| `Routing.AugmentationMeets` | src/claude_dispatcher/branch_surface.py:742-756 | an augmentation of a module's declaration contributes to the very entry the declaration is in |
| `Routing.NamesStayApart` | src/claude_dispatcher/branch_surface.py:742-756 | different names go to different entries |
| `Routing.AugmentationIsReported` | src/claude_dispatcher/branch_surface.py:832-890 | an augmentation, new at head, of a declaration kept from base is among the changes of every comparison |
| `Routing.BuildRefusedExact` | src/claude_dispatcher/branch_surface.py:712-736 | a revision is refused iff a file's language does not merge, a file was not attempted, a module's path names no space, a path is given twice, or a key cannot be placed |
| `Routing.SpaceExact` | src/claude_dispatcher/branch_surface.py:258-278 | which paths name which space: one per stem, `.d.ts` never read as `.ts` |
| `Routing.CandidatesExact` | src/claude_dispatcher/branch_surface.py:448-474 | the candidates of a specifier are the six files of the stem it points at |
| `Routing.EvidenceExact` | src/claude_dispatcher/branch_surface.py:405-429 | which keys prove a file a module |
| `Surface.CompareSurfaces` | src/claude_dispatcher/branch_surface.py:832-890 | a change is reported iff the three clauses hold in a space read at both revisions |
| `Surface.CleanExact` | src/claude_dispatcher/branch_surface.py:637-647 | for any two surfaces: clean iff every key of both revisions landed in a file space with no global touch and no key gaining a contributor changed |
| `Surface.ByPathSorts` | src/claude_dispatcher/branch_surface.py:487-501 | contributions are listed in path order, none lost or invented |
| `Surface.PathLessExact` | src/claude_dispatcher/branch_surface.py:487-501 | paths are ordered as texts: a proper beginning first, otherwise by the first difference |
| `Surface.ByPathIsStable` | src/claude_dispatcher/branch_surface.py:487-501 | the contributions of one file keep their order |
| `Surface.AdditionIsReported` | src/claude_dispatcher/branch_surface.py:832-890 | a key that keeps its contributions and gains one from a new file is always reported |
| `Surface.MoveIsSilent` | src/claude_dispatcher/branch_surface.py:487-501 | moving a single contribution between files is never reported |
| `Surface.MergedDecides` | src/claude_dispatcher/branch_surface.py:487-501 | lists of fingerprints that neither hold the joint nor begin with its second half merge alike iff they are equal |
| `Surface.WideningExact` | src/claude_dispatcher/branch_surface.py:832-890 | between such fingerprints a key widens iff it gains a contributor and its list of fingerprints changes |
| `Surface.UnseparableHides` | src/claude_dispatcher/branch_surface.py:487-501 | for every text outside that condition, between any two neighbours: the three merge like two other non-empty texts, so the file contributing it goes unreported |
| `Surface.JointHides` | src/claude_dispatcher/branch_surface.py:487-501 | two smaller families of the same, with one and with two contributions at base |
| `Closure.ClosureRequest` | src/claude_dispatcher/branch_surface.py:944-973 | refused iff an unreadable file is reached before the bound; otherwise the bounded prefix of the distinct candidates |
| `Closure.RequestExact` | src/claude_dispatcher/branch_surface.py:944-973 | distinct, in first-occurrence order, at most the bound, truncated iff a candidate is missing |
| `Closure.SpecifiersExact` | src/claude_dispatcher/branch_surface.py:432-445 | a file's specifiers are exactly those its keys augment, each once |
| `Closure.ReadableExact` | src/claude_dispatcher/branch_surface.py:432-445 | a file is readable iff every key of it reads |
| `Closure.EnumerationExact` | src/claude_dispatcher/branch_surface.py:944-973 | the candidates enumerated are exactly those of the specifiers some readable file augments |
| `Closure.TruncationIsNamed` | src/claude_dispatcher/branch_surface.py:1274-1290 | a truncated request always names a specifier it did not finish |
| `Closure.UnenumeratedExact` | src/claude_dispatcher/branch_surface.py:1274-1290 | the specifiers left unfinished are exactly those some readable file augments with a candidate not covered |
| `Closure.FoldReads` | src/claude_dispatcher/branch_surface.py:1169-1191 | the exact read log: every changed path at both revisions, then the bounded closure candidates the diff does not name, at the merge base; what was found; at most two reads a changed path plus 256 |
| `Fold.FoldBranch` | src/claude_dispatcher/branch_surface.py:1169-1243 | a fault is reported iff the closure is bounded and a read failed; the branch is checked iff moreover both revisions build with nothing unread; the changes are exactly the widenings, each with its two texts and its introducers |
| `Fold.NewAugmentationIsReported` | src/claude_dispatcher/branch_surface.py:1111-1243 | whenever a branch adds a file that augments a module's declaration kept from the merge base, a checked fold reports that declaration |
| `Accounts.PickExact` | src/claude_dispatcher/accounts.py:226-241 | nobody is picked iff nobody is usable; otherwise the first usable account in rotated order |
| `Accounts.PickedWithinOneRound` | src/claude_dispatcher/accounts.py:226-241 | an account that stays usable is picked within as many turns as the ring has places, whatever happens to the others (over given sets of usable accounts) |
| `Accounts.ServedWithinOneRound` | src/claude_dispatcher/accounts.py:179-241 | over runs of the scheduler's own operations: while an account stays usable, as many turns as the ring has places include one that hands it out, whatever is spent, capped or skipped in between |
| `Accounts.FullRoundIsPermutation` | src/claude_dispatcher/accounts.py:226-241 | with nobody excluded and no duplicates, one round picks each account exactly once |
| `Accounts.AccountRotation.NextAccount` | src/claude_dispatcher/accounts.py:226-241 | the scheduler's turn in place: pick, cursor and active account |
| `Accounts.AccountRotation.Available` | src/claude_dispatcher/accounts.py:207-212 | the listing in place: the usable accounts, one entry for each place, in ring order |
| `Accounts.ListedOften` | src/claude_dispatcher/accounts.py:207-212 | the listing holds a usable account as often as the ring does, and no other |
| `Accounts.ListedInOrder` | src/claude_dispatcher/accounts.py:207-212 | the listing of a ring is that of its parts in order |
| `Accounts.AccountRotation.MarkCapped` | src/claude_dispatcher/accounts.py:214-224 | a capped account is out until its time and, unless spent, back from then on |
| `Accounts.AccountRotation.MarkExhausted` | src/claude_dispatcher/accounts.py:186-193 | from then on, at every time, exactly the other accounts are as usable as before |
| `Accounts.SpentForTheRun` | src/claude_dispatcher/accounts.py:186-241 | after any later operations a spent account is still spent, usable at no time, and was handed out by no turn in between |
| `Accounts.AccountRotation.Advance` | src/claude_dispatcher/accounts.py:195-205 | the first account not yet spent, none iff all are |

## Left out

- Sharing of the one-level containers of a book or of the walk (journal, orders, indexes, counters, edge lists): these are fields holding values, reassigned in place; only delivery lists and movement maps are objects that could be shared.
- Slices.HaltChangesNothing: stated on values; of the mutable containers, `Walk.ReduceState.ConsumeRecord` says it.
- Slices.HaltCommitsNothing: likewise.
- Halt detail strings, metrics, run and trace ids, and the list of suppressed later causes: a halt is its code and the record that caused it.
- Records whose payload cannot be serialised: every modelled value has a canonical form.
- RFC 3339 timestamps (section 5.6 of RFC 3339) and the field rules of the families that neither machine reduces: parameters of `Wire.Rules`.
- The elapsed-time half of the recovery ceiling, which the code does not enforce (tools/fsmgen.py:557-564).
- `subject_digest`, `target_pr`, `target_ref` and the classifier preimages: not used by the walk.
- The list of fields a recovering process must supply, which the requested record carries as a note to its issuer: `Convergence.ISSUER_SUPPLIED` names them instead.
- The order of report keys and of hold listings: reports are maps; the order of the requested recovery records is kept.
- YAML reading, code and documentation emission, drift scans and vector files of the generator.
- Roster digests and the construction of outcome objects: rosters are given with the guarantees their constructor checks.
- POSIX path joining and normalisation of a specifier: a parameter (`Surface.Locator`); the six candidate spellings and the suffix rules are modelled.
- Report labels, sorting of report lists and unread details of `branch_surface.py`: results are sets and maps.
- Languages that do not merge across files are refused as inputs and have no spaces of their own.
- Git reads, comparator faults and their ranking: a read is a function from revision and path to an outcome, and a failed read is one verdict.
- The provider-message parser and calendar arithmetic of `accounts.py`: a capped account's return time is any time after now.
