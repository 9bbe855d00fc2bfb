/** The panel aggregate: which seat evidence decides what, for any rule table. */
module Panel {
  import opened Wrappers

  datatype Intensity = Skip | SingleSeat | Full

  datatype Verdict = Approve | Block

  datatype Severity = Critical | High | Medium | Low

  /** A seat's result: a verdict with findings, or something nobody could parse. */
  datatype Outcome = Seat(verdict: Verdict, findings: seq<Severity>) | Unparseable(raw: string)

  datatype Result = APPROVED | BLOCKED | INCOMPLETE | NOT_APPLICABLE

  datatype RosterRecord = RosterRecord(ordered: seq<string>, designated: string)

  /** What the snapshot's constructor guarantees, its digest aside. */
  predicate RosterOk(r: RosterRecord) {
    r.designated in r.ordered && forall i, j :: 0 <= i < j < |r.ordered| ==> r.ordered[i] != r.ordered[j]
  }

  type Roster = r: RosterRecord | RosterOk(r) witness RosterRecord(["s"], "s")

  function RequiredSeats(intensity: Intensity, roster: Roster): seq<string> {
    match intensity
    case Full => roster.ordered
    case SingleSeat => [roster.designated]
    case Skip => []
  }

  function SeatSet(seats: seq<string>): set<string> {
    set i | 0 <= i < |seats| :: seats[i]
  }

  predicate Blocking(o: Outcome) {
    o.Seat? && (o.verdict.Block? || exists i ::
                0 <= i < |o.findings| && (o.findings[i].Critical? || o.findings[i].High?))
  }

  /** A present outcome that must never be discarded. */
  predicate Adverse(o: Outcome) {
    Blocking(o) || o.Unparseable?
  }

  /** The classes of the closed outcome union. */
  datatype Class = BlockingClass | CleanClass | UnparseableClass

  function ClassOf(o: Outcome): Class {
    if o.Unparseable? then UnparseableClass else if Blocking(o) then BlockingClass else CleanClass
  }

  /** The value each outcome class forces, if any. */
  datatype Classes = Classes(blocking: Option<Result>, clean: Option<Result>, unparseable: Option<Result>) {
    function Of(c: Class): Option<Result> {
      match c case BlockingClass => blocking case CleanClass => clean case UnparseableClass => unparseable
    }
  }

  const SCHEMA_CLASSES: Classes := Classes(Some(BLOCKED), None, Some(INCOMPLETE))

  function Classify(classes: Classes, o: Outcome): Option<Result> {
    classes.Of(ClassOf(o))
  }

  // ----- rule tables ---------------------------------------------------------

  datatype RuleName = AnyBlocked | AnyIncomplete | RequiredEmpty | KeysDiffer | Otherwise

  datatype Rule = Rule(name: RuleName, result: Result)

  const SCHEMA_RULES: seq<Rule> :=
    [Rule(AnyBlocked, BLOCKED), Rule(AnyIncomplete, INCOMPLETE), Rule(RequiredEmpty, NOT_APPLICABLE),
     Rule(KeysDiffer, INCOMPLETE), Rule(Otherwise, APPROVED)]

  type Outcomes = map<string, Outcome>

  predicate Forces(classes: Classes, outcomes: Outcomes, r: Result) {
    exists seat :: seat in outcomes && Classify(classes, outcomes[seat]) == Some(r)
  }

  predicate Applies(name: RuleName, required: seq<string>, classes: Classes, outcomes: Outcomes) {
    match name
    case AnyBlocked => Forces(classes, outcomes, BLOCKED)
    case AnyIncomplete => Forces(classes, outcomes, INCOMPLETE)
    case RequiredEmpty => required == []
    case KeysDiffer => outcomes.Keys != SeatSet(required)
    case Otherwise => true
  }

  /** The first rule of the table that applies decides. */
  function Decide(rules: seq<Rule>, required: seq<string>, classes: Classes, outcomes: Outcomes): Result
    requires exists i :: 0 <= i < |rules| && rules[i].name.Otherwise?
  {
    if Applies(rules[0].name, required, classes, outcomes) then rules[0].result
    else Decide(rules[1..], required, classes, outcomes)
  }

  /** Position of the first rule with one of the names. */
  function FirstOf(rules: seq<Rule>, names: set<RuleName>): (k: nat)
    ensures k <= |rules|
    ensures k < |rules| ==> rules[k].name in names
    ensures forall i :: 0 <= i < k ==> rules[i].name !in names
  {
    if rules == [] || rules[0].name in names then 0 else 1 + FirstOf(rules[1..], names)
  }

  predicate Mentions(rules: seq<Rule>, name: RuleName) {
    exists i :: 0 <= i < |rules| && rules[i].name == name
  }

  /** What the generator's validator demands of a rule table: it ends with `otherwise`, it
      has both evidence arms, and each arm precedes the intensity rules. */
  predicate Accepted(rules: seq<Rule>) {
    && rules != [] && rules[|rules| - 1].name.Otherwise?
    && Mentions(rules, AnyBlocked) && Mentions(rules, AnyIncomplete)
    && forall arm, rule ::
         arm in {AnyBlocked, AnyIncomplete} && rule in {RequiredEmpty, KeysDiffer} && Mentions(rules, rule) ==>
         FirstOf(rules, {arm}) <= FirstOf(rules, {rule})
  }

  lemma AcceptedEnds(rules: seq<Rule>)
    requires Accepted(rules)
    ensures exists i :: 0 <= i < |rules| && rules[i].name.Otherwise?
  {
    assert rules[|rules| - 1].name.Otherwise?;
  }

  function Aggregate(rules: seq<Rule>, classes: Classes, intensity: Intensity, roster: Roster,
                     outcomes: Outcomes): Result
    requires Accepted(rules)
  {
    AcceptedEnds(rules);
    Decide(rules, RequiredSeats(intensity, roster), classes, outcomes)
  }

  /** The aggregate as the generated loop runs it. */
  method AggregateLoop(rules: seq<Rule>, classes: Classes, intensity: Intensity, roster: Roster, outcomes: Outcomes)
    returns (r: Result)
    requires Accepted(rules)
    ensures r == Aggregate(rules, classes, intensity, roster, outcomes)
  {
    hide Applies;
    AcceptedEnds(rules);
    var required := RequiredSeats(intensity, roster);
    var i := 0;
    while i < |rules|
      invariant 0 <= i <= |rules|
      invariant exists k :: 0 <= k < |rules[i..]| && rules[i..][k].name.Otherwise?
      invariant Decide(rules[i..], required, classes, outcomes) == Decide(rules, required, classes, outcomes)
    {
      if Applies(rules[i].name, required, classes, outcomes) {
        return rules[i].result;
      }
      NextRule(rules[i..], required, classes, outcomes);
      assert rules[i..][1..] == rules[i + 1..];
      i := i + 1;
    }
    assert false;
  }

  lemma NextRule(rules: seq<Rule>, required: seq<string>, classes: Classes, outcomes: Outcomes)
    requires exists k :: 0 <= k < |rules| && rules[k].name.Otherwise?
    requires !Applies(rules[0].name, required, classes, outcomes)
    ensures exists k :: 0 <= k < |rules[1..]| && rules[1..][k].name.Otherwise?
    ensures Decide(rules, required, classes, outcomes) == Decide(rules[1..], required, classes, outcomes)
  {
    var k :| 0 <= k < |rules| && rules[k].name.Otherwise?;
    assert k > 0;
    assert rules[1..][k - 1] == rules[k];
  }

  // ----- deciding by situation -----------------------------------------------

  lemma {:induction false} DecideAt(rules: seq<Rule>, required: seq<string>, classes: Classes, outcomes: Outcomes,
                                    k: nat)
    requires exists i :: 0 <= i < |rules| && rules[i].name.Otherwise?
    requires k < |rules| && Applies(rules[k].name, required, classes, outcomes)
    requires forall i :: 0 <= i < k ==> !Applies(rules[i].name, required, classes, outcomes)
    ensures Decide(rules, required, classes, outcomes) == rules[k].result
  {
    if k > 0 {
      NextRule(rules, required, classes, outcomes);
      DecideAt(rules[1..], required, classes, outcomes, k - 1);
    }
  }

  /** All a rule table can see of a panel: which classes are present, whether no seat is
      required, and whether the outcomes' seats differ from the required ones. */
  datatype Situation = Situation(present: set<Class>, noneRequired: bool, keysDiffer: bool)

  function PresentIn(outcomes: Outcomes): set<Class> {
    set seat | seat in outcomes :: ClassOf(outcomes[seat])
  }

  function SituationOf(required: seq<string>, outcomes: Outcomes): Situation {
    Situation(PresentIn(outcomes), required == [], outcomes.Keys != SeatSet(required))
  }

  /** The situations that occur: with no seat required the seats agree only when there is no
      outcome, and with seats required they agree only when there is one. */
  predicate Attainable(s: Situation) {
    if s.noneRequired then s.keysDiffer == (s.present != {})
    else s.keysDiffer || s.present != {}
  }

  predicate ForcedIn(classes: Classes, present: set<Class>, r: Result) {
    exists c :: c in present && classes.Of(c) == Some(r)
  }

  /** Which rules apply; `otherwise` always does. */
  datatype Applied = Applied(blocked: bool, incomplete: bool, empty: bool, differ: bool) {
    predicate Holds(name: RuleName) {
      match name
      case AnyBlocked => blocked
      case AnyIncomplete => incomplete
      case RequiredEmpty => empty
      case KeysDiffer => differ
      case Otherwise => true
    }

    function Names(): set<RuleName> {
      set name: RuleName | Holds(name)
    }
  }

  function AppliedIn(classes: Classes, s: Situation): Applied {
    Applied(ForcedIn(classes, s.present, BLOCKED), ForcedIn(classes, s.present, INCOMPLETE), s.noneRequired,
            s.keysDiffer)
  }

  /** What the table says when these rules apply: a look-up, not an evaluation. */
  function ResultIn(rules: seq<Rule>, applied: Applied): Result
    requires Accepted(rules)
  {
    AcceptedEnds(rules);
    rules[FirstOf(rules, applied.Names())].result
  }

  lemma ForcesIsForced(classes: Classes, outcomes: Outcomes, r: Result)
    ensures Forces(classes, outcomes, r) <==> ForcedIn(classes, PresentIn(outcomes), r)
  {
    hide ClassOf;
    if seat :| seat in outcomes && Classify(classes, outcomes[seat]) == Some(r) {
      assert ClassOf(outcomes[seat]) in PresentIn(outcomes);
    }
    if c :| c in PresentIn(outcomes) && classes.Of(c) == Some(r) {
      var seat :| seat in outcomes && ClassOf(outcomes[seat]) == c;
      assert Classify(classes, outcomes[seat]) == Some(r);
    }
  }

  lemma AppliesByName(required: seq<string>, classes: Classes, outcomes: Outcomes, name: RuleName)
    ensures Applies(name, required, classes, outcomes) <==>
            AppliedIn(classes, SituationOf(required, outcomes)).Holds(name)
  {
    ForcesIsForced(classes, outcomes, BLOCKED);
    ForcesIsForced(classes, outcomes, INCOMPLETE);
    hide Forces, ForcedIn, SeatSet, PresentIn;
  }

  /** The verdict of any accepted table is its first rule applying in the situation. */
  lemma VerdictBySituation(rules: seq<Rule>, classes: Classes, intensity: Intensity, roster: Roster, outcomes: Outcomes)
    requires Accepted(rules)
    ensures Aggregate(rules, classes, intensity, roster, outcomes) ==
            ResultIn(rules, AppliedIn(classes, SituationOf(RequiredSeats(intensity, roster), outcomes)))
  {
    AcceptedEnds(rules);
    var required := RequiredSeats(intensity, roster);
    var applied := AppliedIn(classes, SituationOf(required, outcomes));
    var k := FirstOf(rules, applied.Names());
    forall name ensures Applies(name, required, classes, outcomes) <==> applied.Holds(name) {
      AppliesByName(required, classes, outcomes, name);
    }
    hide Applies, AppliedIn, SituationOf;
    DecideAt(rules, required, classes, outcomes, k);
  }

  lemma SituationsAreAttainable(required: seq<string>, outcomes: Outcomes)
    ensures Attainable(SituationOf(required, outcomes))
  {
    hide ClassOf;
    if outcomes != map[] {
      var seat :| seat in outcomes;
      assert ClassOf(outcomes[seat]) in PresentIn(outcomes);
    }
    if required != [] {
      assert required[0] in SeatSet(required);
    }
  }

  // ----- every attainable situation occurs -----------------------------------

  function SeatFor(c: Class): string {
    match c case BlockingClass => "a" case CleanClass => "b" case UnparseableClass => "c"
  }

  function ExampleOf(c: Class): (o: Outcome)
    ensures ClassOf(o) == c
  {
    match c
    case BlockingClass => Seat(Block, [])
    case CleanClass => Seat(Approve, [])
    case UnparseableClass => Unparseable("")
  }

  function Examples(present: set<Class>): Outcomes {
    map c | c in present :: SeatFor(c) := ExampleOf(c)
  }

  function ExampleSeats(present: set<Class>): set<string> {
    set c | c in present :: SeatFor(c)
  }

  lemma ExamplesPresent(present: set<Class>)
    ensures PresentIn(Examples(present)) == present
    ensures Examples(present).Keys == ExampleSeats(present)
  {
    var o := Examples(present);
    forall c | c in present ensures SeatFor(c) in o && o[SeatFor(c)] == ExampleOf(c) {
    }
    forall c ensures c in PresentIn(o) <==> c in present {
      if c in present
    {
        assert ClassOf(o[SeatFor(c)]) == c;
      }
    }
  }

  function SeatsFor(present: set<Class>): seq<string> {
    (if BlockingClass in present then ["a"] else [])
    + (if CleanClass in present then ["b"] else [])
    + (if UnparseableClass in present then ["c"] else [])
  }

  lemma SeatsForAre(present: set<Class>)
    ensures SeatSet(SeatsFor(present)) == ExampleSeats(present)
  {
    var seats := SeatsFor(present);
    forall c | c in present ensures SeatFor(c) in SeatSet(seats) {
      match c
      case BlockingClass => assert seats[0] == SeatFor(c);
      case CleanClass => assert seats[if BlockingClass in present then 1 else 0] == SeatFor(c);
      case UnparseableClass => assert seats[|seats| - 1] == SeatFor(c);
    }
  }

  lemma SeatsForRoster(present: set<Class>)
    requires present != {}
    ensures SeatsFor(present) != [] && RosterOk(RosterRecord(SeatsFor(present), SeatsFor(present)[0]))
  {
    var c :| c in present;
    assert SeatsFor(present) != [] by {
      match c case BlockingClass => case CleanClass => case UnparseableClass =>
    }
  }

  /** A panel for each attainable situation. */
  lemma Occurs(s: Situation) returns (intensity: Intensity, roster: Roster, outcomes: Outcomes)
    requires Attainable(s)
    ensures SituationOf(RequiredSeats(intensity, roster), outcomes) == s
  {
    outcomes := Examples(s.present);
    ExamplesPresent(s.present);
    hide ClassOf, ExampleSeats, PresentIn, Examples, SeatsFor, SeatSet;
    if s.noneRequired {
      intensity, roster := Skip, RosterRecord(["s"], "s");
      OccupiedSeats(s.present);
    } else if s.keysDiffer {
      Elsewhere(s.present);
      intensity, roster := Full, RosterRecord(["z"], "z");
    } else {
      SeatsForAre(s.present);
      SeatsForRoster(s.present);
      var seats := SeatsFor(s.present);
      intensity, roster := Full, RosterRecord(seats, seats[0]);
    }
  }

  lemma OccupiedSeats(present: set<Class>)
    ensures SeatSet([]) == {}
    ensures present == {} <==> ExampleSeats(present) == {}
  {
    if c :| c in present {
      assert SeatFor(c) in ExampleSeats(present);
    }
  }

  lemma Elsewhere(present: set<Class>)
    ensures RosterOk(RosterRecord(["z"], "z"))
    ensures SeatSet(["z"]) != ExampleSeats(present)
  {
    assert ["z"][0] == "z";
    assert "z" in SeatSet(["z"]);
  }

  // ----- evidence is never discarded -----------------------------------------

  /** A result that satisfies no gate. */
  predicate Refuses(r: Result) {
    r.BLOCKED? || r.INCOMPLETE?
  }

  ghost predicate EvidenceKept(rules: seq<Rule>, classes: Classes)
    requires Accepted(rules)
  {
    forall intensity, roster, outcomes, seat :: seat in outcomes && Adverse(outcomes[seat]) ==>
      Refuses(Aggregate(rules, classes, intensity, roster, outcomes))
  }

  predicate AdverseClass(c: Class) {
    c.BlockingClass? || c.UnparseableClass?
  }

  /** The same, read off the table: in every attainable situation with an adverse class, the
      first applicable rule refuses. */
  ghost predicate EvidenceRefused(rules: seq<Rule>, classes: Classes)
    requires Accepted(rules)
  {
    forall s: Situation, c :: Attainable(s) && c in s.present && AdverseClass(c) ==>
      Refuses(ResultIn(rules, AppliedIn(classes, s)))
  }

  lemma AdverseByClass(o: Outcome)
    ensures Adverse(o) <==> AdverseClass(ClassOf(o))
  {
  }

  /** For every accepted table and every class table, evidence is kept at every intensity if
      and only if the look-ups refuse. Acceptance alone does not say so. */
  lemma EvidenceKeptExact(rules: seq<Rule>, classes: Classes)
    requires Accepted(rules)
    ensures EvidenceKept(rules, classes) <==> EvidenceRefused(rules, classes)
  {
    hide Accepted, Attainable, Adverse, AdverseClass, ClassOf, SituationOf, AppliedIn, Aggregate, ResultIn;
    if EvidenceRefused(rules, classes) {
      forall intensity, roster: Roster, outcomes: Outcomes, seat | seat in outcomes && Adverse(outcomes[seat])
        ensures Refuses(Aggregate(rules, classes, intensity, roster, outcomes))
      {
        var required := RequiredSeats(intensity, roster);
        VerdictBySituation(rules, classes, intensity, roster, outcomes);
        SituationsAreAttainable(required, outcomes);
        AdverseByClass(outcomes[seat]);
        PresentOf(required, outcomes, seat);
      }
    }
    if EvidenceKept(rules, classes) {
      forall s: Situation, c | Attainable(s) && c in s.present && AdverseClass(c)
        ensures Refuses(ResultIn(rules, AppliedIn(classes, s)))
      {
        var intensity, roster, outcomes := Occurs(s);
        VerdictBySituation(rules, classes, intensity, roster, outcomes);
        var seat := SeatOfClass(RequiredSeats(intensity, roster), outcomes, c);
        AdverseByClass(outcomes[seat]);
      }
    }
  }

  lemma PresentOf(required: seq<string>, outcomes: Outcomes, seat: string)
    requires seat in outcomes
    ensures ClassOf(outcomes[seat]) in SituationOf(required, outcomes).present
  {
    hide ClassOf, SeatSet;
  }

  lemma SeatOfClass(required: seq<string>, outcomes: Outcomes, c: Class) returns (seat: string)
    requires c in SituationOf(required, outcomes).present
    ensures seat in outcomes && ClassOf(outcomes[seat]) == c
  {
    hide ClassOf, SeatSet;
    seat :| seat in outcomes && ClassOf(outcomes[seat]) == c;
  }

  /** A table the validator accepts although it approves a blocked subject. */
  lemma AcceptanceIsNotEnough()
    ensures var rules := [Rule(Otherwise, APPROVED), Rule(AnyBlocked, BLOCKED), Rule(AnyIncomplete, INCOMPLETE),
                          Rule(Otherwise, APPROVED)];
            Accepted(rules) && !EvidenceKept(rules, SCHEMA_CLASSES)
  {
    var rules := [Rule(Otherwise, APPROVED), Rule(AnyBlocked, BLOCKED), Rule(AnyIncomplete, INCOMPLETE),
                  Rule(Otherwise, APPROVED)];
    assert rules[1].name == AnyBlocked && rules[2].name == AnyIncomplete;
    assert Accepted(rules);
    BlockIsApproved(rules, SCHEMA_CLASSES);
  }

  /** And a class table it accepts, under which the shipped rules approve one. */
  lemma NullClassesApprove()
    ensures Accepted(SCHEMA_RULES) && !EvidenceKept(SCHEMA_RULES, Classes(None, None, None))
  {
    SchemaAccepted();
    var s := Situation({BlockingClass}, false, false);
    var applied := Applied(false, false, false, false);
    assert AppliedIn(Classes(None, None, None), s) == applied;
    SchemaFirst(applied, 4);
    hide Accepted, AppliedIn;
    assert BlockingClass in s.present && AdverseClass(BlockingClass) && !Refuses(ResultIn(SCHEMA_RULES, applied));
    EvidenceKeptExact(SCHEMA_RULES, Classes(None, None, None));
  }

  lemma BlockIsApproved(rules: seq<Rule>, classes: Classes)
    requires Accepted(rules) && rules[0] == Rule(Otherwise, APPROVED)
    ensures !EvidenceKept(rules, classes)
  {
    var s := Situation({BlockingClass}, false, false);
    AcceptedEnds(rules);
    assert FirstOf(rules, AppliedIn(classes, s).Names()) == 0;
    hide Accepted, AppliedIn;
    assert BlockingClass in s.present && AdverseClass(BlockingClass)
           && !Refuses(ResultIn(rules, AppliedIn(classes, s)));
    EvidenceKeptExact(rules, classes);
  }

  // ----- approval, exactly ---------------------------------------------------

  /** What approval is for: a non-empty required set of clean outcomes, and nothing else. */
  predicate Deserved(required: seq<string>, outcomes: Outcomes) {
    && required != [] && outcomes.Keys == SeatSet(required)
    && forall seat :: seat in outcomes ==> outcomes[seat].Seat? && !Blocking(outcomes[seat])
  }

  ghost predicate ApprovalExact(rules: seq<Rule>, classes: Classes)
    requires Accepted(rules)
  {
    forall intensity, roster, outcomes ::
      Aggregate(rules, classes, intensity, roster, outcomes) == APPROVED <==>
        Deserved(RequiredSeats(intensity, roster), outcomes)
  }

  const DESERVED: Situation := Situation({CleanClass}, false, false)

  lemma DeservedBySituation(required: seq<string>, outcomes: Outcomes)
    ensures Deserved(required, outcomes) <==> SituationOf(required, outcomes) == DESERVED
  {
    if Deserved(required, outcomes) {
      assert required[0] in outcomes.Keys;
      forall seat | seat in outcomes ensures ClassOf(outcomes[seat]) == CleanClass {
      }
      assert CleanClass in PresentIn(outcomes) by {
        assert ClassOf(outcomes[required[0]]) == CleanClass;
      }
      assert PresentIn(outcomes) == {CleanClass};
    }
    if SituationOf(required, outcomes) == DESERVED {
      forall seat | seat in outcomes ensures outcomes[seat].Seat? && !Blocking(outcomes[seat]) {
        assert ClassOf(outcomes[seat]) in PresentIn(outcomes);
      }
    }
  }

  /** For every accepted table and class table, approval means what it should if and only if
      the look-up approves the deserving situation and no other attainable one. */
  lemma ApprovalBySituation(rules: seq<Rule>, classes: Classes)
    requires Accepted(rules)
    ensures ApprovalExact(rules, classes) <==>
            forall s: Situation :: Attainable(s) ==>
              (ResultIn(rules, AppliedIn(classes, s)) == APPROVED <==> s == DESERVED)
  {
    hide Accepted, Attainable, Deserved, SituationOf, AppliedIn, Aggregate, ResultIn;
    if forall s: Situation :: Attainable(s) ==>
      (ResultIn(rules, AppliedIn(classes, s)) == APPROVED <==> s == DESERVED) {
      forall intensity, roster: Roster, outcomes: Outcomes
        ensures Aggregate(rules, classes, intensity, roster, outcomes) == APPROVED <==>
                Deserved(RequiredSeats(intensity, roster), outcomes)
      {
        var required := RequiredSeats(intensity, roster);
        VerdictBySituation(rules, classes, intensity, roster, outcomes);
        SituationsAreAttainable(required, outcomes);
        DeservedBySituation(required, outcomes);
      }
    }
    if ApprovalExact(rules, classes) {
      forall s: Situation | Attainable(s)
        ensures ResultIn(rules, AppliedIn(classes, s)) == APPROVED <==> s == DESERVED
      {
        var intensity, roster, outcomes := Occurs(s);
        VerdictBySituation(rules, classes, intensity, roster, outcomes);
        DeservedBySituation(RequiredSeats(intensity, roster), outcomes);
      }
    }
  }

  /** An accepted table decides by its arms before any intensity rule is looked at. */
  lemma ArmsFirst(rules: seq<Rule>, applied: Applied)
    requires Accepted(rules) && (applied.blocked || applied.incomplete)
    ensures ResultIn(rules, applied) == ResultIn(rules, Applied(applied.blocked, applied.incomplete, false, false))
  {
    AcceptedEnds(rules);
    var arms := Applied(applied.blocked, applied.incomplete, false, false);
    var k, a := FirstOf(rules, applied.Names()), FirstOf(rules, arms.Names());
    var arm := if applied.blocked then AnyBlocked else AnyIncomplete;
    assert Mentions(rules, arm);
    assert a <= FirstOf(rules, {arm});
    forall i | 0 <= i < |rules| && rules[i].name in {RequiredEmpty, KeysDiffer} ensures a <= i {
      assert Mentions(rules, rules[i].name);
      assert FirstOf(rules, {rules[i].name}) <= i;
    }
    hide Accepted, Mentions;
    assert arms.Holds(rules[k].name);
  }

  lemma EitherArm(rules: seq<Rule>)
    requires Accepted(rules)
    ensures var both := ResultIn(rules, Applied(true, true, false, false));
            both == ResultIn(rules, Applied(true, false, false, false))
              || both == ResultIn(rules, Applied(false, true, false, false))
  {
    AcceptedEnds(rules);
    var k := FirstOf(rules, Applied(true, true, false, false).Names());
    var a, b := FirstOf(rules, Applied(true, false, false, false).Names()),
                FirstOf(rules, Applied(false, true, false, false).Names());
    hide Accepted;
    assert k <= a && k <= b;
    assert rules[k].name == AnyIncomplete || a == k;
    assert rules[k].name == AnyBlocked || b == k;
  }

  /** The six look-ups approval rests on. With one arm applying, with no seat required (the
      seats agreeing or not), and with the seats differing, the table must not approve; with
      `otherwise` alone it must. */
  predicate SixLookups(rules: seq<Rule>)
    requires Accepted(rules)
  {
    && ResultIn(rules, Applied(true, false, false, false)) != APPROVED
    && ResultIn(rules, Applied(false, true, false, false)) != APPROVED
    && ResultIn(rules, Applied(false, false, true, false)) != APPROVED
    && ResultIn(rules, Applied(false, false, true, true)) != APPROVED
    && ResultIn(rules, Applied(false, false, false, true)) != APPROVED
    && ResultIn(rules, Applied(false, false, false, false)) == APPROVED
  }

  lemma SchemaApplied(s: Situation)
    ensures AppliedIn(SCHEMA_CLASSES, s) ==
            Applied(BlockingClass in s.present, UnparseableClass in s.present, s.noneRequired, s.keysDiffer)
  {
    assert SCHEMA_CLASSES.Of(BlockingClass) == Some(BLOCKED) && SCHEMA_CLASSES.Of(UnparseableClass) == Some(INCOMPLETE);
    assert SCHEMA_CLASSES.Of(CleanClass) == None;
  }

  /** The look-up of a situation is one of the six. */
  lemma SituationLookup(rules: seq<Rule>, s: Situation)
    requires Accepted(rules) && Attainable(s) && SixLookups(rules)
    ensures ResultIn(rules, AppliedIn(SCHEMA_CLASSES, s)) == APPROVED <==> s == DESERVED
  {
    SchemaApplied(s);
    EitherArm(rules);
    var applied := AppliedIn(SCHEMA_CLASSES, s);
    hide Accepted, AppliedIn, ResultIn;
    if applied.blocked || applied.incomplete {
      ArmsFirst(rules, applied);
    } else {
      CleanOnly(s.present);
    }
  }

  lemma CleanOnly(present: set<Class>)
    requires BlockingClass !in present && UnparseableClass !in present
    ensures present == {} || present == {CleanClass}
  {
    assert present <= {CleanClass} by {
      forall c | c in present ensures c == CleanClass {
        match c case BlockingClass => case CleanClass => case UnparseableClass =>
      }
    }
  }

  /** Approval, exactly, for every accepted rule table over the shipped classes: APPROVED is
      given to the non-empty required sets of clean outcomes and to nothing else, if and only
      if the six look-ups hold. */
  lemma ApprovedExact(rules: seq<Rule>)
    requires Accepted(rules)
    ensures ApprovalExact(rules, SCHEMA_CLASSES) <==> SixLookups(rules)
  {
    ApprovalBySituation(rules, SCHEMA_CLASSES);
    if SixLookups(rules) {
      forall s: Situation | Attainable(s)
        ensures ResultIn(rules, AppliedIn(SCHEMA_CLASSES, s)) == APPROVED <==> s == DESERVED
      {
        SituationLookup(rules, s);
      }
    }
    if ApprovalExact(rules, SCHEMA_CLASSES) {
      hide Accepted, ResultIn, ApprovalExact;
      LookupOf(rules, Situation({BlockingClass}, false, false));
      LookupOf(rules, Situation({UnparseableClass}, false, false));
      LookupOf(rules, Situation({}, true, false));
      LookupOf(rules, Situation({CleanClass}, true, true));
      LookupOf(rules, Situation({CleanClass}, false, true));
      LookupOf(rules, DESERVED);
    }
  }

  lemma LookupOf(rules: seq<Rule>, s: Situation)
    requires Accepted(rules) && Attainable(s)
    requires forall x: Situation :: Attainable(x) ==>
             (ResultIn(rules, AppliedIn(SCHEMA_CLASSES, x)) == APPROVED <==> x == DESERVED)
    ensures ResultIn(rules, Applied(BlockingClass in s.present, UnparseableClass in s.present, s.noneRequired,
                                    s.keysDiffer)) == APPROVED
            <==> s == DESERVED
  {
    SchemaApplied(s);
  }

  // ----- the shipped table ---------------------------------------------------

  lemma SchemaAccepted()
    ensures Accepted(SCHEMA_RULES)
  {
    assert SCHEMA_RULES[0].name == AnyBlocked && SCHEMA_RULES[1].name == AnyIncomplete;
  }

  lemma SchemaFirst(applied: Applied, k: nat)
    requires k < 5 && applied.Holds(SCHEMA_RULES[k].name) && forall i :: 0 <= i < k ==>
             !applied.Holds(SCHEMA_RULES[i].name)
    ensures Accepted(SCHEMA_RULES) && ResultIn(SCHEMA_RULES, applied) == SCHEMA_RULES[k].result
  {
    SchemaAccepted();
    var first := FirstOf(SCHEMA_RULES, applied.Names());
    assert SCHEMA_RULES[4].name == Otherwise;
    hide Accepted;
  }

  /** The verdict of the shipped table in every case. */
  lemma SchemaDecides(intensity: Intensity, roster: Roster, outcomes: Outcomes)
    ensures Accepted(SCHEMA_RULES)
    ensures var required := RequiredSeats(intensity, roster);
            Aggregate(SCHEMA_RULES, SCHEMA_CLASSES, intensity, roster, outcomes) ==
            if exists seat :: seat in outcomes && Blocking(outcomes[seat]) then BLOCKED
            else if exists seat :: seat in outcomes && outcomes[seat].Unparseable? then INCOMPLETE
            else if required == [] then NOT_APPLICABLE
            else if outcomes.Keys != SeatSet(required) then INCOMPLETE
            else APPROVED
  {
    SchemaAccepted();
    VerdictBySituation(SCHEMA_RULES, SCHEMA_CLASSES, intensity, roster, outcomes);
    var s := SituationOf(RequiredSeats(intensity, roster), outcomes);
    SchemaApplied(s);
    PresentExactly(outcomes);
    var applied := AppliedIn(SCHEMA_CLASSES, s);
    var k := if BlockingClass in s.present then 0 else if UnparseableClass in s.present then 1
      else if s.noneRequired then 2
             else if s.keysDiffer then 3 else 4;
    hide Aggregate, AppliedIn, Accepted, Blocking, SeatSet, ResultIn, PresentIn;
    SchemaFirst(applied, k);
  }

  lemma PresentExactly(outcomes: Outcomes)
    ensures BlockingClass in PresentIn(outcomes) <==> exists seat :: seat in outcomes && Blocking(outcomes[seat])
    ensures UnparseableClass in PresentIn(outcomes) <==> exists seat :: seat in outcomes && outcomes[seat].Unparseable?
  {
    if seat :| seat in outcomes && Blocking(outcomes[seat]) {
      assert ClassOf(outcomes[seat]) == BlockingClass;
    }
    if seat :| seat in outcomes && outcomes[seat].Unparseable? {
      assert ClassOf(outcomes[seat]) == UnparseableClass;
    }
  }

  /** The shipped table keeps all evidence and approves exactly what deserves it. */
  lemma SchemaIsSound()
    ensures Accepted(SCHEMA_RULES)
    ensures EvidenceKept(SCHEMA_RULES, SCHEMA_CLASSES) && ApprovalExact(SCHEMA_RULES, SCHEMA_CLASSES)
  {
    SchemaAccepted();
    SchemaLookups();
    hide Accepted, ResultIn, SixLookups, ApprovalExact;
    ApprovedExact(SCHEMA_RULES);
    EvidenceKeptExact(SCHEMA_RULES, SCHEMA_CLASSES);
    forall s: Situation, c | Attainable(s) && c in s.present && AdverseClass(c)
      ensures Refuses(ResultIn(SCHEMA_RULES, AppliedIn(SCHEMA_CLASSES, s)))
    {
      SchemaApplied(s);
      SchemaFirst(AppliedIn(SCHEMA_CLASSES, s), if BlockingClass in s.present then 0 else 1);
    }
  }

  lemma SchemaLookups()
    ensures Accepted(SCHEMA_RULES) && SixLookups(SCHEMA_RULES)
  {
    SchemaAccepted();
    hide Accepted, ResultIn;
    SchemaFirst(Applied(true, false, false, false), 0);
    SchemaFirst(Applied(false, true, false, false), 1);
    SchemaFirst(Applied(false, false, true, false), 2);
    SchemaFirst(Applied(false, false, true, true), 2);
    SchemaFirst(Applied(false, false, false, true), 3);
    SchemaFirst(Applied(false, false, false, false), 4);
  }

  // ----- intensity by intensity ----------------------------------------------

  /** The seats that must answer: none at SKIP, the designated one at SINGLE, the roster at FULL. */
  function SeatsAt(intensity: Intensity, roster: Roster): set<string> {
    match intensity
    case Skip => {}
    case SingleSeat => {roster.designated}
    case Full => set seat | seat in roster.ordered
  }

  /** A seat that blocks: by its verdict, or by a finding that is critical or high. */
  predicate Objects(o: Outcome) {
    o.Seat? && (o.verdict == Block || Critical in o.findings || High in o.findings)
  }

  /** A seat that approves and found nothing critical or high. */
  predicate IsClean(o: Outcome) {
    o.Seat? && o.verdict == Approve && Critical !in o.findings && High !in o.findings
  }

  lemma SeatsRequired(intensity: Intensity, roster: Roster)
    ensures SeatSet(RequiredSeats(intensity, roster)) == SeatsAt(intensity, roster)
    ensures RequiredSeats(intensity, roster) == [] <==> intensity.Skip?
  {
    if intensity.SingleSeat? {
      assert [roster.designated][0] == roster.designated;
    }
  }

  lemma ObjectsBlocks(o: Outcome)
    ensures Objects(o) <==> Blocking(o)
    ensures IsClean(o) <==> !Objects(o) && !o.Unparseable?
  {
    if o.Seat? {
      if Critical in o.findings {
        var i :| 0 <= i < |o.findings| && o.findings[i] == Critical;
      }
      if High in o.findings {
        var i :| 0 <= i < |o.findings| && o.findings[i] == High;
      }
    }
  }

  /** The situation a panel is in, said of the roster's own fields: any accepted table decides
      by it. */
  lemma VerdictAtIntensity(rules: seq<Rule>, classes: Classes, intensity: Intensity, roster: Roster, outcomes: Outcomes)
    requires Accepted(rules)
    ensures Aggregate(rules, classes, intensity, roster, outcomes) ==
            ResultIn(rules, AppliedIn(classes, Situation(PresentIn(outcomes), intensity.Skip?,
                                                         outcomes.Keys != SeatsAt(intensity, roster))))
  {
    VerdictBySituation(rules, classes, intensity, roster, outcomes);
    SeatsRequired(intensity, roster);
    hide Accepted, Aggregate, ResultIn, AppliedIn, PresentIn, SeatsAt, RequiredSeats, SeatSet;
  }

  /** The shipped table, intensity by intensity: a blocking seat blocks, an unparseable one or a
      wrong set of seats leaves the panel incomplete, SKIP is not applicable, and otherwise the
      required seats have all approved. */
  lemma SchemaAtIntensity(intensity: Intensity, roster: Roster, outcomes: Outcomes)
    ensures Accepted(SCHEMA_RULES)
    ensures Aggregate(SCHEMA_RULES, SCHEMA_CLASSES, intensity, roster, outcomes) ==
            if exists seat :: seat in outcomes && Objects(outcomes[seat]) then BLOCKED
            else if exists seat :: seat in outcomes && outcomes[seat].Unparseable? then INCOMPLETE
            else if intensity.Skip? then NOT_APPLICABLE
            else if outcomes.Keys != SeatsAt(intensity, roster) then INCOMPLETE
            else APPROVED
  {
    SchemaDecides(intensity, roster, outcomes);
    SeatsRequired(intensity, roster);
    forall seat | seat in outcomes ensures Objects(outcomes[seat]) <==> Blocking(outcomes[seat]) {
      ObjectsBlocks(outcomes[seat]);
    }
    hide Aggregate, Accepted, Blocking, Objects, SeatSet, SeatsAt, RequiredSeats;
  }

  /** SINGLE approves exactly a clean answer of the designated seat alone; FULL exactly clean
      answers of all the roster and nobody else; SKIP never, and is not applicable exactly when
      every outcome there is, if any, is clean. */
  lemma ApprovalAtIntensity(roster: Roster, outcomes: Outcomes)
    ensures Accepted(SCHEMA_RULES)
    ensures Aggregate(SCHEMA_RULES, SCHEMA_CLASSES, SingleSeat, roster, outcomes) == APPROVED <==>
            outcomes.Keys == {roster.designated} && IsClean(outcomes[roster.designated])
    ensures Aggregate(SCHEMA_RULES, SCHEMA_CLASSES, Full, roster, outcomes) == APPROVED <==>
            (forall seat :: seat in outcomes <==> seat in roster.ordered)
            && forall seat :: seat in outcomes ==> IsClean(outcomes[seat])
    ensures Aggregate(SCHEMA_RULES, SCHEMA_CLASSES, Skip, roster, outcomes) != APPROVED
    ensures Aggregate(SCHEMA_RULES, SCHEMA_CLASSES, Skip, roster, outcomes) == NOT_APPLICABLE <==>
            forall seat :: seat in outcomes ==> IsClean(outcomes[seat])
  {
    forall seat | seat in outcomes
      ensures IsClean(outcomes[seat]) <==> !Objects(outcomes[seat]) && !outcomes[seat].Unparseable?
    {
      ObjectsBlocks(outcomes[seat]);
    }
    SchemaAtIntensity(SingleSeat, roster, outcomes);
    SchemaAtIntensity(Full, roster, outcomes);
    SchemaAtIntensity(Skip, roster, outcomes);
    assert forall seat :: seat in SeatsAt(Full, roster) <==> seat in roster.ordered;
    hide Aggregate, Accepted, Objects, IsClean;
    if outcomes.Keys == {roster.designated} {
      assert roster.designated in outcomes;
    }
    assert outcomes.Keys == SeatsAt(Full, roster) <==> forall seat :: seat in outcomes <==> seat in roster.ordered by {
      if forall seat :: seat in outcomes <==> seat in roster.ordered {
        forall seat ensures seat in outcomes.Keys <==> seat in SeatsAt(Full, roster) {
        }
      }
    }
  }

  // ----- keyed seat results --------------------------------------------------

  datatype SeatRecord = SeatRecord(seat: string, subject: string, attempt: string, outcome: Outcome)

  /** What the records say about one attempt on one subject: seats with their outcomes. */
  function Evidence(records: seq<SeatRecord>, subject: string, attempt: string): set<(string, Outcome)> {
    set i | 0 <= i < |records| && records[i].subject == subject && records[i].attempt == attempt ::
      (records[i].seat, records[i].outcome)
  }

  predicate Conflicting(evidence: set<(string, Outcome)>) {
    exists x, y :: x in evidence && y in evidence && x.0 == y.0 && x.1 != y.1
  }

  ghost predicate Collects(outcomes: Outcomes, evidence: set<(string, Outcome)>) {
    forall seat, o :: (seat in outcomes && outcomes[seat] == o) <==> (seat, o) in evidence
  }

  lemma {:induction false} EvidenceSnoc(records: seq<SeatRecord>, x: SeatRecord, subject: string, attempt: string)
    ensures Evidence(records + [x], subject, attempt) ==
            Evidence(records, subject, attempt)
              + if x.subject == subject && x.attempt == attempt then {(x.seat, x.outcome)} else {}
  {
    var all := records + [x];
    assert all[|records|] == x;
    forall p | p in Evidence(records, subject, attempt) ensures p in Evidence(all, subject, attempt) {
      var i :| 0 <= i < |records| && records[i].subject == subject && records[i].attempt == attempt
               && p == (records[i].seat, records[i].outcome);
      assert all[i] == records[i];
    }
  }

  /** The outcomes of one attempt, seat by seat; none when a seat has two. */
  function OutcomesOf(records: seq<SeatRecord>, subject: string, attempt: string): Option<Outcomes> {
    if records == [] then Some(map[])
    else
      var x := records[|records| - 1];
      match OutcomesOf(records[..|records| - 1], subject, attempt)
      case None => None
      case Some(own) =>
        if x.subject != subject || x.attempt != attempt then Some(own)
        else if x.seat in own && own[x.seat] != x.outcome then None
        else Some(own[x.seat := x.outcome])
  }

  /** The verdict the records give: conflicting results for a seat are INCOMPLETE, otherwise
      the aggregate sees exactly the matching outcomes. */
  function SeatVerdict(rules: seq<Rule>, classes: Classes, intensity: Intensity, roster: Roster,
                       subject: string, attempt: string, records: seq<SeatRecord>): Result
    requires Accepted(rules)
  {
    match OutcomesOf(records, subject, attempt)
    case None => INCOMPLETE
    case Some(own) => Aggregate(rules, classes, intensity, roster, own)
  }

  /** A conflict stays one, whatever comes later. */
  lemma {:induction false} ConflictStays(records: seq<SeatRecord>, k: nat, subject: string, attempt: string)
    requires k <= |records| && OutcomesOf(records[..k], subject, attempt) == None
    ensures OutcomesOf(records, subject, attempt) == None
  {
    if k == |records| {
      assert records[..k] == records;
    } else {
      assert records[..|records| - 1][..k] == records[..k];
      ConflictStays(records[..|records| - 1], k, subject, attempt);
    }
  }

  /** The keyed filter in front of the aggregate. */
  method AggregateSeatResults(rules: seq<Rule>, classes: Classes, intensity: Intensity, roster: Roster,
                              subject: string, attempt: string, records: seq<SeatRecord>)
    returns (r: Result)
    requires Accepted(rules)
    ensures r == SeatVerdict(rules, classes, intensity, roster, subject, attempt, records)
  {
    hide Aggregate, Accepted;
    var own: Outcomes := map[];
    for i := 0 to |records|
      invariant OutcomesOf(records[..i], subject, attempt) == Some(own)
    {
      var x := records[i];
      assert records[..i + 1][..i] == records[..i];
      if x.subject == subject && x.attempt == attempt {
        if x.seat in own && own[x.seat] != x.outcome {
          ConflictStays(records, i + 1, subject, attempt);
          return INCOMPLETE;
        }
        own := own[x.seat := x.outcome];
      }
    }
    assert records[..|records|] == records;
    r := AggregateLoop(rules, classes, intensity, roster, own);
  }

  /** There is no outcome map iff some seat has two results, and otherwise it holds exactly
      the evidence. */
  lemma {:induction false} OutcomesExact(records: seq<SeatRecord>, subject: string, attempt: string)
    ensures OutcomesOf(records, subject, attempt) == None <==> Conflicting(Evidence(records, subject, attempt))
    ensures OutcomesOf(records, subject, attempt).Some? ==>
              Collects(OutcomesOf(records, subject, attempt).value, Evidence(records, subject, attempt))
  {
    if records != [] {
      var before, x := records[..|records| - 1], records[|records| - 1];
      assert records == before + [x];
      OutcomesExact(before, subject, attempt);
      EvidenceSnoc(before, x, subject, attempt);
      hide Evidence;
      if x.subject == subject && x.attempt == attempt && OutcomesOf(before, subject, attempt).Some? {
        Joins(OutcomesOf(before, subject, attempt).value, Evidence(before, subject, attempt), x.seat, x.outcome);
      }
    }
  }

  lemma Joins(own: Outcomes, evidence: set<(string, Outcome)>, seat: string, o: Outcome)
    requires Collects(own, evidence)
    ensures !Conflicting(evidence)
    ensures Conflicting(evidence + {(seat, o)}) <==> seat in own && own[seat] != o
    ensures !Conflicting(evidence + {(seat, o)}) ==> Collects(own[seat := o], evidence + {(seat, o)})
  {
    forall x | x in evidence ensures x.0 in own && own[x.0] == x.1 {
      assert (x.0, x.1) in evidence;
    }
    if seat in own {
      assert (seat, own[seat]) in evidence;
      assert (seat, o) in evidence + {(seat, o)};
    }
  }

  /** Evidence determines its outcomes, so the verdict depends on the set alone. */
  lemma CollectedOnce(x: Outcomes, y: Outcomes, evidence: set<(string, Outcome)>)
    requires Collects(x, evidence) && Collects(y, evidence)
    ensures x == y
  {
    forall seat ensures seat in x <==> seat in y {
      if seat in x
    {
        assert (seat, x[seat]) in evidence;
      }
      if seat in y {
        assert (seat, y[seat]) in evidence;
      }
    }
    forall seat | seat in x ensures x[seat] == y[seat] {
      assert (seat, x[seat]) in evidence;
    }
  }

  /** Every record of one list that is keyed to the attempt is in the other. */
  predicate OwnWithin(records: seq<SeatRecord>, others: seq<SeatRecord>, subject: string, attempt: string) {
    forall x :: x in records && x.subject == subject && x.attempt == attempt ==> x in others
  }

  lemma EvidenceWithin(records: seq<SeatRecord>, others: seq<SeatRecord>, subject: string, attempt: string)
    requires OwnWithin(records, others, subject, attempt)
    ensures Evidence(records, subject, attempt) <= Evidence(others, subject, attempt)
  {
    forall p | p in Evidence(records, subject, attempt) ensures p in Evidence(others, subject, attempt) {
      var i :| 0 <= i < |records| && records[i].subject == subject && records[i].attempt == attempt
               && p == (records[i].seat, records[i].outcome);
      var j :| 0 <= j < |others| && others[j] == records[i];
    }
  }

  /** The verdict depends on which records of the attempt there are, and on nothing else: not
      on their order, on how often one is repeated, or on records of other attempts. */
  lemma VerdictInvariant(rules: seq<Rule>, classes: Classes, intensity: Intensity, roster: Roster,
                         subject: string, attempt: string, records: seq<SeatRecord>, others: seq<SeatRecord>)
    requires Accepted(rules)
    requires OwnWithin(records, others, subject, attempt) && OwnWithin(others, records, subject, attempt)
    ensures SeatVerdict(rules, classes, intensity, roster, subject, attempt, records) ==
            SeatVerdict(rules, classes, intensity, roster, subject, attempt, others)
  {
    EvidenceWithin(records, others, subject, attempt);
    EvidenceWithin(others, records, subject, attempt);
    OutcomesExact(records, subject, attempt);
    OutcomesExact(others, subject, attempt);
    hide Accepted, Aggregate, OutcomesOf, Evidence, OwnWithin, Collects, Conflicting;
    if OutcomesOf(records, subject, attempt).Some? {
      CollectedOnce(OutcomesOf(records, subject, attempt).value, OutcomesOf(others, subject, attempt).value,
                    Evidence(records, subject, attempt));
    }
  }

  /** In particular: a permutation, a repetition, and a foreign record anywhere. */
  lemma VerdictIgnores(rules: seq<Rule>, classes: Classes, intensity: Intensity, roster: Roster, subject: string,
                       attempt: string, records: seq<SeatRecord>, others: seq<SeatRecord>, x: SeatRecord, k: nat)
    requires Accepted(rules) && k <= |records|
    ensures multiset(records) == multiset(others) ==>
              SeatVerdict(rules, classes, intensity, roster, subject, attempt, records) ==
              SeatVerdict(rules, classes, intensity, roster, subject, attempt, others)
    ensures x in records || x.subject != subject || x.attempt != attempt ==>
              SeatVerdict(rules, classes, intensity, roster, subject, attempt, records[..k] + [x] + records[k..]) ==
              SeatVerdict(rules, classes, intensity, roster, subject, attempt, records)
  {
    hide Accepted, SeatVerdict;
    if multiset(records) == multiset(others) {
      assert forall r :: r in records <==> r in multiset(records);
      assert forall r :: r in others <==> r in multiset(others);
      VerdictInvariant(rules, classes, intensity, roster, subject, attempt, records, others);
    }
    if x in records || x.subject != subject || x.attempt != attempt {
      assert records == records[..k] + records[k..];
      VerdictInvariant(rules, classes, intensity, roster, subject, attempt, records[..k] + [x] + records[k..], records);
    }
  }

  /** From record to verdict: no adverse record of the attempt is ever lost, wherever it stands
      and whatever else is reported, when the table keeps evidence. */
  lemma RecordsKeepEvidence(rules: seq<Rule>, classes: Classes, intensity: Intensity, roster: Roster,
                            subject: string, attempt: string, records: seq<SeatRecord>, i: nat)
    requires Accepted(rules) && EvidenceKept(rules, classes)
    requires i < |records| && records[i].subject == subject && records[i].attempt == attempt
             && Adverse(records[i].outcome)
    ensures Refuses(SeatVerdict(rules, classes, intensity, roster, subject, attempt, records))
  {
    hide Accepted, Aggregate, Adverse, OutcomesOf;
    OutcomesExact(records, subject, attempt);
    assert (records[i].seat, records[i].outcome) in Evidence(records, subject, attempt);
  }
}
