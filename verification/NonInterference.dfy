/** Bases do not interfere: the report about a base is the report of its own records. */
module NonInterference {
  import opened Wrappers
  import opened Wire
  import opened Ceilings
  import opened Reducer
  import opened Slices
  import opened BaseReports

  function IdOf(ev: Wire): Option<string> {
    var id := Get(ev, "event_id");
    if id.Str? && id.s != "" then Some(id.s) else None
  }

  /** No event id occurs under two base keys. */
  ghost predicate OneBasePerId(events: seq<Wire>) {
    forall i, j ::
      0 <= i < |events| && 0 <= j < |events| && IdOf(events[i]).Some? && IdOf(events[i]) == IdOf(events[j]) ==>
      BaseHint(events[i]) == BaseHint(events[j])
  }

  // ----- the table of ids ----------------------------------------------------

  /** Each registration was made by a record of the stream, under that record's base. */
  ghost predicate SeenFrom(seen: map<string, Registration>, events: seq<Wire>) {
    forall id :: id in seen ==>
      exists k :: 0 <= k < |events| && IdOf(events[k]) == Some(id) && BaseHint(events[k]) == seen[id].base
  }

  /** Two tables agree on the registrations of one base, and the second has no others. */
  ghost predicate SeenAgrees(whole: map<string, Registration>, own: map<string, Registration>, base: string) {
    && (forall id :: id in whole && whole[id].base == base ==> id in own)
    && (forall id :: id in own ==> id in whole && whole[id] == own[id] && own[id].base == base)
  }

  lemma RegisteredIs(env: Env, seen: map<string, Registration>, ev: Wire)
    ensures SeenConsume(env, seen, ev) == seen ||
            (IdOf(ev).Some? && IdOf(ev).value !in seen &&
             SeenConsume(env, seen, ev) == seen[IdOf(ev).value := Registration(env.canonical(ev), BaseHint(ev))])
  {
  }

  lemma SeenFromSnoc(env: Env, seen: map<string, Registration>, events: seq<Wire>, ev: Wire)
    requires SeenFrom(seen, events)
    ensures SeenFrom(SeenConsume(env, seen, ev), events + [ev])
  {
    hide SeenConsume, IdOf, BaseHint;
    RegisteredIs(env, seen, ev);
    var after := SeenConsume(env, seen, ev);
    var all := events + [ev];
    forall id | id in after
      ensures exists k :: 0 <= k < |all| && IdOf(all[k]) == Some(id) && BaseHint(all[k]) == after[id].base
    {
      if id in seen {
        var k :| 0 <= k < |events| && IdOf(events[k]) == Some(id) && BaseHint(events[k]) == seen[id].base;
        assert all[k] == events[k];
      } else {
        assert all[|events|] == ev;
      }
    }
  }

  /** A record whose id is registered was registered under its own base. */
  lemma RegisteredUnderOwnBase(seen: map<string, Registration>, events: seq<Wire>, ev: Wire)
    requires SeenFrom(seen, events) && OneBasePerId(events + [ev])
    requires IdOf(ev).Some? && IdOf(ev).value in seen
    ensures seen[IdOf(ev).value].base == BaseHint(ev)
  {
    hide IdOf, BaseHint;
    var id := IdOf(ev).value;
    var k :| 0 <= k < |events| && IdOf(events[k]) == Some(id) && BaseHint(events[k]) == seen[id].base;
    var all := events + [ev];
    assert all[k] == events[k] && all[|events|] == ev;
  }

  /** The verdict on a record of the base needs only the base's own registrations, and
      never halts another base. */
  lemma VerdictIsLocal(env: Env, seen: map<string, Registration>, own: map<string, Registration>, events: seq<Wire>,
                       ev: Wire)
    requires SeenFrom(seen, events) && OneBasePerId(events + [ev]) && SeenAgrees(seen, own, BaseHint(ev))
    ensures Check(env, seen, ev) == Check(env, own, ev)
  {
    if IdOf(ev).Some? && IdOf(ev).value in seen {
      RegisteredUnderOwnBase(seen, events, ev);
    }
    hide SeenFrom, OneBasePerId, BaseHint;
  }

  lemma DivergenceStaysHome(env: Env, seen: map<string, Registration>, events: seq<Wire>, ev: Wire)
    requires SeenFrom(seen, events) && OneBasePerId(events + [ev])
    ensures Check(env, seen, ev).Divergent? ==> Check(env, seen, ev).bases == {BaseHint(ev)}
  {
    if IdOf(ev).Some? && IdOf(ev).value in seen {
      RegisteredUnderOwnBase(seen, events, ev);
    }
    hide SeenFrom, OneBasePerId, BaseHint;
  }

  lemma OwnRecordAgrees(env: Env, seen: map<string, Registration>, own: map<string, Registration>, events: seq<Wire>,
                        ev: Wire)
    requires SeenFrom(seen, events) && OneBasePerId(events + [ev]) && SeenAgrees(seen, own, BaseHint(ev))
    ensures SeenAgrees(SeenConsume(env, seen, ev), SeenConsume(env, own, ev), BaseHint(ev))
  {
    VerdictIsLocal(env, seen, own, events, ev);
    hide SeenFrom, OneBasePerId, Check, BaseHint;
  }

  lemma ForeignRecordAgrees(env: Env, seen: map<string, Registration>, own: map<string, Registration>, ev: Wire,
                            base: string)
    requires SeenAgrees(seen, own, base) && BaseHint(ev) != base
    ensures SeenAgrees(SeenConsume(env, seen, ev), own, base)
  {
    RegisteredIs(env, seen, ev);
    hide SeenConsume, IdOf, BaseHint;
  }

  // ----- one base's records --------------------------------------------------

  lemma RecordsAtSnoc(events: seq<Wire>, base: string)
    requires events != []
    ensures var before, ev := events[..|events| - 1], events[|events| - 1];
            RecordsAt(events, base) == if BaseHint(ev) == base then RecordsAt(before, base) + [ev]
              else RecordsAt(before, base)
  {
    assert RecordsAt(events[..|events| - 1], base) + [] == RecordsAt(events[..|events| - 1], base);
  }

  ghost predicate Agrees(env: Env, whole: seq<Wire>, own: seq<Wire>, x: Slice, y: Slice, base: string) {
    && SeenFrom(SeenRun(env, map[], whole), whole)
    && SeenAgrees(SeenRun(env, map[], whole), SeenRun(env, map[], own), base)
    && SliceRun(env, map[], x, whole, base) == SliceRun(env, map[], y, own, base)
  }

  lemma OwnStep(env: Env, whole: seq<Wire>, own: seq<Wire>, sl: Slice, ev: Wire, base: string)
    requires OneBasePerId(whole + [ev]) && BaseHint(ev) == base && Agrees(env, whole, own, sl, sl, base)
    ensures Agrees(env, whole + [ev], own + [ev], sl, sl, base)
  {
    hide OneBasePerId, SeenFrom, SeenAgrees, BaseHint, SeenConsume, SliceConsume;
    assert (whole + [ev])[..|whole|] == whole && (own + [ev])[..|own|] == own;
    var seen, mine := SeenRun(env, map[], whole), SeenRun(env, map[], own);
    SeenFromSnoc(env, seen, whole, ev);
    OwnRecordAgrees(env, seen, mine, whole, ev);
    SameVerdictSameStep(env, seen, mine, whole, SliceRun(env, map[], sl, whole, base), ev, base);
  }

  lemma SameVerdictSameStep(env: Env, seen: map<string, Registration>, own: map<string, Registration>,
                            events: seq<Wire>, sl: Slice, ev: Wire, base: string)
    requires SeenFrom(seen, events) && OneBasePerId(events + [ev]) && SeenAgrees(seen, own, BaseHint(ev))
    ensures SliceConsume(env, seen, sl, ev, base) == SliceConsume(env, own, sl, ev, base)
  {
    VerdictIsLocal(env, seen, own, events, ev);
    hide SeenFrom, OneBasePerId, SeenAgrees, Check, BaseHint, CommitSlice, PlanOf;
  }

  lemma ForeignStep(env: Env, whole: seq<Wire>, own: seq<Wire>, sl: Slice, ev: Wire, base: string)
    requires OneBasePerId(whole + [ev]) && BaseHint(ev) != base && Agrees(env, whole, own, sl, sl, base)
    ensures Agrees(env, whole + [ev], own, sl, sl, base)
  {
    hide OneBasePerId, SeenFrom, SeenAgrees, BaseHint, SeenConsume, SliceConsume;
    assert (whole + [ev])[..|whole|] == whole;
    var seen, mine := SeenRun(env, map[], whole), SeenRun(env, map[], own);
    SeenFromSnoc(env, seen, whole, ev);
    ForeignRecordAgrees(env, seen, mine, ev, base);
    ForeignChangesNothing(env, seen, whole, SliceRun(env, map[], sl, whole, base), ev, base);
  }

  lemma ForeignChangesNothing(env: Env, seen: map<string, Registration>, events: seq<Wire>, sl: Slice, ev: Wire,
                              base: string)
    requires SeenFrom(seen, events) && OneBasePerId(events + [ev]) && BaseHint(ev) != base
    ensures SliceConsume(env, seen, sl, ev, base) == sl
  {
    DivergenceStaysHome(env, seen, events, ev);
    hide SeenFrom, OneBasePerId, Check, BaseHint, CommitSlice, PlanOf;
  }

  lemma {:induction false} RunsAgree(env: Env, events: seq<Wire>, sl: Slice, base: string)
    requires OneBasePerId(events)
    ensures Agrees(env, events, RecordsAt(events, base), sl, sl, base)
  {
    if events != [] {
      var before, ev := events[..|events| - 1], events[|events| - 1];
      assert events == before + [ev];
      assert OneBasePerId(before) by {
        hide IdOf, BaseHint;
        assert forall i :: 0 <= i < |before| ==> before[i] == events[i];
      }
      hide OneBasePerId, RecordsAt;
      RunsAgree(env, before, sl, base);
      RecordsAtSnoc(events, base);
      if BaseHint(ev) == base {
        OwnStep(env, before, RecordsAt(before, base), sl, ev, base);
      } else {
        ForeignStep(env, before, RecordsAt(before, base), sl, ev, base);
      }
    }
  }

  // ----- the admission ceiling -----------------------------------------------

  lemma {:induction false} CountIsLocal(events: seq<Wire>, base: string)
    ensures IdsAt(events, base) == IdsAt(RecordsAt(events, base), base)
    ensures BaseCount(events, base) == BaseCount(RecordsAt(events, base), base)
    ensures base in BasesOf(events) <==> base in BasesOf(RecordsAt(events, base))
  {
    if events != [] {
      var before, ev := events[..|events| - 1], events[|events| - 1];
      assert events == before + [ev];
      CountIsLocal(before, base);
      RecordsAtSnoc(events, base);
      IdsAtSnoc(before, ev, base);
      BasesOfSnoc(before, ev, base);
      BaseCountSnoc(before, ev, base);
      hide RecordsAt, IdsAt, BasesOf, BaseCount, Counts, BaseHint;
      if BaseHint(ev) == base {
        var own := RecordsAt(before, base);
        IdsAtSnoc(own, ev, base);
        BasesOfSnoc(own, ev, base);
        BaseCountSnoc(own, ev, base);
        CountsLocal(before, own, ev);
      }
    }
  }

  lemma SeedIsLocal(events: seq<Wire>, base: string)
    ensures SliceAt(Seed(events), base) == SliceAt(Seed(RecordsAt(events, base)), base)
  {
    hide BasesOf, BaseCount, RecordsAt;
    CountIsLocal(events, base);
  }

  // ----- the theorem ---------------------------------------------------------

  /** When no event id occurs under two base keys, everything reported about a base over
      the whole stream equals what its own records alone would report, whatever the other
      bases do or halt on. */
  lemma BasesDoNotInterfere(env: Env, events: seq<Wire>, base: string)
    requires OneBasePerId(events)
    ensures ReportAt(Reduce(env, events), base) == ReportAt(Reduce(env, RecordsAt(events, base)), base)
  {
    hide Run, Finish, SliceRun, SliceAt, ReportAt, SliceReport, OneBasePerId, SeenFrom, SeenAgrees, RecordsAt;
    var own := RecordsAt(events, base);
    SeedIsLocal(events, base);
    RunsAgree(env, events, SliceAt(Seed(events), base), base);
    RunSlice(env, Seed(events), events, base);
    RunSlice(env, Seed(own), own, base);
    ReportOfSlice(env, Run(env, Seed(events), events), base);
    ReportOfSlice(env, Run(env, Seed(own), own), base);
  }
}
