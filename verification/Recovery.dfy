/** Crash recovery is a fixpoint: appending the records a reduce asks for yields the state
    that reduce already reported, however many processes append them. */
module Recovery {
  import opened Wrappers
  import opened Text
  import opened Wire
  import opened Schema
  import opened Events
  import opened SectionA
  import opened Reducer
  import opened Slices
  import opened BaseReports
  import opened NonInterference

  const HELD_A: MachineA := MachineA(Held, None)

  /** What independently stamped copies of one recovery record agree on. */
  function RecoveryCore(hash: Digest, base: string, mid: Id): Wire {
    Restrict(RecoveryRecord(hash, base, mid), RECOVERY_CORE)
  }

  /** How the walk sees a stamped copy of the recovery record of one movement. */
  ghost predicate CopyFor(env: Env, c: Wire, base: string, mid: Id) {
    && BaseHint(c) == base
    && IdOf(c) == Some(DeriveRecoveryEventId(env.hash, base, mid))
    && env.canonical(c) == RecoveryCore(env.hash, base, mid)
    && env.intake(c).Ok? && env.intake(c).value.Effect?
    && var e := env.intake(c).value.effect;
    && e.variant.CrashRecoveryFromPrepared? && e.movementId == mid && e.epochBefore == e.epochAfter
  }

  ghost predicate Requested(sl: Slice, mid: Id) {
    sl.halt.None? && mid in sl.Ms() && sl.Ms()[mid].name.Prepared?
  }

  /** One movement of one base. */
  datatype Target = Target(base: string, mid: Id)

  /** `copies[i]` is a copy of the recovery record of `targets[i]`. */
  ghost predicate CopiesFor(env: Env, copies: seq<Wire>, targets: seq<Target>) {
    && |targets| == |copies|
    && forall i :: 0 <= i < |copies| ==>
         CopyFor(env, copies[i], targets[i].base, targets[i].mid)
         && NewlineFree(targets[i].base) && NewlineFree(targets[i].mid)
  }

  function DoneAt(targets: seq<Target>, base: string): set<Id> {
    set i | 0 <= i < |targets| && targets[i].base == base :: targets[i].mid
  }

  /** The base with the movements in `done` recovered. */
  function Recovered(sl: Slice, done: set<Id>): Slice {
    if sl.movements.None? then sl
    else
      var ms := sl.movements.value;
      sl.(movements := Some(map m | m in ms :: if m in done then HELD_A else ms[m]))
  }

  // ----- the table of ids while copies are appended --------------------------

  function IdFor(env: Env, t: Target): string {
    DeriveRecoveryEventId(env.hash, t.base, t.mid)
  }

  /** Exactly the targets recovered so far are registered on top of what was seen before. */
  ghost predicate SeenCopies(env: Env, before: map<string, Registration>, seen: map<string, Registration>,
                             targets: seq<Target>) {
    && (forall id :: id in seen && id !in before ==> exists i :: 0 <= i < |targets| && id == IdFor(env, targets[i]))
    && (forall i :: 0 <= i < |targets| ==>
          IdFor(env, targets[i]) in seen &&
          seen[IdFor(env, targets[i])].canon == RecoveryCore(env.hash, targets[i].base, targets[i].mid))
  }

  lemma VerdictOnRecovery(env: Env, before: map<string, Registration>, seen: map<string, Registration>,
                          targets: seq<Target>, c: Wire, t: Target)
    requires Injective(env.hash) && SeenCopies(env, before, seen, targets)
    requires CopyFor(env, c, t.base, t.mid) && IdFor(env, t) !in before
    requires NewlineFree(t.base) && NewlineFree(t.mid)
    requires forall i :: 0 <= i < |targets| ==> NewlineFree(targets[i].base) && NewlineFree(targets[i].mid)
    ensures Check(env, seen, c) == if t in targets then Duplicate else New
  {
    hide RecoveryCore, BaseHint, NewlineFree, DeriveRecoveryEventId, Injective;
    var id := IdFor(env, t);
    if id in seen {
      var i :| 0 <= i < |targets| && id == IdFor(env, targets[i]);
      RecoveryIdInjective(env.hash, t.base, t.mid, targets[i].base, targets[i].mid);
      assert targets[i] == t;
    }
  }

  lemma SeenAfterCopy(env: Env, before: map<string, Registration>, seen: map<string, Registration>,
                      targets: seq<Target>, c: Wire, t: Target)
    requires SeenCopies(env, before, seen, targets) && CopyFor(env, c, t.base, t.mid)
    requires Check(env, seen, c) == if t in targets then Duplicate else New
    ensures SeenCopies(env, before, SeenConsume(env, seen, c), targets + [t])
  {
    hide RecoveryCore, BaseHint, DeriveRecoveryEventId, Check;
    var after, all := SeenConsume(env, seen, c), targets + [t];
    var id := IdFor(env, t);
    RecoveryIdIs(env, c, t);
    assert all[|targets|] == t && forall i :: 0 <= i < |targets| ==> all[i] == targets[i];
    if t in targets {
      assert after == seen;
      forall x | x in after && x !in before ensures exists i :: 0 <= i < |all| && x == IdFor(env, all[i]) {
        var i :| 0 <= i < |targets| && x == IdFor(env, targets[i]);
        assert all[i] == targets[i];
      }
    } else {
      CheckNewIsUnseen(env, seen, c);
      assert after == seen[id := Registration(env.canonical(c), BaseHint(c))];
      forall x | x in after && x !in before ensures exists i :: 0 <= i < |all| && x == IdFor(env, all[i]) {
        if x in seen {
          var i :| 0 <= i < |targets| && x == IdFor(env, targets[i]);
          assert all[i] == targets[i];
        } else {
          assert x == IdFor(env, all[|targets|]);
        }
      }
    }
  }

  lemma RecoveryIdIs(env: Env, c: Wire, t: Target)
    requires CopyFor(env, c, t.base, t.mid)
    ensures Get(c, "event_id") == Str(IdFor(env, t)) && env.intake(c).Ok?
    ensures env.canonical(c) == RecoveryCore(env.hash, t.base, t.mid)
  {
  }

  lemma CheckNewIsUnseen(env: Env, seen: map<string, Registration>, c: Wire)
    requires Check(env, seen, c) == New && IdOf(c).Some?
    ensures IdOf(c).value !in seen
  {
  }

  // ----- one copy ------------------------------------------------------------

  lemma RecoveryStep(cur: MachineA, e: EffectEvent)
    requires cur.name.Prepared? && e.variant.CrashRecoveryFromPrepared? && e.epochBefore == e.epochAfter
    ensures StepA(cur, e) == Some(HELD_A)
  {
    hide EffectOk;
  }

  /** A new copy of a requested record holds its movement and does nothing else. */
  lemma FirstCopy(env: Env, sl: Slice, done: set<Id>, c: Wire, base: string, mid: Id)
    requires CopyFor(env, c, base, mid) && Requested(sl, mid) && mid !in done
    ensures CommitSlice(Recovered(sl, done), c,
                        PlanOf(env, Recovered(sl, done).Ms(), Recovered(sl, done).Bk(), base, env.intake(c).value))
            == Recovered(sl, done + {mid})
  {
    hide StepA, RecoveryCore, BaseHint, IdOf, EffectOk, ValidOid;
    var e := env.intake(c).value.effect;
    var r := Recovered(sl, done);
    assert mid in r.Ms() && r.Ms()[mid] == sl.Ms()[mid];
    RecoveryStep(r.Ms()[mid], e);
    assert PlanEffect(r.Ms(), e) == CommitA(mid, HELD_A, None);
    hide PlanEffect;
    assert r.Ms()[mid := HELD_A] == Recovered(sl, done + {mid}).Ms();
  }

  lemma DoneSnoc(targets: seq<Target>, t: Target, base: string)
    ensures DoneAt(targets + [t], base) == DoneAt(targets, base) + if t.base == base then {t.mid} else {}
  {
    var all := targets + [t];
    assert all[|targets|] == t;
    forall x | x in DoneAt(targets, base) ensures x in DoneAt(all, base) {
      var i :| 0 <= i < |targets| && targets[i].base == base && targets[i].mid == x;
      assert all[i] == targets[i];
    }
  }

  lemma CopySlice(env: Env, seen: map<string, Registration>, sl: Slice, targets: seq<Target>, c: Wire, t: Target,
                  base: string)
    requires CopyFor(env, c, t.base, t.mid) && (base == t.base ==> Requested(sl, t.mid))
    requires Check(env, seen, c) == if t in targets then Duplicate else New
    ensures SliceConsume(env, seen, Recovered(sl, DoneAt(targets, base)), c, base)
            == Recovered(sl, DoneAt(targets + [t], base))
  {
    DoneSnoc(targets, t, base);
    var done := DoneAt(targets, base);
    var r := Recovered(sl, done);
    if t in targets {
      assert t.base == base ==> t.mid in done;
      assert DoneAt(targets + [t], base) == done;
    } else if t.base != base {
      assert DoneAt(targets + [t], base) == done;
    } else {
      assert t.mid !in done;
      FirstCopy(env, sl, done, c, base, t.mid);
    }
    hide Check, CommitSlice, PlanOf, RecoveryCore, DoneAt, BaseHint, IdOf;
  }

  // ----- all copies ----------------------------------------------------------

  /** Every copy addresses a movement its base is asked to recover. */
  ghost predicate AllRequested(s: State, targets: seq<Target>) {
    forall i :: 0 <= i < |targets| ==> Requested(SliceAt(s, targets[i].base), targets[i].mid)
  }

  lemma {:induction false} CopiesRecover(env: Env, s: State, copies: seq<Wire>, targets: seq<Target>, base: string)
    requires Injective(env.hash) && CopiesFor(env, copies, targets) && AllRequested(s, targets)
    requires forall i :: 0 <= i < |targets| ==> IdFor(env, targets[i]) !in s.seen
    ensures SeenCopies(env, s.seen, SeenRun(env, s.seen, copies), targets)
    ensures SliceRun(env, s.seen, SliceAt(s, base), copies, base) == Recovered(SliceAt(s, base), DoneAt(targets, base))
  {
    hide CopyFor, IdFor, NewlineFree, Requested, SliceConsume, SeenConsume, SliceAt, Check, CopiesFor, AllRequested;
    CopiesForLength(env, copies, targets);
    var sl := SliceAt(s, base);
    if copies == [] {
      NothingRecovered(sl, targets, base);
    } else {
      var k := |copies| - 1;
      var before, c, front, t := copies[..k], copies[k], targets[..k], targets[k];
      CopiesForAt(env, s, copies, targets, k);
      assert targets == front + [t];
      CopiesRecover(env, s, before, front, base);
      var seen := SeenRun(env, s.seen, before);
      hide SeenCopies;
      forall i | 0 <= i < |front| ensures NewlineFree(front[i].base) && NewlineFree(front[i].mid) {
        CopiesForAt(env, s, copies, targets, i);
      }
      VerdictOnRecovery(env, s.seen, seen, front, c, t);
      SeenAfterCopy(env, s.seen, seen, front, c, t);
      CopySlice(env, seen, sl, front, c, t, base);
    }
  }

  lemma CopiesForLength(env: Env, copies: seq<Wire>, targets: seq<Target>)
    requires CopiesFor(env, copies, targets)
    ensures |copies| == |targets|
  {
  }

  lemma CopiesForAt(env: Env, s: State, copies: seq<Wire>, targets: seq<Target>, i: nat)
    requires CopiesFor(env, copies, targets) && AllRequested(s, targets) && i < |copies|
    ensures i < |targets| && CopyFor(env, copies[i], targets[i].base, targets[i].mid)
    ensures NewlineFree(targets[i].base) && NewlineFree(targets[i].mid)
    ensures Requested(SliceAt(s, targets[i].base), targets[i].mid)
    ensures CopiesFor(env, copies[..i], targets[..i]) && AllRequested(s, targets[..i])
  {
    hide CopyFor, NewlineFree, Requested, SliceAt;
  }

  lemma NothingRecovered(sl: Slice, targets: seq<Target>, base: string)
    requires targets == []
    ensures Recovered(sl, DoneAt(targets, base)) == sl
  {
    assert DoneAt(targets, base) == {};
    if sl.movements.Some? {
      var ms := sl.movements.value;
      assert (map m | m in ms :: if m in DoneAt(targets, base) then HELD_A else ms[m]) == ms;
    }
  }

  // ----- the second report ---------------------------------------------------

  /** Only movements the base is asked to recover are done. */
  ghost predicate Within(sl: Slice, done: set<Id>) {
    forall m :: m in done ==> Requested(sl, m)
  }

  /** What recovery keeps of a base's report: everything but its requests and their flags. */
  ghost predicate Settles(first: BaseReport, second: BaseReport) {
    && second.halt == first.halt && second.holds == first.holds && second.notes == first.notes
       && second.epoch == first.epoch
    && (first.movements.Some? <==> second.movements.Some?)
    && (first.movements.Some? ==>
          && second.movements.value.Keys == first.movements.value.Keys
          && forall m :: m in first.movements.value ==>
               second.movements.value[m].machine == first.movements.value[m].machine)
  }

  /** What is not done is still asked for. */
  lemma RecoveredNeeds(sl: Slice, done: set<Id>, m: Id)
    ensures SliceNeedsRecovery(Recovered(sl, done), m) <==> SliceNeedsRecovery(sl, m) && m !in done
  {
  }

  lemma RecoveredMovements(sl: Slice, done: set<Id>)
    requires Within(sl, done) && sl.movements.Some?
    ensures var x, y := SliceReportMovements(sl).value, SliceReportMovements(Recovered(sl, done)).value;
            y.Keys == x.Keys && forall m :: m in x ==> y[m].machine == x[m].machine
  {
    var x, y := SliceReportMovements(sl).value, SliceReportMovements(Recovered(sl, done)).value;
    forall m | m in x ensures m in y && y[m].machine == x[m].machine {
      assert m in done ==> Requested(sl, m);
    }
  }

  lemma RecoveredReport(env: Env, base: string, sl: Slice, done: set<Id>, r: Wire)
    requires Within(sl, done)
    ensures Settles(SliceReport(env, base, sl), SliceReport(env, base, Recovered(sl, done)))
    ensures r in SliceReport(env, base, Recovered(sl, done)).recovery <==>
            exists m :: m in sl.order && SliceNeedsRecovery(sl, m) && m !in done
              && r == RecoveryRecord(env.hash, base, m)
  {
    var after := Recovered(sl, done);
    assert after == sl.(movements := after.movements);
    assert SliceEpoch(env, base, after) == SliceEpoch(env, base, sl) by {
      hide Recovered;
    }
    if sl.movements.Some? {
      RecoveredMovements(sl, done);
    }
    SliceRecoveryMember(env.hash, base, after, after.order, r);
    forall m ensures SliceNeedsRecovery(after, m) <==> SliceNeedsRecovery(sl, m) && m !in done {
      RecoveredNeeds(sl, done, m);
    }
    hide SliceEpoch, SliceRecovery, ReportBook, Within, SliceNeedsRecovery, RecoveryRecord;
  }

  lemma {:induction false} SliceRecoveryMember(hash: Digest, base: string, sl: Slice, order: seq<Id>, r: Wire)
    ensures r in SliceRecovery(hash, base, sl, order) <==>
            exists m :: m in order && SliceNeedsRecovery(sl, m) && r == RecoveryRecord(hash, base, m)
  {
    hide RecoveryRecord, SliceNeedsRecovery;
    if order != [] {
      var before, last := order[..|order| - 1], order[|order| - 1];
      SliceRecoveryMember(hash, base, sl, before, r);
      assert order == before + [last];
    }
  }

  lemma {:induction false} RecordsAtMember(records: seq<Wire>, base: string, r: Wire)
    ensures r in RecordsAt(records, base) <==> r in records && BaseHint(r) == base
  {
    hide BaseHint;
    if records != [] {
      RecordsAtMember(records[..|records| - 1], base, r);
      assert records == records[..|records| - 1] + [records[|records| - 1]];
    }
  }
}
