/** Redelivered copies are absorbed without a trace; divergent ones halt what they touch. */
module Redelivery {
  import opened Wrappers
  import opened Wire
  import opened Ceilings
  import opened Reducer
  import opened Slices
  import opened NonInterference

  /** `p[i]` is the first valid record of the stream carrying its id. */
  ghost predicate Registers(env: Env, p: seq<Wire>, i: nat) {
    && i < |p| && env.intake(p[i]).Ok? && IdOf(p[i]).Some?
    && forall j :: 0 <= j < i && env.intake(p[j]).Ok? ==> IdOf(p[j]) != IdOf(p[i])
  }

  // ----- the table of ids ----------------------------------------------------

  lemma {:induction false} UnregisteredUntil(env: Env, p: seq<Wire>, id: string)
    requires forall j :: 0 <= j < |p| && env.intake(p[j]).Ok? ==> IdOf(p[j]) != Some(id)
    ensures id !in SeenRun(env, map[], p)
  {
    if p != [] {
      UnregisteredUntil(env, p[..|p| - 1], id);
      RegisteredIs(env, SeenRun(env, map[], p[..|p| - 1]), p[|p| - 1]);
    }
  }

  lemma {:induction false} RegistrationStays(env: Env, seen: map<string, Registration>, q: seq<Wire>, id: string)
    requires id in seen
    ensures id in SeenRun(env, seen, q) && SeenRun(env, seen, q)[id] == seen[id]
  {
    if q != [] {
      RegistrationStays(env, seen, q[..|q| - 1], id);
      RegisteredIs(env, SeenRun(env, seen, q[..|q| - 1]), q[|q| - 1]);
    }
  }

  lemma {:induction false} SeenRunConcat(env: Env, seen: map<string, Registration>, p: seq<Wire>, q: seq<Wire>)
    ensures SeenRun(env, seen, p + q) == SeenRun(env, SeenRun(env, seen, p), q)
  {
    hide SeenConsume;
    if q == [] {
      assert p + q == p;
    } else {
      assert (p + q)[..|p + q| - 1] == p + q[..|q| - 1];
      SeenRunConcat(env, seen, p, q[..|q| - 1]);
    }
  }

  /** After the registering record the table holds that record's form, for good. */
  lemma RegistrationOf(env: Env, p: seq<Wire>, i: nat)
    requires Registers(env, p, i)
    ensures var id := IdOf(p[i]).value; var seen := SeenRun(env, map[], p);
            id in seen && seen[id] == Registration(env.canonical(p[i]), BaseHint(p[i]))
  {
    hide SeenRun, BaseHint;
    var id := IdOf(p[i]).value;
    var before := SeenRun(env, map[], p[..i]);
    UnregisteredUntil(env, p[..i], id);
    var after := SeenRun(env, map[], p[..i + 1]);
    assert after == SeenConsume(env, before, p[i]) by {
      SeenRunSnoc(env, p[..i], p[i]);
      assert p[..i + 1] == p[..i] + [p[i]];
    }
    assert id in after && after[id] == Registration(env.canonical(p[i]), BaseHint(p[i]));
    RegistrationStays(env, after, p[i + 1..], id);
    SeenRunConcat(env, map[], p[..i + 1], p[i + 1..]);
    assert p == p[..i + 1] + p[i + 1..];
  }

  lemma SeenRunSnoc(env: Env, p: seq<Wire>, ev: Wire)
    ensures SeenRun(env, map[], p + [ev]) == SeenConsume(env, SeenRun(env, map[], p), ev)
  {
    hide SeenConsume;
    assert (p + [ev])[..|p|] == p;
  }

  // ----- the ceiling count ---------------------------------------------------

  lemma CopyDoesNotCount(p: seq<Wire>, i: nat, c: Wire)
    requires i < |p| && IdOf(p[i]).Some? && IdOf(c) == IdOf(p[i]) && BaseHint(c) == BaseHint(p[i])
    ensures !Counts(p, c)
    ensures forall b :: IdsAt(p + [c], b) == IdsAt(p, b)
    ensures BasesOf(p + [c]) == BasesOf(p)
  {
    hide BaseHint;
    assert IdOf(c).value in IdsAt(p, BaseHint(c));
    forall b ensures IdsAt(p + [c], b) == IdsAt(p, b) {
      IdsAtSnoc(p, c, b);
      assert BaseHint(c) == b ==> IdOf(c).value in IdsAt(p, b);
    }
    forall b ensures b in BasesOf(p + [c]) <==> b in BasesOf(p) {
      BasesOfSnoc(p, c, b);
    }
  }

  lemma {:induction false} CountIgnoresCopy(p: seq<Wire>, i: nat, c: Wire, q: seq<Wire>, b: string)
    requires i < |p| && IdOf(p[i]).Some? && IdOf(c) == IdOf(p[i]) && BaseHint(c) == BaseHint(p[i])
    ensures forall a :: IdsAt((p + [c]) + q, a) == IdsAt(p + q, a)
    ensures BaseCount((p + [c]) + q, b) == BaseCount(p + q, b)
    ensures b in BasesOf((p + [c]) + q) <==> b in BasesOf(p + q)
  {
    hide BaseHint, IdsAt, BasesOf, BaseCount, Counts, IdOf;
    if q == [] {
      assert (p + [c]) + q == p + [c] && p + q == p;
      CopyDoesNotCount(p, i, c);
      BaseCountSnoc(p, c, b);
    } else {
      var r, ev := q[..|q| - 1], q[|q| - 1];
      CountIgnoresCopy(p, i, c, r, b);
      var x, y := (p + [c]) + r, p + r;
      assert (p + [c]) + q == x + [ev] && p + q == y + [ev];
      forall a ensures IdsAt(x + [ev], a) == IdsAt(y + [ev], a) {
        IdsAtSnoc(x, ev, a);
        IdsAtSnoc(y, ev, a);
      }
      BasesOfSnoc(x, ev, b);
      BasesOfSnoc(y, ev, b);
      BaseCountSnoc(x, ev, b);
      BaseCountSnoc(y, ev, b);
      CountsLocal(x, y, ev);
    }
  }

  lemma SeedIgnoresCopy(p: seq<Wire>, i: nat, c: Wire, q: seq<Wire>)
    requires i < |p| && IdOf(p[i]).Some? && IdOf(c) == IdOf(p[i]) && BaseHint(c) == BaseHint(p[i])
    ensures Seed((p + [c]) + q) == Seed(p + q)
  {
    hide BaseHint, BasesOf, BaseCount, IdOf;
    var x, y := (p + [c]) + q, p + q;
    forall b ensures b in BasesOf(x) <==> b in BasesOf(y)
             ensures BaseCount(x, b) == BaseCount(y, b)
    {
      CountIgnoresCopy(p, i, c, q, b);
    }
    assert BasesOf(x) == BasesOf(y);
    assert CeilingHalts(x) == CeilingHalts(y);
  }

  // ----- the theorems --------------------------------------------------------

  lemma VerdictOnCopy(env: Env, p: seq<Wire>, i: nat, c: Wire)
    requires Registers(env, p, i) && IdOf(c) == IdOf(p[i])
    ensures Check(env, SeenRun(env, map[], p), c) ==
            if env.canonical(c) == env.canonical(p[i]) then Duplicate
            else Divergent(EventPayloadDivergent, {BaseHint(c), BaseHint(p[i])})
  {
    hide Registers, SeenRun, BaseHint;
    RegistrationOf(env, p, i);
    assert IdOf(c).Some? && IdOf(c) == IdOf(p[i]) by { RegistersHasId(env, p, i); }
  }

  lemma RegistersHasId(env: Env, p: seq<Wire>, i: nat)
    requires Registers(env, p, i)
    ensures i < |p| && IdOf(p[i]).Some?
  {
  }

  /** A valid copy with the same canonical form, inserted anywhere after the registering
      record, leaves the whole report unchanged, the ceiling count included. */
  lemma RedeliveryIsTransparent(env: Env, p: seq<Wire>, i: nat, c: Wire, q: seq<Wire>)
    requires Local(env) && Registers(env, p, i)
    requires env.intake(c).Ok? && IdOf(c) == IdOf(p[i]) && env.canonical(c) == env.canonical(p[i])
    ensures Reduce(env, (p + [c]) + q) == Reduce(env, p + q)
  {
    hide Run, SeenRun, Finish, Check, Seed, BaseHint, IdOf, Apply;
    RegistersHasId(env, p, i);
    var seed := Seed(p + q);
    SeedIgnoresCopy(p, i, c, q);
    assert seed.seen == map[] by { SeedUnseen(p + q); }
    RunSlice(env, seed, p, "");
    VerdictOnCopy(env, p, i, c);
    RunSnoc(env, seed, p, c);
    assert Run(env, seed, p + [c]) == Run(env, seed, p);
    RunConcat(env, seed, p + [c], q);
    RunConcat(env, seed, p, q);
  }

  lemma SeedUnseen(events: seq<Wire>)
    ensures Seed(events).seen == map[]
  {
  }

  /** A valid record that reuses a registered id with another canonical form halts its own
      base and the base it was first seen under, for good. */
  lemma DivergentCopyHalts(env: Env, p: seq<Wire>, i: nat, c: Wire, q: seq<Wire>)
    requires Registers(env, p, i)
    requires env.intake(c).Ok? && IdOf(c) == IdOf(p[i]) && env.canonical(c) != env.canonical(p[i])
    ensures var halts := Reduce(env, (p + [c]) + q).halts; BaseHint(c) in halts && BaseHint(p[i]) in halts
  {
    hide Run, SeenRun, Check, Seed, BaseHint, IdOf, Apply, SliceAt;
    RegistersHasId(env, p, i);
    var seed := Seed((p + [c]) + q);
    assert seed.seen == map[] by { SeedUnseen((p + [c]) + q); }
    RunSlice(env, seed, p, "");
    VerdictOnCopy(env, p, i, c);
    RunSnoc(env, seed, p, c);
    HaltStays(env, seed, p + [c], q, BaseHint(c));
    HaltStays(env, seed, p + [c], q, BaseHint(p[i]));
    FinishHalts(env, Run(env, seed, (p + [c]) + q));
  }

  lemma FinishHalts(env: Env, s: State)
    ensures Finish(env, s).halts == s.halts
  {
    hide RecoveryAppends, ReportMovements, ReportEpochs;
  }

  lemma HaltStays(env: Env, s: State, prefix: seq<Wire>, rest: seq<Wire>, base: string)
    requires base in Run(env, s, prefix).halts
    ensures base in Run(env, s, prefix + rest).halts
  {
    hide Run;
    FrozenAfterHalt(env, s, prefix, rest, base);
  }
}
