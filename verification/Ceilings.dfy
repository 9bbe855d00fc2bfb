/** The recovery admission ceiling: one base's records, copies counted once. */
module Ceilings {
  import opened Wrappers
  import opened Wire
  import opened Reducer

  lemma IdsAtSnoc(events: seq<Wire>, ev: Wire, base: string)
    ensures IdsAt(events + [ev], base) ==
            IdsAt(events, base) + if BaseHint(ev) == base && Get(ev, "event_id").Str? then {Get(ev, "event_id").s}
              else {}
  {
    var all := events + [ev];
    assert all[|events|] == ev && forall i :: 0 <= i < |events| ==> all[i] == events[i];
    forall x | x in IdsAt(events, base) ensures x in IdsAt(all, base) {
      var i :| 0 <= i < |events| && BaseHint(events[i]) == base && Get(events[i], "event_id").Str?
        && Get(events[i], "event_id").s == x;
      assert all[i] == events[i];
    }
  }

  lemma BasesOfSnoc(events: seq<Wire>, ev: Wire, base: string)
    ensures base in BasesOf(events + [ev]) <==> base in BasesOf(events) || BaseHint(ev) == base
  {
    hide BaseHint;
    var all := events + [ev];
    assert all[|events|] == ev;
    if base in BasesOf(events) {
      var i :| 0 <= i < |events| && BaseHint(events[i]) == base;
      assert all[i] == events[i];
    }
  }

  lemma BaseCountSnoc(events: seq<Wire>, ev: Wire, base: string)
    ensures BaseCount(events + [ev], base) == BaseCount(events, base)
            + if BaseHint(ev) == base && Counts(events, ev) then 1 else 0
  {
    hide Counts, BaseHint;
    assert (events + [ev])[..|events|] == events;
  }

  lemma CountsLocal(x: seq<Wire>, y: seq<Wire>, ev: Wire)
    requires IdsAt(x, BaseHint(ev)) == IdsAt(y, BaseHint(ev))
    ensures Counts(x, ev) == Counts(y, ev)
  {
    hide IdsAt, BaseHint;
  }

  /** The ids a bucket remembers: all but the empty one. */
  function Remembered(events: seq<Wire>, base: string): set<string> {
    IdsAt(events, base) - {""}
  }

  function BucketOf(seen: map<string, set<string>>, base: string): set<string> {
    if base in seen then seen[base] else {}
  }

  function CountIn(counts: map<string, nat>, base: string): nat {
    if base in counts then counts[base] else 0
  }

  /** Counting the next record needs only the bucket of its base. */
  lemma NextCount(before: seq<Wire>, ev: Wire)
    ensures var id := Get(ev, "event_id");
            Counts(before, ev) <==> !(id.Str? && id.s != "" && id.s in Remembered(before, BaseHint(ev)))
  {
    hide IdsAt, BaseHint;
  }

  lemma RememberedSnoc(before: seq<Wire>, ev: Wire, b: string)
    ensures var id := Get(ev, "event_id");
            Remembered(before + [ev], b) == Remembered(before, b)
              + if BaseHint(ev) == b && id.Str? && id.s != "" then {id.s} else {}
  {
    hide IdsAt, BaseHint;
    IdsAtSnoc(before, ev, b);
  }

  lemma OccupiedBase(before: seq<Wire>, base: string)
    requires IdsAt(before, base) != {}
    ensures base in BasesOf(before)
  {
    hide BaseHint;
    var id :| id in IdsAt(before, base);
  }

  /** Per-base deduplicated counts, in one pass over the stream. */
  method PerBaseCounts(events: seq<Wire>) returns (counts: map<string, nat>)
    ensures counts.Keys == BasesOf(events)
    ensures forall b :: b in counts ==> counts[b] == BaseCount(events, b)
  {
    hide IdsAt, BaseHint, BasesOf, BaseCount, Counts;
    counts := map[];
    var seen: map<string, set<string>> := map[];
    NothingCounted();
    for i := 0 to |events|
      invariant forall b :: b in counts <==> b in BasesOf(events[..i])
      invariant forall b :: BucketOf(seen, b) == Remembered(events[..i], b)
      invariant forall b :: CountIn(counts, b) == BaseCount(events[..i], b)
    {
      var ev := events[i];
      var base := BaseHint(ev);
      var id := Get(ev, "event_id");
      ghost var before := events[..i];
      assert events[..i + 1] == before + [ev];
      NextCount(before, ev);
      forall b ensures b in BasesOf(before + [ev]) <==> b in BasesOf(before) || BaseHint(ev) == b {
        BasesOfSnoc(before, ev, b);
      }
      forall b
        ensures Remembered(before + [ev], b) ==
                Remembered(before, b) + if BaseHint(ev) == b && id.Str? && id.s != "" then {id.s} else {}
      {
        RememberedSnoc(before, ev, b);
      }
      forall b ensures BaseCount(before + [ev], b) == BaseCount(before, b)
        + if BaseHint(ev) == b && Counts(before, ev) then 1 else 0
      {
        BaseCountSnoc(before, ev, b);
      }
      if id.Str? && id.s != "" && id.s in BucketOf(seen, base) {
        OccupiedBase(before, base);
      } else {
        if id.Str? && id.s != "" {
          seen := seen[base := BucketOf(seen, base) + {id.s}];
        }
        counts := counts[base := CountIn(counts, base) + 1];
      }
    }
    assert events[..|events|] == events;
  }

  lemma NothingCounted()
    ensures forall b :: b !in BasesOf([]) && BaseCount([], b) == 0 && Remembered([], b) == {}
  {
  }

  // ----- what is counted -----------------------------------------------------

  predicate NamesItself(ev: Wire) {
    Get(ev, "event_id").Str? && Get(ev, "event_id").s != ""
  }

  /** The base's records without an id. */
  function Nameless(events: seq<Wire>, base: string): set<int> {
    set i | 0 <= i < |events| && BaseHint(events[i]) == base && !NamesItself(events[i])
  }

  /** A base counts each id of its records once, and every record without one. */
  lemma {:induction false} CountExact(events: seq<Wire>, base: string)
    ensures BaseCount(events, base) == |Remembered(events, base)| + |Nameless(events, base)|
  {
    if events == [] {
      NothingCounted();
      assert Nameless(events, base) == {};
    } else {
      var before, ev := events[..|events| - 1], events[|events| - 1];
      assert events == before + [ev];
      CountExact(before, base);
      OneMoreCounted(before, ev, base);
    }
  }

  lemma OneMoreCounted(before: seq<Wire>, ev: Wire, base: string)
    requires BaseCount(before, base) == |Remembered(before, base)| + |Nameless(before, base)|
    ensures BaseCount(before + [ev], base) == |Remembered(before + [ev], base)| + |Nameless(before + [ev], base)|
  {
    BaseCountSnoc(before, ev, base);
    RememberedSnoc(before, ev, base);
    NextCount(before, ev);
    NamelessSnoc(before, ev, base);
    hide BaseHint, IdsAt, BaseCount, Counts, Nameless, Remembered;
    if NamesItself(ev) && BaseHint(ev) == base {
      var ids, id := Remembered(before, base), Get(ev, "event_id").s;
      if id in ids {
        assert ids + {id} == ids;
      }
    }
  }

  lemma NamelessSnoc(before: seq<Wire>, ev: Wire, base: string)
    ensures Nameless(before + [ev], base) ==
            Nameless(before, base) + if BaseHint(ev) == base && !NamesItself(ev) then {|before|} else {}
    ensures |before| !in Nameless(before, base)
  {
    hide BaseHint;
    var all := before + [ev];
    assert all[|before|] == ev && forall i :: 0 <= i < |before| ==> all[i] == before[i];
  }

  /** A base is halted before the walk exactly when it counts more than ten thousand. */
  lemma CeilingExact(events: seq<Wire>, base: string)
    ensures base in Seed(events).halts <==> |Remembered(events, base)| + |Nameless(events, base)| > 10000
    ensures base in Seed(events).halts ==> Seed(events).halts[base] == Halt(RecoveryCeiling, None)
  {
    CountExact(events, base);
    hide BaseHint, IdsAt, BaseCount;
    if Remembered(events, base) != {} {
      OccupiedBase(events, base);
    }
    if Nameless(events, base) != {} {
      var i :| i in Nameless(events, base);
      assert base in BasesOf(events);
    }
  }
}
