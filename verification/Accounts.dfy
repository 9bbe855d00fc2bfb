/** The round-robin account scheduler: who is picked, and how long anyone waits. */
module Accounts {
  import opened Wrappers

  // ----- arithmetic of the ring ----------------------------------------------

  lemma MulBounds(n: int, k: int)
    requires n > 0
    ensures k >= 1 ==> n * k >= n
    ensures k <= -1 ==> n * k <= -n
  {
    assert n * k == n * (k - 1) + n && n * k == n * (k + 1) - n;
    assert k >= 1 ==> n * (k - 1) >= 0;
    assert k <= -1 ==> n * (k + 1) <= 0;
  }

  lemma ModUnique(x: int, n: int, q: int, r: int)
    requires n > 0 && x == n * q + r && 0 <= r < n
    ensures x % n == r
  {
    var k := x / n - q;
    assert x == n * (x / n) + x % n;
    assert n * k == n * (x / n) - n * q;
    MulBounds(n, k);
  }

  /** Position `step` places after the cursor, on a ring of `n`. */
  function Place(cursor: int, step: int, n: nat): (k: int)
    requires n > 0
    ensures 0 <= k < n
  {
    (cursor + step) % n
  }

  /** How many places account `k` is after the cursor. */
  function Distance(cursor: int, k: int, n: nat): (d: int)
    requires 0 <= k < n
    ensures 0 <= d < n
  {
    (k - cursor) % n
  }

  lemma PlaceAtDistance(cursor: int, k: int, n: nat)
    requires 0 <= k < n
    ensures Place(cursor, Distance(cursor, k, n), n) == k
  {
    var d, q := Distance(cursor, k, n), (k - cursor) / n;
    assert k - cursor == n * q + d;
    assert cursor + d == n * (-q) + k;
    ModUnique(cursor + d, n, -q, k);
  }

  /** Moving the cursor past a nearer place brings account `k` that much closer. */
  lemma DistanceAfter(cursor: int, step: int, k: int, n: nat)
    requires 0 <= k < n && 0 <= step < Distance(cursor, k, n)
    ensures Distance(Place(cursor, step + 1, n), k, n) == Distance(cursor, k, n) - step - 1
  {
    var d, q := Distance(cursor, k, n), (k - cursor) / n;
    var next, p := Place(cursor, step + 1, n), (cursor + step + 1) / n;
    assert k - cursor == n * q + d;
    assert cursor + (step + 1) == n * p + next;
    assert k - next == n * q + n * p + (d - step - 1);
    assert n * q + n * p == n * (q + p);
    ModUnique(k - next, n, q + p, d - step - 1);
  }

  // ----- one turn ------------------------------------------------------------

  type Account = string

  predicate Eligible(exhausted: set<Account>, cooling: map<Account, int>, now: int, a: Account) {
    a !in exhausted && (if a in cooling then cooling[a] else 0) <= now
  }

  /** The accounts of the ring that may be used now. */
  function Usable(candidates: seq<Account>, exhausted: set<Account>, cooling: map<Account, int>,
                  now: int): set<Account> {
    set i | 0 <= i < |candidates| && Eligible(exhausted, cooling, now, candidates[i]) :: candidates[i]
  }

  /** `step` is the first place after the cursor whose account is usable. */
  predicate FirstUsable(candidates: seq<Account>, cursor: int, usable: set<Account>, step: int) {
    && 0 <= step < |candidates|
    && candidates[Place(cursor, step, |candidates|)] in usable
    && forall s :: 0 <= s < step ==> candidates[Place(cursor, s, |candidates|)] !in usable
  }

  /** The scan for the first usable account, from `step` on. */
  function Scan(candidates: seq<Account>, cursor: int, usable: set<Account>, step: nat): (found: Option<nat>)
    requires step <= |candidates|
    decreases |candidates| - step
    ensures found.Some? ==>
            step <= found.value < |candidates| && candidates[Place(cursor, found.value, |candidates|)] in usable
    ensures found.Some? ==> forall s :: step <= s < found.value ==>
            candidates[Place(cursor, s, |candidates|)] !in usable
    ensures found.None? ==> forall s :: step <= s < |candidates| ==>
            candidates[Place(cursor, s, |candidates|)] !in usable
  {
    if step == |candidates| then None
    else if candidates[Place(cursor, step, |candidates|)] in usable then Some(step)
    else Scan(candidates, cursor, usable, step + 1)
  }

  /** One turn over a ring where `usable` may be picked: the pick and the next cursor. */
  function Turn(candidates: seq<Account>, cursor: int, usable: set<Account>): (Option<Account>, int) {
    var found := Scan(candidates, cursor, usable, 0);
    if found.None? then (None, cursor)
    else (Some(candidates[Place(cursor, found.value, |candidates|)]), Place(cursor, found.value + 1, |candidates|))
  }

  /** Nobody is picked exactly when nobody on the ring is usable. */
  lemma PickExact(candidates: seq<Account>, cursor: int, usable: set<Account>)
    ensures Turn(candidates, cursor, usable).0.None? <==> forall k :: 0 <= k < |candidates| ==> candidates[k] !in usable
    ensures Turn(candidates, cursor, usable).0.Some? ==>
              exists step :: FirstUsable(candidates, cursor, usable, step)
                && Turn(candidates, cursor, usable) ==
                   (Some(candidates[Place(cursor, step, |candidates|)]), Place(cursor, step + 1, |candidates|))
  {
    var found := Scan(candidates, cursor, usable, 0);
    if found.None? {
      forall k | 0 <= k < |candidates| ensures candidates[k] !in usable {
        PlaceAtDistance(cursor, k, |candidates|);
      }
    } else {
      assert FirstUsable(candidates, cursor, usable, found.value);
    }
  }

  // ----- many turns ----------------------------------------------------------

  /** The cursor after the turns with these usable sets. */
  function CursorAfter(candidates: seq<Account>, cursor: int, turns: seq<set<Account>>): int {
    if turns == [] then cursor
    else Turn(candidates, CursorAfter(candidates, cursor, turns[..|turns| - 1]), turns[|turns| - 1]).1
  }

  /** Who the i-th turn picks. */
  function PickAt(candidates: seq<Account>, cursor: int, turns: seq<set<Account>>, i: nat): Option<Account>
    requires i < |turns|
  {
    Turn(candidates, CursorAfter(candidates, cursor, turns[..i]), turns[i]).0
  }

  /** A turn that does not pick account `k`, although it is usable, brings it closer. */
  lemma TurnComesCloser(candidates: seq<Account>, cursor: int, usable: set<Account>, k: int)
    requires 0 <= k < |candidates| && candidates[k] in usable
    ensures Turn(candidates, cursor, usable).0 == Some(candidates[k]) ||
            Distance(Turn(candidates, cursor, usable).1, k, |candidates|) < Distance(cursor, k, |candidates|)
  {
    var n := |candidates|;
    PlaceAtDistance(cursor, k, n);
    var found := Scan(candidates, cursor, usable, 0);
    if found.value < Distance(cursor, k, n) {
      DistanceAfter(cursor, found.value, k, n);
    }
  }

  lemma {:induction false} WaitIsBounded(candidates: seq<Account>, cursor: int, turns: seq<set<Account>>, k: int,
                                         i: nat)
    requires 0 <= k < |candidates| && i <= |turns| && forall j :: 0 <= j < i ==> candidates[k] in turns[j]
    requires forall j :: 0 <= j < i ==> PickAt(candidates, cursor, turns, j) != Some(candidates[k])
    ensures i <= Distance(cursor, k, |candidates|)
            - Distance(CursorAfter(candidates, cursor, turns[..i]), k, |candidates|)
  {
    if i > 0 {
      WaitIsBounded(candidates, cursor, turns, k, i - 1);
      assert turns[..i][..i - 1] == turns[..i - 1];
      assert PickAt(candidates, cursor, turns, i - 1) != Some(candidates[k]);
      TurnComesCloser(candidates, CursorAfter(candidates, cursor, turns[..i - 1]), turns[i - 1], k);
    }
  }

  /** Fairness: an account that stays usable is picked within as many turns as the ring has
      places, whatever happens to the others meanwhile. */
  lemma PickedWithinOneRound(candidates: seq<Account>, cursor: int, turns: seq<set<Account>>, k: int)
    requires 0 <= k < |candidates| && |turns| >= |candidates|
    requires forall j :: 0 <= j < |turns| ==> candidates[k] in turns[j]
    ensures exists i :: 0 <= i < |candidates| && PickAt(candidates, cursor, turns, i) == Some(candidates[k])
  {
    if forall i :: 0 <= i < |candidates| ==> PickAt(candidates, cursor, turns, i) != Some(candidates[k]) {
      WaitIsBounded(candidates, cursor, turns, k, |candidates|);
      assert false;
    }
  }

  /** With nobody excluded, the i-th turn picks the i-th account after the cursor. */
  lemma {:induction false} FullRoundPicks(candidates: seq<Account>, cursor: int, turns: seq<set<Account>>, i: nat)
    requires i < |turns| && forall j, k :: 0 <= j < |turns| && 0 <= k < |candidates| ==> candidates[k] in turns[j]
    requires candidates != []
    ensures PickAt(candidates, cursor, turns, i) == Some(candidates[Place(cursor, i, |candidates|)])
    ensures CursorAfter(candidates, cursor, turns[..i + 1]) == Place(cursor, i + 1, |candidates|)
  {
    var n := |candidates|;
    assert turns[..i + 1][..i] == turns[..i];
    var before := CursorAfter(candidates, cursor, turns[..i]);
    if i > 0 {
      FullRoundPicks(candidates, cursor, turns, i - 1);
    } else {
      assert turns[..0] == [];
    }
    assert candidates[Place(before, 0, n)] in turns[i];
    if i > 0 {
      StepFromPlace(cursor, i, 0, n);
      StepFromPlace(cursor, i, 1, n);
    }
  }

  lemma StepFromPlace(cursor: int, i: int, s: int, n: nat)
    requires n > 0
    ensures Place(Place(cursor, i, n), s, n) == Place(cursor, i + s, n)
  {
    var p := Place(cursor, i, n);
    var q, r, t := (cursor + i) / n, (p + s) % n, (p + s) / n;
    assert cursor + i == n * q + p;
    assert p + s == n * t + r;
    assert cursor + (i + s) == n * q + n * t + r;
    assert n * q + n * t == n * (q + t);
    ModUnique(cursor + (i + s), n, q + t, r);
  }

  /** With nobody excluded, one round of turns picks every place of the ring exactly once. */
  lemma FullRoundIsPermutation(candidates: seq<Account>, cursor: int, turns: seq<set<Account>>, k: int)
    requires |turns| == |candidates| && 0 <= k < |candidates|
    requires forall j, m :: 0 <= j < |turns| && 0 <= m < |candidates| ==> candidates[m] in turns[j]
    requires forall i, j :: 0 <= i < j < |candidates| ==> candidates[i] != candidates[j]
    ensures exists i :: 0 <= i < |turns| && PickAt(candidates, cursor, turns, i) == Some(candidates[k])
                     && forall j :: 0 <= j < |turns| && PickAt(candidates, cursor, turns, j) == Some(candidates[k]) ==>
                        j == i
  {
    var n := |candidates|;
    var i := Distance(cursor, k, n);
    PlaceAtDistance(cursor, k, n);
    FullRoundPicks(candidates, cursor, turns, i);
    forall j | 0 <= j < n && PickAt(candidates, cursor, turns, j) == Some(candidates[k]) ensures j == i {
      FullRoundPicks(candidates, cursor, turns, j);
      assert Place(cursor, j, n) == k;
      DistanceOfPlace(cursor, j, n);
    }
  }

  lemma DistanceOfPlace(cursor: int, j: int, n: nat)
    requires 0 <= j < n
    ensures Distance(cursor, Place(cursor, j, n), n) == j
  {
    var k, q := Place(cursor, j, n), (cursor + j) / n;
    assert cursor + j == n * q + k;
    assert k - cursor == n * (-q) + j;
    ModUnique(k - cursor, n, -q, j);
  }

  // ----- the listing ---------------------------------------------------------

  /** The places of the ring whose account may be used now, in ring order. */
  function Listed(candidates: seq<Account>, exhausted: set<Account>, cooling: map<Account, int>,
                  now: int): seq<Account> {
    if candidates == [] then []
    else
      var last := candidates[|candidates| - 1];
      Listed(candidates[..|candidates| - 1], exhausted, cooling, now)
        + if Eligible(exhausted, cooling, now, last) then [last] else []
  }

  /** The listing of a ring is that of its first part followed by that of the rest: the order
      of the ring is kept. */
  lemma {:induction false} ListedInOrder(xs: seq<Account>, ys: seq<Account>, exhausted: set<Account>,
                                         cooling: map<Account, int>, now: int)
    ensures Listed(xs + ys, exhausted, cooling, now) ==
            Listed(xs, exhausted, cooling, now) + Listed(ys, exhausted, cooling, now)
  {
    if ys == [] {
      assert xs + ys == xs;
    } else {
      assert (xs + ys)[..|xs + ys| - 1] == xs + ys[..|ys| - 1];
      ListedInOrder(xs, ys[..|ys| - 1], exhausted, cooling, now);
    }
  }

  /** Every usable account is listed once per place, and no other is. */
  lemma {:induction false} ListedOften(candidates: seq<Account>, exhausted: set<Account>, cooling: map<Account, int>,
                                       now: int, a: Account)
    ensures multiset(Listed(candidates, exhausted, cooling, now))[a] ==
            if a in Usable(candidates, exhausted, cooling, now) then multiset(candidates)[a] else 0
  {
    if candidates != [] {
      var before, last := candidates[..|candidates| - 1], candidates[|candidates| - 1];
      assert candidates == before + [last];
      ListedOften(before, exhausted, cooling, now, a);
      UsableIsEligible(candidates, exhausted, cooling, now, a);
      UsableIsEligible(before, exhausted, cooling, now, a);
      hide Eligible, Usable;
      assert a !in before ==> multiset(before)[a] == 0;
    }
  }

  lemma UsableIsEligible(candidates: seq<Account>, exhausted: set<Account>, cooling: map<Account, int>, now: int,
                         a: Account)
    ensures a in Usable(candidates, exhausted, cooling, now) <==>
            a in candidates && Eligible(exhausted, cooling, now, a)
  {
  }

  // ----- whole runs ----------------------------------------------------------

  /** The scheduler's state over a fixed ring. */
  datatype Rotation = Rotation(exhausted: set<Account>, active: Option<Account>, cooling: map<Account, int>,
                               cursor: int)

  datatype Op = Exhaust(account: Option<Account>) | Cap(account: Option<Account>, until: int) | Next(now: int) | Skip

  /** The first account of the ring not yet spent. */
  function FirstUnspent(candidates: seq<Account>, exhausted: set<Account>): Option<Account> {
    if candidates == [] then None
    else if candidates[0] !in exhausted then Some(candidates[0])
    else FirstUnspent(candidates[1..], exhausted)
  }

  function Step(candidates: seq<Account>, s: Rotation, op: Op): Rotation {
    match op
    case Exhaust(account) => if account.Some? then s.(exhausted := s.exhausted + {account.value}) else s
    case Cap(account, until) => if account.Some? then s.(cooling := s.cooling[account.value := until]) else s
    case Next(now) =>
      var (pick, cursor) := Turn(candidates, s.cursor, Usable(candidates, s.exhausted, s.cooling, now));
      s.(active := pick, cursor := cursor)
    case Skip => s.(active := FirstUnspent(candidates, s.exhausted))
  }

  function Steps(candidates: seq<Account>, s: Rotation, ops: seq<Op>): Rotation {
    if ops == [] then s else Step(candidates, Steps(candidates, s, ops[..|ops| - 1]), ops[|ops| - 1])
  }

  lemma {:induction false} UnspentExact(candidates: seq<Account>, exhausted: set<Account>)
    ensures FirstUnspent(candidates, exhausted).None? <==>
            forall k :: 0 <= k < |candidates| ==> candidates[k] in exhausted
    ensures var r := FirstUnspent(candidates, exhausted);
            r.Some? ==> exists k :: 0 <= k < |candidates| && candidates[k] == r.value && r.value !in exhausted
                                    && forall j :: 0 <= j < k ==> candidates[j] in exhausted
  {
    if candidates != [] && candidates[0] in exhausted {
      UnspentExact(candidates[1..], exhausted);
      var r := FirstUnspent(candidates, exhausted);
      if r.Some? {
        var k :| 0 <= k < |candidates[1..]| && candidates[1..][k] == r.value && forall j :: 0 <= j < k ==>
          candidates[1..][j] in exhausted;
        assert candidates[k + 1] == r.value;
      }
    }
  }

  /** What one step hands out is not spent. */
  lemma PickIsUnspent(candidates: seq<Account>, s: Rotation, op: Op)
    requires op.Next? || op.Skip?
    ensures Step(candidates, s, op).active.Some? ==> Step(candidates, s, op).active.value !in s.exhausted
  {
    UnspentExact(candidates, s.exhausted);
    if op.Next? {
      PickExact(candidates, s.cursor, Usable(candidates, s.exhausted, s.cooling, op.now));
    }
  }

  /** A spent account stays spent, and no later turn of the run hands it out, whatever the
      operations in between and however late. */
  lemma {:induction false} SpentForTheRun(candidates: seq<Account>, s: Rotation, ops: seq<Op>, a: Account)
    requires a in s.exhausted
    ensures a in Steps(candidates, s, ops).exhausted
    ensures forall i :: 0 <= i < |ops| && (ops[i].Next? || ops[i].Skip?) ==>
            Steps(candidates, s, ops[..i + 1]).active != Some(a)
    ensures forall now :: a !in Usable(candidates, Steps(candidates, s, ops).exhausted,
                                       Steps(candidates, s, ops).cooling, now)
  {
    if ops != [] {
      var before := ops[..|ops| - 1];
      SpentForTheRun(candidates, s, before, a);
      forall i | 0 <= i < |ops| && (ops[i].Next? || ops[i].Skip?)
        ensures Steps(candidates, s, ops[..i + 1]).active != Some(a)
      {
        if i < |before| {
          assert before[..i + 1] == ops[..i + 1];
        } else {
          assert ops[..i + 1] == ops;
          PickIsUnspent(candidates, Steps(candidates, s, before), ops[i]);
        }
      }
    }
  }

  /** How many turns the operations take. */
  function TurnsIn(ops: seq<Op>): nat {
    if ops == [] then 0 else TurnsIn(ops[..|ops| - 1]) + if ops[|ops| - 1].Next? then 1 else 0
  }

  /** The account is usable whenever the operations take a turn. */
  predicate StaysUsable(candidates: seq<Account>, s: Rotation, ops: seq<Op>, a: Account) {
    forall i :: 0 <= i < |ops| && ops[i].Next? ==>
      var t := Steps(candidates, s, ops[..i]); a in Usable(candidates, t.exhausted, t.cooling, ops[i].now)
  }

  /** The i-th operation is a turn and hands the account out. */
  predicate HandsOut(candidates: seq<Account>, s: Rotation, ops: seq<Op>, i: nat, a: Account)
    requires i < |ops|
  {
    ops[i].Next? && Steps(candidates, s, ops[..i + 1]).active == Some(a)
  }

  /** Each turn that passes over a usable account brings it closer; nothing else moves it. */
  lemma {:induction false} PassedOverBounded(candidates: seq<Account>, s: Rotation, ops: seq<Op>, k: int)
    requires 0 <= k < |candidates| && StaysUsable(candidates, s, ops, candidates[k])
    requires forall i :: 0 <= i < |ops| ==> !HandsOut(candidates, s, ops, i, candidates[k])
    ensures TurnsIn(ops) <= Distance(s.cursor, k, |candidates|)
            - Distance(Steps(candidates, s, ops).cursor, k, |candidates|)
  {
    if ops != [] {
      var before, op := ops[..|ops| - 1], ops[|ops| - 1];
      forall i | 0 <= i < |before| ensures !HandsOut(candidates, s, before, i, candidates[k]) {
        assert before[..i + 1] == ops[..i + 1];
        assert !HandsOut(candidates, s, ops, i, candidates[k]);
      }
      assert StaysUsable(candidates, s, before, candidates[k]) by {
        assert forall i :: 0 <= i < |before| ==> before[..i] == ops[..i];
      }
      PassedOverBounded(candidates, s, before, k);
      if op.Next? {
        assert ops[..|before| + 1] == ops && !HandsOut(candidates, s, ops, |before|, candidates[k]);
        var t := Steps(candidates, s, before);
        TurnComesCloser(candidates, t.cursor, Usable(candidates, t.exhausted, t.cooling, op.now), k);
      }
    }
  }

  /** Fairness of whole runs: while an account stays usable, as many turns as the ring has
      places include one that hands it out, whatever is spent, capped or skipped in between. */
  lemma ServedWithinOneRound(candidates: seq<Account>, s: Rotation, ops: seq<Op>, k: int)
    requires 0 <= k < |candidates| && StaysUsable(candidates, s, ops, candidates[k])
    requires TurnsIn(ops) >= |candidates|
    ensures exists i :: 0 <= i < |ops| && HandsOut(candidates, s, ops, i, candidates[k])
  {
    if forall i :: 0 <= i < |ops| ==> !HandsOut(candidates, s, ops, i, candidates[k]) {
      PassedOverBounded(candidates, s, ops, k);
      assert false;
    }
  }

  // ----- the scheduler -------------------------------------------------------

  /** The accounts a run may use, and which are spent. */
  class AccountRotation {
    var candidates: seq<Account>
    var exhausted: set<Account>
    var active: Option<Account>
    var cooling: map<Account, int>
    var cursor: int

    constructor (candidates: seq<Account>)
      ensures this.candidates == candidates && exhausted == {} && active == None && cooling == map[] && cursor == 0
      ensures forall now, a :: now >= 0 ==> (a in Usable(candidates, exhausted, cooling, now) <==> a in candidates)
    {
      this.candidates, exhausted, active, cooling, cursor := candidates, {}, None, map[], 0;
    }

    /** The state as a value. */
    function View(): Rotation
      reads this
    {
      Rotation(exhausted, active, cooling, cursor)
    }

    /** Candidates not capped now, in list order. */
    method Available(now: int) returns (r: seq<Account>)
      ensures r == Listed(candidates, exhausted, cooling, now)
      ensures forall a :: a in r <==> a in Usable(candidates, exhausted, cooling, now)
    {
      r := [];
      for i := 0 to |candidates|
        invariant r == Listed(candidates[..i], exhausted, cooling, now)
        invariant forall a :: a in r <==> a in candidates[..i] && Eligible(exhausted, cooling, now, a)
      {
        assert candidates[..i + 1][..i] == candidates[..i] && candidates[..i + 1] == candidates[..i] + [candidates[i]];
        if Eligible(exhausted, cooling, now, candidates[i]) {
          r := r + [candidates[i]];
        }
      }
      assert candidates[..|candidates|] == candidates;
    }

    /** Record an account as spent: at no time is it usable again, and `SpentForTheRun` says
        that no later turn hands it out. Nobody else is affected. */
    method MarkExhausted(account: Option<Account>)
      modifies `exhausted
      ensures View() == Step(candidates, old(View()), Exhaust(account))
      ensures forall now, a :: a in Usable(candidates, exhausted, cooling, now) <==>
                               a in Usable(candidates, old(exhausted), cooling, now) && account != Some(a)
    {
      if account.Some? {
        exhausted := exhausted + {account.value};
      }
    }

    /** Pull an account out until its cooldown expires, which is some time after now. */
    method MarkCapped(account: Option<Account>, now: int, until: int)
      requires until > now
      modifies `cooling
      ensures View() == Step(candidates, old(View()), Cap(account, until))
      ensures account.None? ==> cooling == old(cooling)
      ensures account.Some? ==>
                && cooling == old(cooling)[account.value := until]
                && (forall t :: t < until ==> !Eligible(exhausted, cooling, t, account.value))
                && (forall t :: t >= until && account.value !in exhausted ==>
                    Eligible(exhausted, cooling, t, account.value))
    {
      if account.Some? {
        cooling := cooling[account.value := until];
      }
    }

    /** The next account not yet spent, in list order. */
    method Advance() returns (r: Option<Account>)
      modifies `active
      ensures View() == Step(candidates, old(View()), Skip)
      ensures active == r
      ensures r.None? <==> forall k :: 0 <= k < |candidates| ==> candidates[k] in exhausted
      ensures r.Some? ==> exists k :: 0 <= k < |candidates| && candidates[k] == r.value && r.value !in exhausted
                                   && forall j :: 0 <= j < k ==> candidates[j] in exhausted
    {
      for i := 0 to |candidates|
        invariant forall j :: 0 <= j < i ==> candidates[j] in exhausted
        invariant FirstUnspent(candidates[i..], exhausted) == FirstUnspent(candidates, exhausted)
      {
        assert candidates[i..][1..] == candidates[i + 1..];
        if candidates[i] !in exhausted {
          r := Some(candidates[i]);
          active := r;
          assert candidates[i] == r.value && candidates[i] !in exhausted;
          return;
        }
      }
      active := None;
      return None;
    }

    /** The next uncapped account in turn. */
    method NextAccount(now: int) returns (r: Option<Account>)
      modifies `active, `cursor
      ensures View() == Step(candidates, old(View()), Next(now))
      ensures (r, cursor) == Turn(candidates, old(cursor), Usable(candidates, exhausted, cooling, now))
      ensures active == r
    {
      var n := |candidates|;
      ghost var usable := Usable(candidates, exhausted, cooling, now);
      for step := 0 to n
        invariant active == old(active) && cursor == old(cursor)
        invariant Scan(candidates, cursor, usable, step) == Scan(candidates, cursor, usable, 0)
      {
        var k := Place(cursor, step, n);
        var candidate := candidates[k];
        assert candidate in usable <==> Eligible(exhausted, cooling, now, candidate);
        if Eligible(exhausted, cooling, now, candidate) {
          cursor := Place(cursor, step + 1, n);
          active := Some(candidate);
          return active;
        }
      }
      assert Scan(candidates, cursor, usable, n) == None;
      active := None;
      return None;
    }
  }
}
