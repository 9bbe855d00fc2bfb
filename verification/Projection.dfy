/** Deriving the projection machine: composing a row table through its memory-only states. */
module Projection {

  /** One transition row. `Default` stands for the rows the derivation skips: an
      any-other source, or a target that is no state (illegal, unchanged, terminal). */
  datatype Row<S> = Row(from: seq<S>, to: S) | Default

  // ----- reference definition ------------------------------------------------

  ghost predicate Step<S>(rows: seq<Row<S>>, a: S, b: S) {
    exists i :: 0 <= i < |rows| && rows[i].Row? && a in rows[i].from && rows[i].to == b
  }

  /** A path of live steps whose states after the first are all memory-only. */
  ghost predicate MemoryPath<S>(rows: seq<Row<S>>, memory: set<S>, path: seq<S>) {
    && path != []
    && (forall i :: 1 <= i < |path| ==> path[i] in memory)
    && (forall i :: 1 <= i < |path| ==> Step(rows, path[i - 1], path[i]))
  }

  /** The live states reachable from `d` through memory-only intermediates, `d` included. */
  ghost predicate InFrontier<S(!new)>(rows: seq<Row<S>>, memory: set<S>, d: S, x: S) {
    exists path :: MemoryPath(rows, memory, path) && path[0] == d && path[|path| - 1] == x
  }

  /** `n` is a non-memory state one live step beyond the frontier of `d`. */
  ghost predicate IsEdge<S(!new)>(rows: seq<Row<S>>, memory: set<S>, d: S, n: S) {
    n !in memory && exists x :: InFrontier(rows, memory, d, x) && Step(rows, x, n)
  }

  lemma FrontierStart<S(!new)>(rows: seq<Row<S>>, memory: set<S>, d: S)
    ensures InFrontier(rows, memory, d, d)
  {
    assert MemoryPath(rows, memory, [d]);
  }

  lemma FrontierStep<S(!new)>(rows: seq<Row<S>>, memory: set<S>, d: S, x: S, y: S)
    requires InFrontier(rows, memory, d, x) && Step(rows, x, y) && y in memory
    ensures InFrontier(rows, memory, d, y)
  {
    var path :| MemoryPath(rows, memory, path) && path[0] == d && path[|path| - 1] == x;
    assert MemoryPath(rows, memory, path + [y]);
  }

  /** A set closed under memory steps contains the whole frontier of its members. */
  lemma {:induction false} ClosedContainsPath<S(!new)>(rows: seq<Row<S>>, memory: set<S>, closed: set<S>, path: seq<S>)
    requires MemoryPath(rows, memory, path) && path[0] in closed
    requires forall a, b :: a in closed && b in memory && Step(rows, a, b) ==> b in closed
    ensures path[|path| - 1] in closed
  {
    if |path| > 1 {
      var shorter := path[..|path| - 1];
      assert MemoryPath(rows, memory, shorter) by {
        forall i | 1 <= i < |shorter| ensures Step(rows, shorter[i - 1], shorter[i]) {
          assert Step(rows, path[i - 1], path[i]);
        }
      }
      ClosedContainsPath(rows, memory, closed, shorter);
      assert Step(rows, path[|path| - 2], path[|path| - 1]);
    }
  }

  lemma ClosedContainsFrontier<S(!new)>(rows: seq<Row<S>>, memory: set<S>, closed: set<S>, d: S, x: S)
    requires d in closed && InFrontier(rows, memory, d, x)
    requires forall a, b :: a in closed && b in memory && Step(rows, a, b) ==> b in closed
    ensures x in closed
  {
    var path :| MemoryPath(rows, memory, path) && path[0] == d && path[|path| - 1] == x;
    ClosedContainsPath(rows, memory, closed, path);
  }

  lemma EdgeFrom<S(!new)>(rows: seq<Row<S>>, memory: set<S>, d: S, x: S, n: S)
    requires InFrontier(rows, memory, d, x) && Step(rows, x, n) && n !in memory
    ensures IsEdge(rows, memory, d, n)
  {
  }

  lemma EdgeSource<S(!new)>(rows: seq<Row<S>>, memory: set<S>, d: S, n: S) returns (x: S)
    requires IsEdge(rows, memory, d, n)
    ensures InFrontier(rows, memory, d, x) && Step(rows, x, n) && n !in memory
  {
    x :| InFrontier(rows, memory, d, x) && Step(rows, x, n);
  }

  // ----- why the projection is the right machine, for any table --------------

  /** A live run: every state is one step from the one before. */
  ghost predicate LivePath<S>(rows: seq<Row<S>>, path: seq<S>) {
    path != [] && forall i :: 1 <= i < |path| ==> Step(rows, path[i - 1], path[i])
  }

  /** What a run leaves in the durable log. */
  function DurablesOf<S(==)>(path: seq<S>, memory: set<S>): seq<S> {
    if path == [] then []
    else
      DurablesOf(path[..|path| - 1], memory) + if path[|path| - 1] in memory then [] else [path[|path| - 1]]
  }

  ghost predicate Linked<S(!new)>(rows: seq<Row<S>>, memory: set<S>, states: seq<S>) {
    forall i :: 1 <= i < |states| ==> IsEdge(rows, memory, states[i - 1], states[i])
  }

  /** The durable states of any live run are linked by projection edges. */
  lemma {:induction false} RunProjects<S(!new)>(rows: seq<Row<S>>, memory: set<S>, path: seq<S>)
    requires LivePath(rows, path) && path[0] !in memory
    ensures var log := DurablesOf(path, memory);
            log != [] && Linked(rows, memory, log) && InFrontier(rows, memory, log[|log| - 1], path[|path| - 1])
  {
    hide Step, InFrontier, IsEdge;
    if |path| == 1 {
      assert path[..0] == [];
      FrontierStart(rows, memory, path[0]);
    } else {
      var before, last := path[..|path| - 1], path[|path| - 1];
      assert forall i :: 0 <= i < |before| ==> before[i] == path[i];
      RunProjects(rows, memory, before);
      var log := DurablesOf(before, memory);
      assert Step(rows, path[|path| - 2], last);
      if last in memory {
        FrontierStep(rows, memory, log[|log| - 1], path[|path| - 2], last);
      } else {
        EdgeFrom(rows, memory, log[|log| - 1], path[|path| - 2], last);
        FrontierStart(rows, memory, last);
      }
    }
  }

  lemma {:induction false} DurablesConcat<S>(x: seq<S>, y: seq<S>, memory: set<S>)
    ensures DurablesOf(x + y, memory) == DurablesOf(x, memory) + DurablesOf(y, memory)
  {
    if y == [] {
      assert x + y == x;
    } else {
      assert (x + y)[..|x + y| - 1] == x + y[..|y| - 1];
      DurablesConcat(x, y[..|y| - 1], memory);
    }
  }

  lemma {:induction false} MemoryLeavesNothing<S>(path: seq<S>, memory: set<S>)
    requires forall i :: 0 <= i < |path| ==> path[i] in memory
    ensures DurablesOf(path, memory) == []
  {
    if path != [] {
      MemoryLeavesNothing(path[..|path| - 1], memory);
    }
  }

  lemma JoinLive<S>(rows: seq<Row<S>>, init: seq<S>, detour: seq<S>, last: S)
    requires LivePath(rows, init) && LivePath(rows, detour) && detour[0] == init[|init| - 1]
             && Step(rows, detour[|detour| - 1], last)
    ensures LivePath(rows, init + (detour[1..] + [last]))
  {
    hide Step;
    var path := init + (detour[1..] + [last]);
    forall i | 1 <= i < |path| ensures Step(rows, path[i - 1], path[i]) {
      if i < |init| {
        assert path[i - 1] == init[i - 1] && path[i] == init[i];
      } else {
        var k := i - |init| + 1;
        assert path[i - 1] == detour[k - 1];
        assert path[i] == if k < |detour| then detour[k] else last;
      }
    }
  }

  /** Conversely, every linked log is what some live run leaves behind. */
  lemma {:induction false} ProjectionLifts<S(!new)>(rows: seq<Row<S>>, memory: set<S>, log: seq<S>)
    returns (path: seq<S>)
    requires log != [] && Linked(rows, memory, log) && forall i :: 0 <= i < |log| ==> log[i] !in memory
    ensures LivePath(rows, path) && path[0] == log[0] && path[|path| - 1] == log[|log| - 1]
    ensures DurablesOf(path, memory) == log
  {
    hide Step, IsEdge;
    if |log| == 1 {
      path := log;
      assert log[..0] == [];
    } else {
      var n := |log| - 1;
      var front := log[..n];
      assert forall i :: 0 <= i < n ==> front[i] == log[i];
      var init := ProjectionLifts(rows, memory, front);
      var x := EdgeSource(rows, memory, log[n - 1], log[n]);
      var detour :| MemoryPath(rows, memory, detour) && detour[0] == log[n - 1] && detour[|detour| - 1] == x;
      var rest := detour[1..] + [log[n]];
      path := init + rest;
      assert LivePath(rows, detour);
      hide MemoryPath, InFrontier;
      JoinLive(rows, init, detour, log[n]);
      DurablesConcat(init, rest, memory);
      DurablesConcat(detour[1..], [log[n]], memory);
      MemoryLeavesNothing(detour[1..], memory);
      assert [log[n]][..0] == [];
      assert log == front + [log[n]];
    }
  }

  // ----- the algorithm -------------------------------------------------------

  /** `adj` is the adjacency relation of the rows. */
  ghost predicate IsAdjacency<S>(rows: seq<Row<S>>, adj: map<S, set<S>>) {
    && (forall a, b :: a in adj && b in adj[a] ==> Step(rows, a, b))
    && (forall i, a :: 0 <= i < |rows| && rows[i].Row? && a in rows[i].from ==> a in adj && rows[i].to in adj[a])
  }

  lemma AdjacencyComplete<S>(rows: seq<Row<S>>, adj: map<S, set<S>>, a: S, b: S)
    requires IsAdjacency(rows, adj) && Step(rows, a, b)
    ensures a in adj && b in adj[a]
  {
  }

  method BuildAdjacency<S(==)>(rows: seq<Row<S>>) returns (adj: map<S, set<S>>)
    ensures IsAdjacency(rows, adj)
  {
    adj := map[];
    for n := 0 to |rows|
      invariant forall a, b :: a in adj && b in adj[a] ==> Step(rows, a, b)
      invariant forall i, a :: 0 <= i < n && rows[i].Row? && a in rows[i].from ==> a in adj && rows[i].to in adj[a]
    {
      if rows[n].Row? {
        var from, to := rows[n].from, rows[n].to;
        for k := 0 to |from|
          invariant forall a, b :: a in adj && b in adj[a] ==> Step(rows, a, b)
          invariant forall i, a :: 0 <= i < n && rows[i].Row? && a in rows[i].from ==> a in adj && rows[i].to in adj[a]
          invariant forall j :: 0 <= j < k ==> from[j] in adj && to in adj[from[j]]
        {
          var f := from[k];
          assert Step(rows, f, to);
          adj := adj[f := (if f in adj then adj[f] else {}) + {to}];
        }
      }
    }
  }

  function AllTargets<S>(adj: map<S, set<S>>): set<S> {
    set a, b | a in adj && b in adj[a] :: b
  }

  /** The stack search from one durable state. */
  method Explore<S(==,!new)>(rows: seq<Row<S>>, adj: map<S, set<S>>, memory: set<S>, d: S)
    returns (frontier: set<S>, successors: set<S>)
    requires IsAdjacency(rows, adj)
    ensures forall x :: x in frontier <==> InFrontier(rows, memory, d, x)
    ensures forall n :: n in successors <==> IsEdge(rows, memory, d, n)
  {
    hide InFrontier, IsEdge, Step;
    var seen, stack := {d}, [d];
    successors := {};
    FrontierStart(rows, memory, d);
    // expanded states: in the frontier and no longer on the stack
    ghost var expanded: set<S> := {};
    ghost var universe := AllTargets(adj) + {d};
    while stack != []
      invariant d in seen && seen <= universe
      invariant forall x :: x in stack ==> x in seen && (x in memory || x == d)
      invariant forall x :: x in seen && (x in memory || x == d) <==> x in expanded || x in stack
      invariant forall x :: x in seen && (x in memory || x == d) ==> InFrontier(rows, memory, d, x)
      invariant forall x, y :: x in expanded && Step(rows, x, y) ==> if y in memory then y in seen else y in successors
      invariant forall n :: n in successors ==> IsEdge(rows, memory, d, n)
      decreases universe - seen, |stack|
    {
      var cur := stack[|stack| - 1];
      stack := stack[..|stack| - 1];
      ghost var stack0, seen0 := stack, seen;
      var todo := if cur in adj then adj[cur] else {};
      ghost var done: set<S> := {};
      assert forall x :: x in seen && (x in memory || x == d) <==> x in expanded || x == cur || x in stack;
      while todo != {}
        invariant todo !! done && todo + done == (if cur in adj then adj[cur] else {})
        invariant seen0 <= seen <= universe
        invariant seen == seen0 ==> stack == stack0
        invariant forall x :: x in stack ==> x in seen && (x in memory || x == d)
        invariant forall x :: x in seen && (x in memory || x == d) <==> x in expanded || x == cur || x in stack
        invariant forall x :: x in seen && (x in memory || x == d) ==> InFrontier(rows, memory, d, x)
        invariant forall x, y :: x in expanded && Step(rows, x, y) ==>
                  if y in memory then y in seen else y in successors
        invariant forall y :: y in done ==> if y in memory then y in seen else y in successors
        invariant forall n :: n in successors ==> IsEdge(rows, memory, d, n)
        decreases todo
      {
        var next :| next in todo;
        todo, done := todo - {next}, done + {next};
        assert Step(rows, cur, next) && next in AllTargets(adj);
        if next in memory {
          if next !in seen {
            FrontierStep(rows, memory, d, cur, next);
            seen, stack := seen + {next}, stack + [next];
          }
        } else {
          EdgeFrom(rows, memory, d, cur, next);
          successors, seen := successors + {next}, seen + {next};
        }
      }
      forall y | Step(rows, cur, y) ensures y in done {
        AdjacencyComplete(rows, adj, cur, y);
      }
      expanded := expanded + {cur};
    }
    frontier := set x | x in seen && (x in memory || x == d);
    forall x | InFrontier(rows, memory, d, x) ensures x in frontier {
      ClosedContainsFrontier(rows, memory, frontier, d, x);
    }
    forall n | IsEdge(rows, memory, d, n) ensures n in successors {
      var x := EdgeSource(rows, memory, d, n);
      assert x in frontier && x in expanded;
    }
  }

  /** Frontier and durable edges of every durable state. */
  method ComposeProjection<S(==,!new)>(rows: seq<Row<S>>, memory: set<S>, durable: set<S>)
    returns (reachable: map<S, set<S>>, edges: set<(S, S)>)
    ensures reachable.Keys == durable
    ensures forall d, x :: d in durable ==> (x in reachable[d] <==> InFrontier(rows, memory, d, x))
    ensures forall d, n :: (d, n) in edges <==> d in durable && IsEdge(rows, memory, d, n)
  {
    var adj := BuildAdjacency(rows);
    reachable, edges := map[], {};
    var todo := durable;
    while todo != {}
      invariant todo <= durable && reachable.Keys == durable - todo
      invariant forall d, x :: d in reachable ==> (x in reachable[d] <==> InFrontier(rows, memory, d, x))
      invariant forall d, n :: (d, n) in edges <==> d in reachable && IsEdge(rows, memory, d, n)
      decreases todo
    {
      var d :| d in todo;
      todo := todo - {d};
      var frontier, successors := Explore(rows, adj, memory, d);
      reachable := reachable[d := frontier];
      edges := edges + set n | n in successors :: (d, n);
    }
  }
}
