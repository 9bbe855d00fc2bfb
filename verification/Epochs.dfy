/** The epoch fold: consuming one base's fence edges from its anchor. */
module Epochs {
  import opened Wrappers
  import opened Wire

  /** An accepted event that moved the fence from `before` to `after`. */
  datatype Edge = Edge(source: Wire, before: string, after: string)

  /** Where the walk stopped, and the halt it stopped with, if any. */
  datatype Fence = Fence(epoch: string, halt: Option<Code>)

  function LeavingFrom(edges: seq<Edge>, epoch: string): seq<Edge> {
    if edges == [] then []
    else
      var rest := LeavingFrom(edges[..|edges| - 1], epoch);
      if edges[|edges| - 1].before == epoch then rest + [edges[|edges| - 1]] else rest
  }

  function Targets(edges: seq<Edge>): set<string> {
    set i | 0 <= i < |edges| :: edges[i].after
  }

  lemma {:induction false} LeavingFromMember(edges: seq<Edge>, epoch: string, e: Edge)
    ensures e in LeavingFrom(edges, epoch) <==> e in edges && e.before == epoch
  {
    if edges != [] {
      LeavingFromMember(edges[..|edges| - 1], epoch, e);
      assert edges == edges[..|edges| - 1] + [edges[|edges| - 1]];
    }
  }

  /** The fold as a recursion over the epoch reached so far. */
  function Walk(edges: seq<Edge>, current: string, visited: set<string>, consumed: nat): Fence
    decreases Targets(edges) - visited
  {
    var cand := LeavingFrom(edges, current);
    if |cand| > 1 then Fence(current, Some(EpochFork))
    else if cand == [] then Fence(current, if consumed < |edges| then Some(EpochGap) else None)
    else
      var next := cand[0].after;
      LeavingFromMember(edges, current, cand[0]);
      if next in visited then Fence(current, Some(EpochFork))
      else Walk(edges, next, visited + {next}, consumed + 1)
  }

  function WalkFrom(edges: seq<Edge>, anchor: string): Fence {
    Walk(edges, anchor, {anchor}, 0)
  }

  /** The walk over buckets of edges keyed by their start. */
  method WalkEpochChain(anchor: string, edges: seq<Edge>) returns (fence: Fence)
    ensures fence == WalkFrom(edges, anchor)
  {
    var buckets: map<string, seq<Edge>> := map[];
    for i := 0 to |edges|
      invariant forall k :: (if k in buckets then buckets[k] else []) == LeavingFrom(edges[..i], k)
    {
      var k := edges[i].before;
      assert edges[..i + 1][..i] == edges[..i];
      buckets := buckets[k := (if k in buckets then buckets[k] else []) + [edges[i]]];
    }
    assert edges[..|edges|] == edges;
    var current, visited, consumed := anchor, {anchor}, 0;
    while true
      invariant current in visited
      invariant forall k :: k !in visited || k == current ==>
                (if k in buckets then buckets[k] else []) == LeavingFrom(edges, k)
      invariant Walk(edges, current, visited, consumed) == WalkFrom(edges, anchor)
      decreases Targets(edges) - visited
    {
      var cand := if current in buckets then buckets[current] else [];
      if |cand| > 1 {
        return Fence(current, Some(EpochFork));
      }
      if cand == [] {
        return Fence(current, if consumed < |edges| then Some(EpochGap) else None);
      }
      buckets := buckets[current := []];
      consumed := consumed + 1;
      var next := cand[0].after;
      LeavingFromMember(edges, current, cand[0]);
      if next in visited {
        return Fence(current, Some(EpochFork));
      }
      visited := visited + {next};
      current := next;
    }
  }

  // ----- what the walk decides -----------------------------------------------

  /** The epochs a path visits: the anchor, then every edge's target. */
  function EpochsOf(path: seq<Edge>, anchor: string): (epochs: seq<string>)
    ensures |epochs| == |path| + 1
  {
    [anchor] + seq(|path|, i requires 0 <= i < |path| => path[i].after)
  }

  /** `path` leads from the anchor to `tail`, edge after edge, meeting no epoch twice. */
  ghost predicate SimplePath(path: seq<Edge>, anchor: string, tail: string) {
    var epochs := EpochsOf(path, anchor);
    && (forall i :: 0 <= i < |path| ==> path[i].before == epochs[i])
    && Distinct(epochs)
    && tail == epochs[|path|]
  }

  /** All the edges, each used once, form one simple path from the anchor to `tail`. */
  ghost predicate Arranges(path: seq<Edge>, edges: seq<Edge>, anchor: string, tail: string) {
    multiset(path) == multiset(edges) && SimplePath(path, anchor, tail)
  }

  lemma {:induction false} LeavingFromCounts(edges: seq<Edge>, epoch: string, e: Edge)
    ensures multiset(LeavingFrom(edges, epoch))[e] == if e.before == epoch then multiset(edges)[e] else 0
  {
    if edges != [] {
      LeavingFromCounts(edges[..|edges| - 1], epoch, e);
      assert edges == edges[..|edges| - 1] + [edges[|edges| - 1]];
    }
  }

  lemma LeavingFromPermutes(a: seq<Edge>, b: seq<Edge>, epoch: string)
    requires multiset(a) == multiset(b)
    ensures multiset(LeavingFrom(a, epoch)) == multiset(LeavingFrom(b, epoch))
    ensures |LeavingFrom(a, epoch)| == |LeavingFrom(b, epoch)|
    ensures |LeavingFrom(a, epoch)| == 1 ==> LeavingFrom(a, epoch) == LeavingFrom(b, epoch)
  {
    var x, y := LeavingFrom(a, epoch), LeavingFrom(b, epoch);
    forall e ensures multiset(x)[e] == multiset(y)[e] {
      LeavingFromCounts(a, epoch, e);
      LeavingFromCounts(b, epoch, e);
    }
    assert multiset(x) == multiset(y);
    assert |x| == |multiset(x)| == |multiset(y)| == |y|;
    if |x| == 1 {
      assert x[0] in multiset(y);
    }
  }

  lemma TargetsPermute(a: seq<Edge>, b: seq<Edge>)
    requires multiset(a) == multiset(b)
    ensures Targets(a) == Targets(b) && |a| == |b|
  {
    assert |a| == |multiset(a)| == |multiset(b)| == |b|;
    forall t ensures t in Targets(a) <==> t in Targets(b) {
      if t in Targets(a)
    {
        var i :| 0 <= i < |a| && a[i].after == t;
        assert a[i] in multiset(b);
        var j :| 0 <= j < |b| && b[j] == a[i];
      }
      if t in Targets(b) {
        var i :| 0 <= i < |b| && b[i].after == t;
        assert b[i] in multiset(a);
        var j :| 0 <= j < |a| && a[j] == b[i];
      }
    }
  }

  lemma {:induction false} WalkPermutes(a: seq<Edge>, b: seq<Edge>, current: string, visited: set<string>,
                                        consumed: nat)
    requires multiset(a) == multiset(b)
    ensures Walk(a, current, visited, consumed) == Walk(b, current, visited, consumed)
    decreases Targets(a) - visited
  {
    LeavingFromPermutes(a, b, current);
    TargetsPermute(a, b);
    var cand := LeavingFrom(a, current);
    if |cand| == 1 && cand[0].after !in visited {
      LeavingFromMember(a, current, cand[0]);
      WalkPermutes(a, b, cand[0].after, visited + {cand[0].after}, consumed + 1);
    }
  }

  /** Order-blindness: status, epoch and halt code ignore the order edges arrived in. */
  lemma WalkIgnoresOrder(a: seq<Edge>, b: seq<Edge>, anchor: string)
    requires multiset(a) == multiset(b)
    ensures WalkFrom(a, anchor) == WalkFrom(b, anchor)
  {
    WalkPermutes(a, b, anchor, {anchor}, 0);
  }

  // ----- exactness -----------------------------------------------------------

  /** Each move along the path was the only one available. */
  ghost predicate Forced(edges: seq<Edge>, path: seq<Edge>) {
    forall i :: 0 <= i < |path| ==> LeavingFrom(edges, path[i].before) == [path[i]]
  }

  /** Everything the walk has established after consuming `path`. */
  ghost predicate Consumed(edges: seq<Edge>, anchor: string, path: seq<Edge>, current: string, visited: set<string>) {
    && SimplePath(path, anchor, current)
    && (forall t :: t in visited <==> t in EpochsOf(path, anchor))
    && Forced(edges, path)
  }

  lemma EpochsSnoc(path: seq<Edge>, anchor: string, e: Edge)
    ensures EpochsOf(path + [e], anchor) == EpochsOf(path, anchor) + [e.after]
  {
  }

  lemma SimplePathSnoc(path: seq<Edge>, anchor: string, current: string, e: Edge)
    requires SimplePath(path, anchor, current) && e.before == current
    requires e.after !in EpochsOf(path, anchor)
    ensures SimplePath(path + [e], anchor, e.after)
  {
    EpochsSnoc(path, anchor, e);
  }

  lemma ConsumeOne(edges: seq<Edge>, anchor: string, path: seq<Edge>, current: string, visited: set<string>, e: Edge)
    requires Consumed(edges, anchor, path, current, visited)
    requires LeavingFrom(edges, current) == [e] && e.after !in visited
    ensures Consumed(edges, anchor, path + [e], e.after, visited + {e.after})
  {
    LeavingFromMember(edges, current, e);
    SimplePathSnoc(path, anchor, current, e);
    EpochsSnoc(path, anchor, e);
  }

  lemma {:induction false} WalkBuildsPath(edges: seq<Edge>, anchor: string, path: seq<Edge>, current: string,
                                          visited: set<string>, tail: string)
    returns (whole: seq<Edge>)
    requires Consumed(edges, anchor, path, current, visited)
    requires Walk(edges, current, visited, |path|) == Fence(tail, None)
    ensures SimplePath(whole, anchor, tail) && |whole| >= |edges|
    ensures Forced(edges, whole)
    decreases Targets(edges) - visited
  {
    var cand := LeavingFrom(edges, current);
    if cand == [] {
      return path;
    }
    LeavingFromMember(edges, current, cand[0]);
    ConsumeOne(edges, anchor, path, current, visited, cand[0]);
    whole := WalkBuildsPath(edges, anchor, path + [cand[0]], cand[0].after, visited + {cand[0].after}, tail);
  }

  lemma SimplePathDistinct(path: seq<Edge>, anchor: string, tail: string)
    requires SimplePath(path, anchor, tail)
    ensures Distinct(path)
  {
    var epochs := EpochsOf(path, anchor);
    forall i, j | 0 <= i < j < |path| ensures path[i] != path[j] {
      assert epochs[i] != epochs[j];
    }
  }

  lemma {:induction false} DistinctCount(path: seq<Edge>, e: Edge)
    requires Distinct(path)
    ensures multiset(path)[e] == if e in path then 1 else 0
  {
    if path != [] {
      var init, last := path[..|path| - 1], path[|path| - 1];
      assert path == init + [last];
      DistinctCount(init, e);
    }
  }

  lemma SubMultisetOfSameSize(a: multiset<Edge>, b: multiset<Edge>)
    requires a <= b
    ensures |a| <= |b|
    ensures |a| >= |b| ==> a == b
  {
    assert b == a + (b - a);
  }

  /** A path of forced moves uses edges of the collection, each at most once. */
  lemma ForcedPathFits(edges: seq<Edge>, anchor: string, path: seq<Edge>, tail: string)
    requires SimplePath(path, anchor, tail)
    requires Forced(edges, path)
    ensures multiset(path) <= multiset(edges) && |path| <= |edges|
  {
    SimplePathDistinct(path, anchor, tail);
    forall e ensures multiset(path)[e] <= multiset(edges)[e] {
      DistinctCount(path, e);
      if e in path {
        LeavingFromMember(edges, e.before, e);
        assert LeavingFrom(edges, e.before) == [e];
      }
    }
    SubMultisetOfSameSize(multiset(path), multiset(edges));
  }

  /** ok with tail t iff the edges can be arranged as one simple path from the anchor to t. */
  lemma WalkOkExact(edges: seq<Edge>, anchor: string, tail: string)
    ensures WalkFrom(edges, anchor) == Fence(tail, None) <==> exists path :: Arranges(path, edges, anchor, tail)
  {
    if WalkFrom(edges, anchor) == Fence(tail, None) {
      assert Consumed(edges, anchor, [], anchor, {anchor});
      var path := WalkBuildsPath(edges, anchor, [], anchor, {anchor}, tail);
      ForcedPathFits(edges, anchor, path, tail);
      SubMultisetOfSameSize(multiset(path), multiset(edges));
      assert Arranges(path, edges, anchor, tail);
    }
    if path: seq<Edge> :| Arranges(path, edges, anchor, tail) {
      PathIsWalked(edges, anchor, path, tail);
    }
  }

  lemma {:induction false} LeavingFromUnique(path: seq<Edge>, epoch: string, k: nat)
    requires forall i :: 0 <= i < |path| ==> (path[i].before == epoch <==> i == k)
    ensures LeavingFrom(path, epoch) == if k < |path| then [path[k]] else []
  {
    if path != [] {
      LeavingFromUnique(path[..|path| - 1], epoch, k);
    }
  }

  lemma OnlyEdgeLeaving(path: seq<Edge>, anchor: string, tail: string, k: nat)
    requires SimplePath(path, anchor, tail) && k <= |path|
    ensures LeavingFrom(path, EpochsOf(path, anchor)[k]) == if k < |path| then [path[k]] else []
  {
    var epochs := EpochsOf(path, anchor);
    forall i | 0 <= i < |path| ensures path[i].before == epochs[k] <==> i == k {
      assert path[i].before == epochs[i];
    }
    LeavingFromUnique(path, epochs[k], k);
  }

  /** When every move is forced and no epoch repeats, the walk goes to the end. */
  lemma {:induction false} ForcedWalk(edges: seq<Edge>, path: seq<Edge>, epochs: seq<string>, k: nat,
                                      visited: set<string>)
    requires |epochs| == |path| + 1 == |edges| + 1 && Distinct(epochs) && k <= |path|
    requires forall i :: 0 <= i < |path| ==>
             LeavingFrom(edges, epochs[i]) == [path[i]] && path[i].after == epochs[i + 1]
    requires LeavingFrom(edges, epochs[|path|]) == []
    requires forall t :: t in visited ==> t in epochs[..k + 1]
    ensures Walk(edges, epochs[k], visited, k) == Fence(epochs[|path|], None)
    decreases |path| - k
  {
    if k < |path| {
      var next := epochs[k + 1];
      assert LeavingFrom(edges, epochs[k]) == [path[k]];
      assert next !in visited;
      assert epochs[..k + 2] == epochs[..k + 1] + [next];
      ForcedWalk(edges, path, epochs, k + 1, visited + {next});
    }
  }

  lemma PathIsWalked(edges: seq<Edge>, anchor: string, path: seq<Edge>, tail: string)
    requires Arranges(path, edges, anchor, tail)
    ensures WalkFrom(edges, anchor) == Fence(tail, None)
  {
    var epochs := EpochsOf(path, anchor);
    TargetsPermute(path, edges);
    forall i | 0 <= i <= |path|
      ensures LeavingFrom(edges, epochs[i]) == if i < |path| then [path[i]] else []
    {
      OnlyEdgeLeaving(path, anchor, tail, i);
      LeavingFromPermutes(path, edges, epochs[i]);
    }
    assert forall i :: 0 <= i < |path| ==> path[i].after == epochs[i + 1];
    assert Distinct(epochs) && epochs[0] == anchor && epochs[|path|] == tail;
    hide EpochsOf, SimplePath, LeavingFrom, Arranges;
    ForcedWalk(edges, path, epochs, 0, {anchor});
  }

  // ----- extending a chain ---------------------------------------------------

  lemma LeavingFromSnoc(edges: seq<Edge>, x: Edge, epoch: string)
    ensures LeavingFrom(edges + [x], epoch) == LeavingFrom(edges, epoch) + if x.before == epoch then [x] else []
  {
    assert (edges + [x])[..|edges|] == edges;
  }

  lemma {:induction false} ExtendedWalkPassesTail(edges: seq<Edge>, x: Edge, anchor: string, path: seq<Edge>,
                                                  current: string, visited: set<string>, tail: string)
    requires Consumed(edges, anchor, path, current, visited)
    requires Walk(edges, current, visited, |path|) == Fence(tail, None)
    requires Walk(edges + [x], current, visited, |path|).halt.None?
    ensures x.before == tail
    decreases Targets(edges) - visited
  {
    LeavingFromSnoc(edges, x, current);
    ForcedPathFits(edges, anchor, path, current);
    var cand := LeavingFrom(edges, current);
    if cand != [] {
      LeavingFromMember(edges, current, cand[0]);
      ConsumeOne(edges, anchor, path, current, visited, cand[0]);
      ExtendedWalkPassesTail(edges, x, anchor, path + [cand[0]], cand[0].after, visited + {cand[0].after}, tail);
    }
  }

  /** Appending an edge to a resolved fence keeps it resolved iff the edge starts at the
      tail and reaches an epoch the fence has not been at; the tail then moves there. */
  lemma ExtendOkExact(edges: seq<Edge>, anchor: string, tail: string, x: Edge)
    requires WalkFrom(edges, anchor) == Fence(tail, None)
    ensures WalkFrom(edges + [x], anchor).halt.None? <==>
            x.before == tail && x.after != anchor && x.after !in Targets(edges)
    ensures WalkFrom(edges + [x], anchor).halt.None? ==> WalkFrom(edges + [x], anchor) == Fence(x.after, None)
  {
    if x.before == tail && x.after != anchor && x.after !in Targets(edges) {
      ExtensionIsOk(edges, anchor, tail, x);
    }
    if WalkFrom(edges + [x], anchor).halt.None? {
      ExtendedWalkPassesTail(edges, x, anchor, [], anchor, {anchor}, tail);
      ExtensionIsFresh(edges, anchor, WalkFrom(edges + [x], anchor).epoch, x);
      ExtensionIsOk(edges, anchor, tail, x);
    }
  }

  lemma ExtensionIsOk(edges: seq<Edge>, anchor: string, tail: string, x: Edge)
    requires WalkFrom(edges, anchor) == Fence(tail, None)
    requires x.before == tail && x.after != anchor && x.after !in Targets(edges)
    ensures WalkFrom(edges + [x], anchor) == Fence(x.after, None)
  {
    WalkOkExact(edges, anchor, tail);
    var path: seq<Edge> :| Arranges(path, edges, anchor, tail);
    TargetsPermute(path, edges);
    forall i | 0 <= i < |path| ensures path[i].after != x.after {
      assert path[i].after in Targets(path);
    }
    SimplePathSnoc(path, anchor, tail, x);
    assert Arranges(path + [x], edges + [x], anchor, x.after);
    WalkOkExact(edges + [x], anchor, x.after);
  }

  lemma ExtensionIsFresh(edges: seq<Edge>, anchor: string, end: string, x: Edge)
    requires WalkFrom(edges + [x], anchor) == Fence(end, None)
    ensures x.after != anchor && x.after !in Targets(edges)
  {
    WalkOkExact(edges + [x], anchor, end);
    var path: seq<Edge> :| Arranges(path, edges + [x], anchor, end);
    var i := IndexIn(path, edges + [x], x);
    TargetsApart(path, anchor, end, i, i);
    if y: Edge :| y in edges && y.after == x.after {
      var k := AnotherIndex(path, edges, x, y, i);
      TargetsApart(path, anchor, end, i, k);
      assert false;
    }
  }

  lemma TargetsApart(path: seq<Edge>, anchor: string, tail: string, i: nat, k: nat)
    requires SimplePath(path, anchor, tail) && i < |path| && k < |path|
    ensures path[i].after != anchor
    ensures i != k ==> path[i].after != path[k].after
  {
    var epochs := EpochsOf(path, anchor);
    assert epochs[i + 1] == path[i].after && epochs[k + 1] == path[k].after && epochs[0] == anchor;
    assert Distinct(epochs);
    hide EpochsOf, SimplePath;
  }

  lemma IndexIn(path: seq<Edge>, edges: seq<Edge>, x: Edge) returns (i: nat)
    requires multiset(path) == multiset(edges) && x in edges
    ensures i < |path| && path[i] == x
  {
    assert x in multiset(path);
    i :| 0 <= i < |path| && path[i] == x;
  }

  lemma AnotherIndex(path: seq<Edge>, edges: seq<Edge>, x: Edge, y: Edge, i: nat) returns (k: nat)
    requires multiset(path) == multiset(edges + [x]) && i < |path| && path[i] == x && y in edges
    ensures k < |path| && k != i && path[k] == y
  {
    var rest := path[..i] + path[i + 1..];
    assert path == path[..i] + [x] + path[i + 1..];
    assert multiset(rest) == multiset(path) - multiset{x} == multiset(edges);
    var j := IndexIn(rest, edges, y);
    k := if j < i then j else j + 1;
  }

  // ----- where the walk stops, and with which code ---------------------------

  /** The positions of the edges that leave an epoch. */
  function Leaving(edges: seq<Edge>, epoch: string): set<int> {
    set i | 0 <= i < |edges| && edges[i].before == epoch
  }

  /** The one edge leaving the epoch is `e`. */
  ghost predicate OnlyOneLeaving(edges: seq<Edge>, epoch: string, e: Edge) {
    exists j :: Leaving(edges, epoch) == {j} && edges[j] == e
  }

  /** Every move of the path is the only one there is. */
  ghost predicate OnlyWay(edges: seq<Edge>, path: seq<Edge>) {
    forall i :: 0 <= i < |path| ==> OnlyOneLeaving(edges, path[i].before, path[i])
  }

  /** What is found at the end of the path: nothing more to use; edges that cannot be reached;
      or a choice between several edges, or the only one leading back to an epoch visited. */
  ghost predicate StopsWith(edges: seq<Edge>, anchor: string, path: seq<Edge>, fence: Fence) {
    match fence.halt
    case None => Leaving(edges, fence.epoch) == {} && |path| == |edges|
    case Some(EpochGap) => Leaving(edges, fence.epoch) == {} && |path| < |edges|
    case Some(EpochFork) =>
      || |Leaving(edges, fence.epoch)| > 1
      || exists j :: Leaving(edges, fence.epoch) == {j} && edges[j].after in EpochsOf(path, anchor)
    case _ => false
  }

  ghost predicate ForcedStop(edges: seq<Edge>, anchor: string, path: seq<Edge>, fence: Fence) {
    SimplePath(path, anchor, fence.epoch) && OnlyWay(edges, path) && StopsWith(edges, anchor, path, fence)
  }

  lemma {:induction false} LeavingCounted(edges: seq<Edge>, epoch: string)
    ensures |LeavingFrom(edges, epoch)| == |Leaving(edges, epoch)|
    ensures |LeavingFrom(edges, epoch)| == 1 ==>
              exists j :: Leaving(edges, epoch) == {j} && LeavingFrom(edges, epoch) == [edges[j]]
  {
    if edges != [] {
      var n := |edges| - 1;
      var before := edges[..n];
      LeavingCounted(before, epoch);
      if edges[n].before == epoch {
        assert Leaving(edges, epoch) == Leaving(before, epoch) + {n};
        if |LeavingFrom(edges, epoch)| == 1 {
          assert Leaving(before, epoch) == {};
          assert Leaving(edges, epoch) == {n};
        }
      } else {
        assert Leaving(edges, epoch) == Leaving(before, epoch);
      }
    }
  }

  lemma OnlyOneIsForced(edges: seq<Edge>, epoch: string, e: Edge)
    ensures LeavingFrom(edges, epoch) == [e] <==> OnlyOneLeaving(edges, epoch, e)
  {
    LeavingCounted(edges, epoch);
    if OnlyOneLeaving(edges, epoch, e) {
      var j :| Leaving(edges, epoch) == {j} && edges[j] == e;
      assert |LeavingFrom(edges, epoch)| == 1;
      var k :| Leaving(edges, epoch) == {k} && LeavingFrom(edges, epoch) == [edges[k]];
      assert k in {j};
    }
  }

  lemma OnlyWayIsForced(edges: seq<Edge>, path: seq<Edge>)
    ensures Forced(edges, path) <==> OnlyWay(edges, path)
  {
    forall i | 0 <= i < |path|
      ensures LeavingFrom(edges, path[i].before) == [path[i]] <==> OnlyOneLeaving(edges, path[i].before, path[i])
    {
      OnlyOneIsForced(edges, path[i].before, path[i]);
    }
  }

  lemma {:induction false} WalkFindsStop(edges: seq<Edge>, anchor: string, path: seq<Edge>, current: string,
                                         visited: set<string>)
    returns (whole: seq<Edge>)
    requires Consumed(edges, anchor, path, current, visited)
    ensures ForcedStop(edges, anchor, whole, Walk(edges, current, visited, |path|))
    decreases Targets(edges) - visited
  {
    hide Consumed, ForcedStop;
    var cand := LeavingFrom(edges, current);
    if |cand| == 1 && cand[0].after !in visited {
      LeavingFromMember(edges, current, cand[0]);
      ConsumeOne(edges, anchor, path, current, visited, cand[0]);
      whole := WalkFindsStop(edges, anchor, path + [cand[0]], cand[0].after, visited + {cand[0].after});
    } else {
      StopsHere(edges, anchor, path, current, visited);
      whole := path;
    }
  }

  lemma StopsHere(edges: seq<Edge>, anchor: string, path: seq<Edge>, current: string, visited: set<string>)
    requires Consumed(edges, anchor, path, current, visited)
    requires var cand := LeavingFrom(edges, current); |cand| == 1 ==> cand[0].after in visited
    ensures ForcedStop(edges, anchor, path, Walk(edges, current, visited, |path|))
  {
    LeavingCounted(edges, current);
    OnlyWayIsForced(edges, path);
    ForcedPathFits(edges, anchor, path, current);
    hide SimplePath, EpochsOf, OnlyWay, Forced, Leaving;
  }

  /** The epochs the first `k` edges of the path visit, the anchor included. */
  function VisitedBy(path: seq<Edge>, anchor: string, k: nat): set<string>
    requires k <= |path|
  {
    set i | 0 <= i <= k :: EpochsOf(path, anchor)[i]
  }

  lemma {:induction false} WalkAlong(edges: seq<Edge>, anchor: string, path: seq<Edge>, tail: string, k: nat)
    requires SimplePath(path, anchor, tail) && Forced(edges, path) && k <= |path|
    ensures Walk(edges, EpochsOf(path, anchor)[k], VisitedBy(path, anchor, k), k) ==
            Walk(edges, tail, VisitedBy(path, anchor, |path|), |path|)
    decreases |path| - k
  {
    hide SimplePath, EpochsOf, Forced, VisitedBy;
    if k < |path| {
      PathMove(edges, anchor, path, tail, k);
      WalkAlong(edges, anchor, path, tail, k + 1);
    } else {
      PathEnds(path, anchor, tail);
    }
  }

  lemma PathEnds(path: seq<Edge>, anchor: string, tail: string)
    requires SimplePath(path, anchor, tail)
    ensures EpochsOf(path, anchor)[|path|] == tail && EpochsOf(path, anchor)[0] == anchor
  {
  }

  lemma VisitedGrows(path: seq<Edge>, anchor: string, k: nat)
    requires k < |path|
    ensures VisitedBy(path, anchor, k + 1) == VisitedBy(path, anchor, k) + {EpochsOf(path, anchor)[k + 1]}
  {
    hide EpochsOf;
  }

  lemma FreshMove(path: seq<Edge>, anchor: string, k: nat)
    requires Distinct(EpochsOf(path, anchor)) && k < |path|
    ensures EpochsOf(path, anchor)[k + 1] !in VisitedBy(path, anchor, k)
  {
    hide EpochsOf;
  }

  lemma PathMove(edges: seq<Edge>, anchor: string, path: seq<Edge>, tail: string, k: nat)
    requires SimplePath(path, anchor, tail) && Forced(edges, path) && k < |path|
    ensures var epochs := EpochsOf(path, anchor);
            && LeavingFrom(edges, epochs[k]) == [path[k]] && epochs[k + 1] == path[k].after
            && epochs[k + 1] !in VisitedBy(path, anchor, k)
            && VisitedBy(path, anchor, k + 1) == VisitedBy(path, anchor, k) + {epochs[k + 1]}
  {
    hide Distinct, VisitedBy, LeavingFrom;
    VisitedGrows(path, anchor, k);
    FreshMove(path, anchor, k);
  }

  lemma StopIsReached(edges: seq<Edge>, anchor: string, path: seq<Edge>, fence: Fence)
    requires ForcedStop(edges, anchor, path, fence)
    ensures WalkFrom(edges, anchor) == fence
  {
    hide Forced, OnlyWay, Walk, VisitedBy, StopsWith, EpochsOf, SimplePath;
    OnlyWayIsForced(edges, path);
    WalkAlong(edges, anchor, path, fence.epoch, 0);
    PathEnds(path, anchor, fence.epoch);
    VisitedAtStart(path, anchor);
    WalkStopsAs(edges, anchor, path, fence);
  }

  lemma VisitedAtStart(path: seq<Edge>, anchor: string)
    ensures VisitedBy(path, anchor, 0) == {anchor}
  {
    var epochs := EpochsOf(path, anchor);
    assert epochs[0] == anchor;
    hide EpochsOf;
    forall x ensures x in VisitedBy(path, anchor, 0) <==> x == anchor {
    }
  }

  lemma WalkStopsAs(edges: seq<Edge>, anchor: string, path: seq<Edge>, fence: Fence)
    requires StopsWith(edges, anchor, path, fence)
    ensures Walk(edges, fence.epoch, VisitedBy(path, anchor, |path|), |path|) == fence
  {
    LeavingCounted(edges, fence.epoch);
    if fence.halt == Some(EpochFork) && |Leaving(edges, fence.epoch)| <= 1 {
      var j :| Leaving(edges, fence.epoch) == {j} && edges[j].after in EpochsOf(path, anchor);
      assert j in Leaving(edges, fence.epoch);
      OnlyOneIsForced(edges, fence.epoch, edges[j]);
      hide EpochsOf, Leaving;
      var i :| 0 <= i <= |path| && EpochsOf(path, anchor)[i] == edges[j].after;
      assert edges[j].after in VisitedBy(path, anchor, |path|);
    }
  }

  /** The walk stops at an epoch with a code exactly when the moves forced from the anchor on
      lead there and that is what is found there: EPOCH_FORK for a choice or a way back,
      EPOCH_GAP for edges left over, and no code when none is. */
  lemma WalkStopExact(edges: seq<Edge>, anchor: string, fence: Fence)
    ensures WalkFrom(edges, anchor) == fence <==> exists path :: ForcedStop(edges, anchor, path, fence)
  {
    if WalkFrom(edges, anchor) == fence {
      var path := WalkFindsStop(edges, anchor, [], anchor, {anchor});
    }
    if path: seq<Edge> :| ForcedStop(edges, anchor, path, fence) {
      StopIsReached(edges, anchor, path, fence);
    }
  }
}
