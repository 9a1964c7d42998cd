/** Dependency ordering: Kahn's algorithm with a sorted ready queue is exact and canonical. */
module TopologicalSorting {
  import opened Common
  import opened Names

  /** Each service with its collected dependencies, some of which may be outside the graph. */
  type Graph = map<string, seq<string>>

  predicate DependsOn(g: Graph, x: string, d: string) {
    x in g && d in g && d in g[x]
  }

  /** Dependencies are listed once each. */
  ghost predicate GoodGraph(g: Graph) {
    forall x :: x in g ==> NoDuplicates(g[x])
  }

  /** In-graph dependencies of x not yet ordered. */
  function Waiting(g: Graph, x: string, order: seq<string>): set<string>
    requires x in g
  {
    set d | d in g[x] && d in g && d !in order
  }

  ghost predicate IsReady(g: Graph, order: seq<string>, x: string) {
    x in g && x !in order && Waiting(g, x, order) == {}
  }

  ghost predicate IsLeastReady(g: Graph, order: seq<string>, x: string) {
    IsReady(g, order, x) && forall y :: IsReady(g, order, y) ==> !Less(y, x)
  }

  /** Every service once, each after its in-graph dependencies. */
  ghost predicate ValidOrder(g: Graph, order: seq<string>) {
    PartialOrder(g, order) && forall x :: x in g ==> x in order
  }

  ghost predicate PartialOrder(g: Graph, order: seq<string>) {
    && NoDuplicates(order)
    && (forall x :: x in order ==> x in g)
    && (forall i, d :: 0 <= i < |order| && DependsOn(g, order[i], d) ==> d in order[..i])
  }

  ghost predicate Greedy(g: Graph, order: seq<string>) {
    forall i :: 0 <= i < |order| ==> IsLeastReady(g, order[..i], order[i])
  }

  ghost predicate IsCycle(g: Graph, p: seq<string>) {
    |p| >= 2 && p[0] == p[|p| - 1] && IsWalk(g, p)
  }

  ghost predicate IsWalk(g: Graph, p: seq<string>) {
    forall i :: 0 <= i < |p| - 1 ==> DependsOn(g, p[i], p[i + 1])
  }

  ghost predicate HasCycle(g: Graph) {
    exists p :: IsCycle(g, p)
  }

  ghost predicate LexLess(a: seq<string>, b: seq<string>) {
    exists i :: 0 <= i < |a| && i < |b| && a[..i] == b[..i] && Less(a[i], b[i])
  }

  // ---- The order is canonical

  lemma {:induction false} CommonPrefix(a: seq<string>, b: seq<string>) returns (i: nat)
    requires |a| == |b|
    ensures i <= |a| && a[..i] == b[..i] && (i < |a| ==> a[i] != b[i])
  {
    i := 0;
    while i < |a| && a[i] == b[i]
      invariant i <= |a| && a[..i] == b[..i]
    {
      assert a[..i + 1] == a[..i] + [a[i]] && b[..i + 1] == b[..i] + [b[i]];
      i := i + 1;
    }
  }

  /** In a valid order the next service is ready after what precedes it. */
  lemma NextIsReady(g: Graph, order: seq<string>, i: nat)
    requires PartialOrder(g, order) && i < |order|
    ensures IsReady(g, order[..i], order[i])
  {
    assert order[i] in order;
    forall d | d in Waiting(g, order[i], order[..i])
      ensures false
    {
      assert DependsOn(g, order[i], d);
    }
  }

  /** The greedy order is the lexicographically least valid one, so nothing else about the run matters. */
  lemma GreedyIsLeast(g: Graph, order: seq<string>, other: seq<string>)
    requires ValidOrder(g, order) && Greedy(g, order) && ValidOrder(g, other)
    ensures order == other || LexLess(order, other)
  {
    SameLength(order, other);
    var i := CommonPrefix(order, other);
    if i < |order| {
      NextIsReady(g, other, i);
      assert IsLeastReady(g, order[..i], order[i]);
      LessTotal(order[i], other[i]);
      assert order[..i] == other[..i] && Less(order[i], other[i]);
    } else {
      assert order[..i] == order && other[..i] == other;
    }
  }

  // ---- Cycles

  lemma {:induction false} WalkDescends(g: Graph, order: seq<string>, p: seq<string>, at: seq<nat>)
    requires ValidOrder(g, order) && IsWalk(g, p) && p != [] && |at| == |p|
    requires forall k :: 0 <= k < |p| ==> at[k] < |order| && order[at[k]] == p[k]
    ensures at[|p| - 1] <= at[0] - (|p| - 1)
  {
    if |p| > 1 {
      var n := |p| - 1;
      WalkDescends(g, order, p[..n], at[..n]);
      assert DependsOn(g, p[n - 1], p[n]);
      assert p[n] in order[..at[n - 1]];
      var j :| 0 <= j < at[n - 1] && order[j] == p[n];
      assert j == at[n];
    }
  }

  /** An order excludes cycles. */
  lemma OrderExcludesCycles(g: Graph, order: seq<string>)
    requires ValidOrder(g, order)
    ensures !HasCycle(g)
  {
    forall p | IsCycle(g, p)
      ensures false
    {
      forall k | 0 <= k < |p|
        ensures p[k] in order
      {
        assert DependsOn(g, p[if k == |p| - 1 then 0 else k], p[if k == |p| - 1 then 1 else k + 1]);
      }
      var at := seq(|p|, k requires 0 <= k < |p| && p[k] in order => Position(order, p[k]));
      WalkDescends(g, order, p, at);
    }
  }

  ghost function Position(order: seq<string>, x: string): (i: nat)
    requires x in order
    ensures i < |order| && order[i] == x
  {
    var i :| 0 <= i < |order| && order[i] == x; i
  }

  ghost predicate WaitsOn(g: Graph, stuck: set<string>, x: string) {
    exists d :: d in stuck && DependsOn(g, x, d)
  }

  ghost predicate AllWait(g: Graph, stuck: set<string>) {
    forall x {:trigger WaitsOn(g, stuck, x)} :: x in stuck ==> WaitsOn(g, stuck, x)
  }

  /** Following stuck dependencies for n steps. */
  lemma {:induction false} StuckWalk(g: Graph, stuck: set<string>, start: string, n: nat) returns (p: seq<string>)
    requires start in stuck && AllWait(g, stuck)
    ensures |p| == n + 1 && IsWalk(g, p) && forall i :: 0 <= i < |p| ==> p[i] in stuck
  {
    if n == 0 {
      p := [start];
    } else {
      var q := StuckWalk(g, stuck, start, n - 1);
      var last := q[n - 1];
      assert WaitsOn(g, stuck, last);
      var d :| d in stuck && DependsOn(g, last, d);
      p := q + [d];
    }
  }

  lemma {:induction false} Pigeonhole(p: seq<string>, s: set<string>)
    requires |p| > |s| && forall i :: 0 <= i < |p| ==> p[i] in s
    ensures !NoDuplicates(p)
  {
    if NoDuplicates(p) {
      DistinctSize(p);
      Subset((set x | x in p), s);
    }
  }

  lemma {:induction false} Subset(a: set<string>, b: set<string>)
    requires a <= b
    ensures |a| <= |b|
  {
    if a != {} {
      var x :| x in a;
      Subset(a - {x}, b - {x});
    }
  }

  /** Services that wait only on each other contain a cycle. */
  lemma StuckHasCycle(g: Graph, stuck: set<string>)
    requires stuck != {} && AllWait(g, stuck)
    ensures HasCycle(g)
  {
    var start :| start in stuck;
    var p := StuckWalk(g, stuck, start, |stuck|);
    Pigeonhole(p, stuck);
    var i, j :| 0 <= i < j < |p| && p[i] == p[j];
    var c := p[i..j + 1];
    forall k | 0 <= k < |c| - 1
      ensures DependsOn(g, c[k], c[k + 1])
    {
      assert DependsOn(g, p[i + k], p[i + k + 1]);
    }
    assert IsCycle(g, c);
  }

  // ---- topologicalSort

  function Dependents(adjacency: map<string, seq<string>>, d: string): seq<string> {
    if d in adjacency then adjacency[d] else []
  }

  /** Counts and reverse edges for the services in done. */
  ghost predicate Counted(g: Graph, done: set<string>, inDegree: map<string, int>,
      adjacency: map<string, seq<string>>) {
    && inDegree.Keys == done && done <= g.Keys
    && (forall x :: x in done ==> inDegree[x] == |Waiting(g, x, [])|)
    && (forall d :: NoDuplicates(Dependents(adjacency, d)))
    && (forall d, x :: x in Dependents(adjacency, d) <==> x in done && DependsOn(g, x, d))
  }

  /** The edges in adjacency: all of the services in done, and those of name into counted. */
  ghost predicate Edges(g: Graph, done: set<string>, name: string, counted: set<string>,
      adjacency: map<string, seq<string>>) {
    && (forall d :: NoDuplicates(Dependents(adjacency, d)))
    && (forall d, x :: x in Dependents(adjacency, d)
         <==> (x in done && DependsOn(g, x, d)) || (x == name && d in counted))
  }

  lemma EdgesMore(g: Graph, done: set<string>, name: string, counted: set<string>, adjacency: map<string, seq<string>>,
      dep: string)
    requires Edges(g, done, name, counted, adjacency) && name !in done && dep !in counted
    ensures Edges(g, done, name, counted + {dep}, adjacency[dep := Dependents(adjacency, dep) + [name]])
  {
    var a := adjacency[dep := Dependents(adjacency, dep) + [name]];
    assert name !in Dependents(adjacency, dep);
    forall d
      ensures NoDuplicates(Dependents(a, d))
    {
      assert NoDuplicates(Dependents(adjacency, d));
    }
    forall d, x
      ensures x in Dependents(a, d) <==> (x in done && DependsOn(g, x, d)) || (x == name && d in counted + {dep})
    {
      assert x in Dependents(a, d) <==> x in Dependents(adjacency, d) || (d == dep && x == name);
    }
  }

  /** The edges of one service, with their number. */
  method CountDependencies(g: Graph, ghost done: set<string>, name: string, adjacency0: map<string, seq<string>>)
    returns (degree: int, adjacency: map<string, seq<string>>)
    requires GoodGraph(g) && name in g && name !in done && Edges(g, done, name, {}, adjacency0)
    ensures degree == |Waiting(g, name, [])| && Edges(g, done, name, Waiting(g, name, []), adjacency)
  {
    var deps := g[name];
    degree, adjacency := 0, adjacency0;
    ghost var counted: set<string> := {};
    for j := 0 to |deps|
      invariant degree == |counted| && Edges(g, done, name, counted, adjacency)
      invariant counted == set d | d in deps[..j] && d in g
    {
      var dep := deps[j];
      assert deps[..j + 1] == deps[..j] + [dep];
      if dep in g {
        assert dep !in deps[..j];
        EdgesMore(g, done, name, counted, adjacency, dep);
        adjacency := adjacency[dep := Dependents(adjacency, dep) + [name]];
        degree := degree + 1;
        counted := counted + {dep};
      }
    }
    assert deps[..|deps|] == deps;
    assert counted == Waiting(g, name, []);
  }

  /** The body of the build loop. */
  method CountService(g: Graph, ghost done: set<string>, name: string, inDegree0: map<string, int>,
      adjacency0: map<string, seq<string>>)
    returns (inDegree: map<string, int>, adjacency: map<string, seq<string>>)
    requires GoodGraph(g) && Counted(g, done, inDegree0, adjacency0) && name in g && name !in done
    ensures Counted(g, done + {name}, inDegree, adjacency)
  {
    adjacency := adjacency0;
    EdgesBegin(g, done, name, inDegree0, adjacency);
    if name !in adjacency {
      EdgesListed(g, done, name, adjacency);
      adjacency := adjacency[name := []];
    }
    var degree;
    degree, adjacency := CountDependencies(g, done, name, adjacency);
    EdgesEnd(g, done, name, inDegree0, adjacency0, adjacency);
    inDegree := inDegree0[name := degree];
  }

  lemma EdgesBegin(g: Graph, done: set<string>, name: string, inDegree: map<string, int>,
      adjacency: map<string, seq<string>>)
    requires Counted(g, done, inDegree, adjacency)
    ensures Edges(g, done, name, {}, adjacency)
  {
  }

  /** An empty list of dependents is none. */
  lemma EdgesListed(g: Graph, done: set<string>, name: string, adjacency: map<string, seq<string>>)
    requires Edges(g, done, name, {}, adjacency) && name !in adjacency
    ensures Edges(g, done, name, {}, adjacency[name := []])
  {
    var a := adjacency[name := []];
    forall d
      ensures Dependents(a, d) == Dependents(adjacency, d)
    {
    }
    forall d
      ensures NoDuplicates(Dependents(a, d))
    {
      assert NoDuplicates(Dependents(adjacency, d));
    }
    forall d, x
      ensures x in Dependents(a, d) <==> x in done && DependsOn(g, x, d)
    {
      assert x in Dependents(adjacency, d) <==> x in done && DependsOn(g, x, d);
    }
  }

  /** With all its dependencies in, the service is counted. */
  lemma EdgesEnd(g: Graph, done: set<string>, name: string, inDegree: map<string, int>,
      adjacency0: map<string, seq<string>>, adjacency: map<string, seq<string>>)
    requires Counted(g, done, inDegree, adjacency0) && name in g && name !in done
    requires Edges(g, done, name, Waiting(g, name, []), adjacency)
    ensures Counted(g, done + {name}, inDegree[name := |Waiting(g, name, [])|], adjacency)
  {
    forall d, x
      ensures x in Dependents(adjacency, d) <==> x in done + {name} && DependsOn(g, x, d)
    {
      assert x in Dependents(adjacency, d)
          <==> (x in done && DependsOn(g, x, d)) || (x == name && d in Waiting(g, name, []));
    }
  }

  /** The first half of topologicalSort; services are visited in any order. */
  method CountEdges(g: Graph) returns (inDegree: map<string, int>, adjacency: map<string, seq<string>>)
    requires GoodGraph(g)
    ensures Counted(g, g.Keys, inDegree, adjacency)
  {
    inDegree, adjacency := map[], map[];
    var todo := g.Keys;
    while todo != {}
      invariant todo <= g.Keys
      invariant Counted(g, g.Keys - todo, inDegree, adjacency)
      decreases todo
    {
      var name :| name in todo;
      inDegree, adjacency := CountService(g, g.Keys - todo, name, inDegree, adjacency);
      todo := todo - {name};
      assert g.Keys - todo == g.Keys - (todo + {name}) + {name};
    }
  }

  ghost predicate QueueRight(g: Graph, order: seq<string>, queue: seq<string>, pending: seq<string>) {
    Ascending(queue) && forall x :: x in queue <==> IsReady(g, order, x) && x !in pending
  }

  ghost predicate DegreesRight(g: Graph, order: seq<string>, inDegree: map<string, int>, pending: seq<string>) {
    inDegree.Keys == g.Keys
    && forall x :: x in g ==> inDegree[x] == |Waiting(g, x, order)| + (if x in pending then 1 else 0)
  }

  /** The services without dependencies, sorted. */
  method InitialQueue(g: Graph, inDegree: map<string, int>) returns (queue: seq<string>)
    requires DegreesRight(g, [], inDegree, [])
    ensures QueueRight(g, [], queue, [])
  {
    queue := [];
    var todo := inDegree.Keys;
    while todo != {}
      invariant todo <= g.Keys && NoDuplicates(queue)
      invariant forall x :: x in queue <==> IsReady(g, [], x) && x !in todo
      decreases todo
    {
      var name :| name in todo;
      if inDegree[name] == 0 {
        queue := queue + [name];
      }
      todo := todo - {name};
    }
    SortAscends(queue);
    queue := Sort(queue);
  }

  /** Ordering node takes it off every waiting set it is in. */
  lemma WaitingShrinks(g: Graph, order: seq<string>, node: string, x: string)
    requires x in g && node !in order
    ensures Waiting(g, x, order + [node]) == Waiting(g, x, order) - {node}
    ensures |Waiting(g, x, order)| == |Waiting(g, x, order + [node])| + (if DependsOn(g, x, node) then 1 else 0)
  {
    assert Waiting(g, x, order + [node]) == Waiting(g, x, order) - {node};
  }

  /** Popping the head of the queue extends the greedy order. */
  lemma PopExtends(g: Graph, order: seq<string>, queue: seq<string>)
    requires PartialOrder(g, order) && Greedy(g, order) && queue != [] && QueueRight(g, order, queue, [])
    ensures PartialOrder(g, order + [queue[0]]) && Greedy(g, order + [queue[0]])
  {
    var node, next := queue[0], order + [queue[0]];
    assert node in queue;
    forall y | IsReady(g, order, y)
      ensures !Less(y, node)
    {
      assert y in queue;
      FirstIsLeast(queue, y);
      LessTotal(y, node);
    }
    forall i, d | 0 <= i < |next| && DependsOn(g, next[i], d)
      ensures d in next[..i]
    {
      if i < |order| {
        assert next[..i] == order[..i];
      } else {
        assert next[..i] == order && d !in Waiting(g, node, order);
      }
    }
    forall i | 0 <= i < |next|
      ensures IsLeastReady(g, next[..i], next[i])
    {
      if i < |order| {
        assert next[..i] == order[..i] && IsLeastReady(g, order[..i], order[i]);
      } else {
        assert next[..i] == order;
      }
    }
  }

  /** Counting down one dependent, and queueing it when nothing holds it back any more. */
  lemma ReleaseOne(g: Graph, order: seq<string>, inDegree: map<string, int>, queue: seq<string>, x: string,
      rest: seq<string>)
    requires x in g && x !in order && x !in rest
    requires DegreesRight(g, order, inDegree, [x] + rest) && QueueRight(g, order, queue, [x] + rest)
    ensures DegreesRight(g, order, inDegree[x := inDegree[x] - 1], rest)
    ensures QueueRight(g, order, if inDegree[x] - 1 == 0 then Sort(queue + [x]) else queue, rest)
  {
    assert x in [x] + rest;
    assert |Waiting(g, x, order)| == 0 <==> Waiting(g, x, order) == {};
    if inDegree[x] - 1 == 0 {
      AppendSorts(queue, x);
    }
  }

  /** The inner Kahn loop: dependents of the node just ordered. */
  method ReleaseDependents(g: Graph, ghost before: seq<string>, node: string, dependents: seq<string>,
      inDegree0: map<string, int>, queue0: seq<string>)
    returns (inDegree: map<string, int>, queue: seq<string>)
    requires PartialOrder(g, before + [node]) && NoDuplicates(dependents) && node !in before
    requires forall x :: x in dependents ==> DependsOn(g, x, node)
    requires DegreesRight(g, before + [node], inDegree0, dependents)
    requires QueueRight(g, before + [node], queue0, dependents)
    ensures DegreesRight(g, before + [node], inDegree, []) && QueueRight(g, before + [node], queue, [])
  {
    inDegree, queue := inDegree0, queue0;
    var rest := dependents;
    while rest != []
      invariant NoDuplicates(rest) && forall x :: x in rest ==> x in dependents
      invariant DegreesRight(g, before + [node], inDegree, rest) && QueueRight(g, before + [node], queue, rest)
    {
      var dependent := rest[0];
      assert rest == [dependent] + rest[1..];
      NotYetOrdered(g, before, node, dependent);
      ReleaseOne(g, before + [node], inDegree, queue, dependent, rest[1..]);
      inDegree := inDegree[dependent := inDegree[dependent] - 1];
      if inDegree[dependent] == 0 {
        queue := Sort(queue + [dependent]);
      }
      rest := rest[1..];
    }
  }

  lemma NotYetOrdered(g: Graph, before: seq<string>, node: string, dependent: string)
    requires PartialOrder(g, before + [node]) && node !in before && DependsOn(g, dependent, node)
    ensures dependent !in before + [node]
  {
    var order := before + [node];
    forall i | 0 <= i < |order|
      ensures order[i] != dependent
    {
      assert order[..i] <= before && node !in order[..i];
    }
  }

  lemma AppendSorts(queue: seq<string>, x: string)
    requires Ascending(queue) && x !in queue
    ensures Ascending(Sort(queue + [x])) && forall y :: y in Sort(queue + [x]) <==> y in queue || y == x
  {
    forall i, j | 0 <= i < j < |queue + [x]|
      ensures (queue + [x])[i] != (queue + [x])[j]
    {
      if j < |queue| { LessTotal(queue[i], queue[j]); }
    }
    SortAscends(queue + [x]);
  }

  /** One pass of Kahn's loop. */
  method OrderNext(g: Graph, order: seq<string>, adjacency: map<string, seq<string>>, inDegree0: map<string, int>,
      queue0: seq<string>)
    returns (inDegree: map<string, int>, queue: seq<string>)
    requires PartialOrder(g, order) && Greedy(g, order) && queue0 != []
    requires NoDuplicates(Dependents(adjacency, queue0[0]))
    requires forall x :: x in Dependents(adjacency, queue0[0]) <==> DependsOn(g, x, queue0[0])
    requires DegreesRight(g, order, inDegree0, []) && QueueRight(g, order, queue0, [])
    ensures PartialOrder(g, order + [queue0[0]]) && Greedy(g, order + [queue0[0]])
    ensures DegreesRight(g, order + [queue0[0]], inDegree, []) && QueueRight(g, order + [queue0[0]], queue, [])
  {
    var node := queue0[0];
    assert node in queue0;
    PopExtends(g, order, queue0);
    var dependents := Sort(Dependents(adjacency, node));
    SortAscends(Dependents(adjacency, node));
    DequeueReady(g, order, queue0, dependents);
    forall x | x in g
      ensures inDegree0[x] == |Waiting(g, x, order + [node])| + (if x in dependents then 1 else 0)
    {
      WaitingShrinks(g, order, node, x);
    }
    AscendingDistinct(dependents);
    inDegree, queue := ReleaseDependents(g, order, node, dependents, inDegree0, queue0[1..]);
  }

  /** topologicalSort: refuses exactly the graphs with a cycle, and otherwise returns the greedy order. */
  method TopologicalSort(g: Graph) returns (order: Option<seq<string>>)
    requires GoodGraph(g)
    ensures order.None? <==> HasCycle(g)
    ensures order.Some? ==> ValidOrder(g, order.value) && Greedy(g, order.value)
  {
    var inDegree, adjacency := CountEdges(g);
    var queue := InitialQueue(g, inDegree);
    var result: seq<string> := [];
    while queue != []
      invariant PartialOrder(g, result) && Greedy(g, result)
      invariant DegreesRight(g, result, inDegree, []) && QueueRight(g, result, queue, [])
      decreases |g.Keys| - |result|
    {
      var node := queue[0];
      inDegree, queue := OrderNext(g, result, adjacency, inDegree, queue);
      result := result + [node];
      OrderFits(g, result);
    }
    OrderFits(g, result);
    if |result| != |g.Keys| {
      assert forall x :: IsReady(g, result, x) ==> x in queue;
      Stuck(g, result);
      return None;
    }
    FullOrder(g, result);
    OrderExcludesCycles(g, result);
    return Some(result);
  }

  /** The rest of the queue is what is ready after node, apart from node's dependents. */
  lemma DequeueReady(g: Graph, order: seq<string>, queue: seq<string>, dependents: seq<string>)
    requires queue != [] && QueueRight(g, order, queue, [])
    requires forall x :: x in dependents <==> DependsOn(g, x, queue[0])
    ensures QueueRight(g, order + [queue[0]], queue[1..], dependents)
  {
    var node := queue[0];
    forall x
      ensures x in queue[1..] <==> IsReady(g, order + [node], x) && x !in dependents
    {
      assert queue == [node] + queue[1..];
      LessTotal(node, node);
      assert x in queue[1..] ==> x in queue && x != node;
      if x in g && node !in order { WaitingShrinks(g, order, node, x); }
      assert node in queue;
    }
  }

  lemma OrderFits(g: Graph, order: seq<string>)
    requires PartialOrder(g, order)
    ensures |order| <= |g.Keys|
  {
    DistinctSize(order);
    Subset((set x | x in order), g.Keys);
  }

  lemma FullOrder(g: Graph, order: seq<string>)
    requires PartialOrder(g, order) && |order| == |g.Keys|
    ensures ValidOrder(g, order)
  {
    DistinctSize(order);
    var s := set x | x in order;
    if s != g.Keys {
      var y :| y in g.Keys && y !in s;
      Subset(s, g.Keys - {y});
    }
  }

  lemma Stuck(g: Graph, order: seq<string>)
    requires PartialOrder(g, order) && |order| != |g.Keys| && forall x :: !IsReady(g, order, x)
    ensures HasCycle(g)
  {
    var stuck := set x | x in g && x !in order;
    if stuck == {} {
      assert forall x :: x in g ==> x in order || x in stuck;
      SameSet(g, order);
    }
    forall x | x in stuck
      ensures WaitsOn(g, stuck, x)
    {
      assert !IsReady(g, order, x);
      var d :| d in Waiting(g, x, order);
      assert d in stuck && DependsOn(g, x, d);
    }
    StuckHasCycle(g, stuck);
  }

  lemma SameSet(g: Graph, order: seq<string>)
    requires PartialOrder(g, order) && forall x :: x in g ==> x in order
    ensures |order| == |g.Keys|
  {
    DistinctSize(order);
    assert (set x | x in order) == g.Keys;
  }
}
