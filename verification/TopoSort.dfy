/**
  The shared dependency resolver: Kahn's algorithm over a map from each node to
  the nodes it depends on, with a work queue that is sorted again after every
  step. Both the contract deploy order and the package dependency check use it.
 */
module TopoSort {
  import opened StringOrder

  /** Each declared node with the names it depends on, in declaration order; names may repeat. */
  type Graph = map<string, seq<string>>

  datatype Outcome = Ordered(order: seq<string>) | Unresolved(node: string)

  // ----- What an ordering has to satisfy ---------------------------------

  ghost function Elements(s: seq<string>): set<string> {
    set x | x in s
  }

  /** Every dependency of `order[i]` stands before position `i`. */
  ghost predicate DependenciesFirst(g: Graph, order: seq<string>) {
    forall i :: 0 <= i < |order| ==> order[i] in g && forall d :: d in g[order[i]] ==> d in order[..i]
  }

  ghost predicate IsOrdering(g: Graph, order: seq<string>) {
    && Distinct(order)
    && Elements(order) == g.Keys
    && DependenciesFirst(g, order)
  }

  /** `a` is smaller than `b` at the first place where they differ. */
  ghost predicate Precedes(a: seq<string>, b: seq<string>) {
    exists k :: 0 <= k < |a| && k < |b| && a[..k] == b[..k] && Less(a[k], b[k])
  }

  ghost predicate IsLeastOrdering(g: Graph, order: seq<string>) {
    && IsOrdering(g, order)
    && forall other :: IsOrdering(g, other) ==> other == order || Precedes(order, other)
  }

  // ----- Why a node can stay unresolved ----------------------------------

  /** Consecutive names of `p` are linked by a dependency. */
  ghost predicate IsWalk(g: Graph, p: seq<string>) {
    p != [] && forall i :: 0 <= i < |p| - 1 ==> p[i] in g && p[i + 1] in g[p[i]]
  }

  /** A walk from `n` that leaves the declared nodes. */
  ghost predicate EscapesFrom(g: Graph, n: string, p: seq<string>) {
    IsWalk(g, p) && p[0] == n && p[|p| - 1] !in g
  }

  /** A walk from `n` that ends on a node it visited before. */
  ghost predicate LoopsFrom(g: Graph, n: string, p: seq<string>) {
    IsWalk(g, p) && p[0] == n && exists i :: 0 <= i < |p| - 1 && p[i] == p[|p| - 1]
  }

  /** From `n` a cycle or an undeclared name can be reached. */
  ghost predicate Stuck(g: Graph, n: string) {
    (exists p :: EscapesFrom(g, n, p)) || (exists p :: LoopsFrom(g, n, p))
  }

  ghost predicate HasCycle(g: Graph) {
    exists p :: IsWalk(g, p) && |p| >= 2 && p[0] == p[|p| - 1]
  }

  ghost predicate HasUndeclared(g: Graph) {
    exists n, d :: n in g && d in g[n] && d !in g
  }

  // ----- The greedy prefix and its minimality ----------------------------

  /** `n` is declared, not yet placed, and all its dependencies are placed. */
  ghost predicate Ready(g: Graph, placed: set<string>, n: string) {
    n in g && n !in placed && forall d :: d in g[n] ==> d in placed
  }

  /** Each element is the smallest node that was ready when it was placed. */
  ghost predicate Greedy(g: Graph, order: seq<string>) {
    forall i :: 0 <= i < |order| ==>
      && Ready(g, Elements(order[..i]), order[i])
      && forall m :: Ready(g, Elements(order[..i]), m) ==> AtMost(order[i], m)
  }

  lemma GreedyPlacesDependenciesFirst(g: Graph, order: seq<string>)
    requires Greedy(g, order)
    ensures Distinct(order) && DependenciesFirst(g, order) && Elements(order) <= g.Keys
  {
    forall i, j | 0 <= i < j < |order| ensures order[i] != order[j] {
      assert order[i] in order[..j];
    }
    forall i | 0 <= i < |order|
      ensures order[i] in g && forall d :: d in g[order[i]] ==> d in order[..i]
    {
      assert Ready(g, Elements(order[..i]), order[i]);
    }
  }

  lemma FirstDifference(a: seq<string>, b: seq<string>) returns (k: nat)
    requires |a| == |b| && a != b
    ensures k < |a| && a[..k] == b[..k] && a[k] != b[k]
  {
    k := 0;
    while a[k] == b[k]
      invariant k < |a| && a[..k] == b[..k]
      invariant exists i :: k <= i < |a| && a[i] != b[i]
      decreases |a| - k
    {
      k := k + 1;
    }
  }

  lemma {:induction false} DistinctSize(s: seq<string>)
    requires Distinct(s)
    ensures |Elements(s)| == |s|
  {
    if s != [] {
      var front, last := s[..|s| - 1], s[|s| - 1];
      DistinctSize(front);
      assert s == front + [last];
      assert Elements(s) == Elements(front) + {last};
    }
  }

  /** A complete greedy order is least: where another order first differs, its element was ready too. */
  lemma GreedyIsLeast(g: Graph, order: seq<string>)
    requires Greedy(g, order) && Elements(order) == g.Keys
    ensures IsLeastOrdering(g, order)
  {
    GreedyPlacesDependenciesFirst(g, order);
    forall other | IsOrdering(g, other) && other != order ensures Precedes(order, other) {
      DistinctSize(order);
      DistinctSize(other);
      var k := FirstDifference(order, other);
      assert other[k] !in other[..k];
      assert other[k] in g && forall d :: d in g[other[k]] ==> d in other[..k];
      assert Ready(g, Elements(order[..k]), other[k]);
      LessTotal(order[k], other[k]);
    }
  }

  lemma PrefixesAgree(a: seq<string>, b: seq<string>, k: nat, i: nat)
    requires i < k <= |a| && k <= |b| && a[..k] == b[..k]
    ensures a[i] == b[i]
  {
    assert a[i] == a[..k][i];
  }

  lemma PrecedesAsymmetric(a: seq<string>, b: seq<string>)
    requires Precedes(a, b)
    ensures !Precedes(b, a)
  {
    var k :| 0 <= k < |a| && k < |b| && a[..k] == b[..k] && Less(a[k], b[k]);
    LessAsymmetric(a[k], b[k]);
    forall l | 0 <= l < |b| && l < |a| && b[..l] == a[..l] ensures !Less(b[l], a[l]) {
      if l < k {
        PrefixesAgree(a, b, k, l);
        if Less(b[l], a[l]) {
          LessAsymmetric(b[l], a[l]);
        }
      } else if k < l {
        PrefixesAgree(a, b, l, k);
      }
    }
  }

  /** The least ordering is unique, so the answer depends on the graph alone. */
  lemma LeastOrderingUnique(g: Graph, a: seq<string>, b: seq<string>)
    requires IsLeastOrdering(g, a) && IsLeastOrdering(g, b)
    ensures a == b
  {
    if Precedes(a, b) {
      PrecedesAsymmetric(a, b);
    }
  }

  // ----- Unplaced nodes are exactly the stuck ones ------------------------

  lemma WalkSuffix(g: Graph, p: seq<string>, from: nat)
    requires IsWalk(g, p) && from < |p|
    ensures IsWalk(g, p[from..])
  {
    var q := p[from..];
    forall i | 0 <= i < |q| - 1 ensures q[i] in g && q[i + 1] in g[q[i]] {
      var k := from + i;
      assert p[k] in g && p[k + 1] in g[p[k]];
    }
  }

  /** A walk that starts on a placed node stays placed and moves strictly to the front. */
  lemma {:induction false} WalkDescends(g: Graph, order: seq<string>, p: seq<string>, at: nat) returns (last: nat)
    requires DependenciesFirst(g, order) && IsWalk(g, p)
    requires at < |order| && order[at] == p[0]
    ensures last < |order| && order[last] == p[|p| - 1]
    ensures last <= at && (|p| > 1 ==> last < at)
    decreases |p|
  {
    if |p| == 1 {
      last := at;
    } else {
      assert p[0 + 1] in g[p[0]];
      assert p[1] in order[..at];
      var next :| 0 <= next < at && order[next] == p[1];
      WalkSuffix(g, p, 1);
      last := WalkDescends(g, order, p[1..], next);
    }
  }

  lemma IndexUnique(s: seq<string>, i: nat, j: nat)
    requires Distinct(s) && i < |s| && j < |s| && s[i] == s[j]
    ensures i == j
  {
  }

  lemma PlacedIsNotStuck(g: Graph, order: seq<string>, n: string)
    requires Distinct(order) && DependenciesFirst(g, order) && n in order
    ensures !Stuck(g, n)
  {
    var at :| 0 <= at < |order| && order[at] == n;
    forall p | EscapesFrom(g, n, p) ensures false {
      var last := WalkDescends(g, order, p, at);
    }
    forall p | LoopsFrom(g, n, p) ensures false {
      var i :| 0 <= i < |p| - 1 && p[i] == p[|p| - 1];
      var head, tail := p[..i + 1], p[i..];
      WalkSuffix(g, p, i);
      var mid := WalkDescends(g, order, head, at);
      var last := WalkDescends(g, order, tail, mid);
      IndexUnique(order, mid, last);
    }
  }

  /** Nothing outside `placed` is ready. */
  ghost predicate Exhausted(g: Graph, placed: set<string>) {
    forall n :: n in g && n !in placed ==> exists d :: d in g[n] && d !in placed
  }

  /** From an unplaced node one can walk on through unplaced nodes, or out of the graph. */
  lemma {:induction false} WalkUnplaced(g: Graph, placed: set<string>, n: string, steps: nat) returns (p: seq<string>)
    requires Exhausted(g, placed) && placed <= g.Keys && n in g && n !in placed
    ensures EscapesFrom(g, n, p) ||
            (IsWalk(g, p) && p[0] == n && |p| == steps + 1 && forall x :: x in p ==> x in g.Keys - placed)
    decreases steps
  {
    if steps == 0 {
      p := [n];
    } else {
      var d :| d in g[n] && d !in placed;
      if d !in g {
        p := [n, d];
        assert EscapesFrom(g, n, p);
      } else {
        var q := WalkUnplaced(g, placed, d, steps - 1);
        p := [n] + q;
        assert p[|p| - 1] == q[|q| - 1];
        forall i | 0 <= i < |p| - 1 ensures p[i] in g && p[i + 1] in g[p[i]] {
          if i > 0 {
            assert q[i - 1] in g && q[(i - 1) + 1] in g[q[i - 1]];
          }
        }
      }
    }
  }

  lemma Pigeonhole(p: seq<string>, holes: set<string>)
    requires forall x :: x in p ==> x in holes
    requires |p| > |holes|
    ensures !Distinct(p)
  {
    if Distinct(p) {
      DistinctSize(p);
      SubsetSize(Elements(p), holes);
    }
  }

  lemma {:induction false} SubsetSize(a: set<string>, b: set<string>)
    requires a <= b
    ensures |a| <= |b|
  {
    if a != {} {
      var x :| x in a;
      SubsetSize(a - {x}, b - {x});
    }
  }

  lemma UnplacedIsStuck(g: Graph, placed: set<string>, n: string)
    requires Exhausted(g, placed) && placed <= g.Keys && n in g && n !in placed
    ensures Stuck(g, n)
  {
    var p := WalkUnplaced(g, placed, n, |g.Keys - placed|);
    if !EscapesFrom(g, n, p) {
      Pigeonhole(p, g.Keys - placed);
      var i, j :| 0 <= i < j < |p| && p[i] == p[j];
      var q := p[..j + 1];
      assert q[i] == q[|q| - 1];
      assert LoopsFrom(g, n, q);
    }
  }

  /** When the queue runs dry, the nodes left over are exactly those that reach a cycle or an undeclared name. */
  lemma UnresolvedIffStuck(g: Graph, order: seq<string>, n: string)
    requires Greedy(g, order) && Exhausted(g, Elements(order)) && n in g
    ensures n !in order <==> Stuck(g, n)
  {
    GreedyPlacesDependenciesFirst(g, order);
    if n in order {
      PlacedIsNotStuck(g, order, n);
    } else {
      UnplacedIsStuck(g, Elements(order), n);
    }
  }

  lemma OrderingExcludesStuck(g: Graph, order: seq<string>)
    requires IsOrdering(g, order)
    ensures !HasCycle(g) && !HasUndeclared(g)
  {
    forall p | IsWalk(g, p) && |p| >= 2 ensures p[0] != p[|p| - 1] {
      assert p[0] in g && p[0] in Elements(order);
      PlacedIsNotStuck(g, order, p[0]);
      assert p[0] == p[|p| - 1] ==> LoopsFrom(g, p[0], p);
    }
    forall n, d | n in g && d in g[n] ensures d in g {
      assert n in Elements(order);
      PlacedIsNotStuck(g, order, n);
      assert d !in g ==> EscapesFrom(g, n, [n, d]);
    }
  }

  lemma StuckMeansDefect(g: Graph, n: string)
    requires n in g && Stuck(g, n)
    ensures HasCycle(g) || HasUndeclared(g)
  {
    if p :| EscapesFrom(g, n, p) {
      var k := |p| - 2;
      assert |p| >= 2;
      assert p[k] in g && p[k + 1] in g[p[k]];
    } else {
      var p :| LoopsFrom(g, n, p);
      var i :| 0 <= i < |p| - 1 && p[i] == p[|p| - 1];
      var q := p[i..];
      WalkSuffix(g, p, i);
      assert IsWalk(g, q) && |q| >= 2 && q[0] == q[|q| - 1];
    }
  }

  // ----- Which node an error can name ---------------------------------------

  /** An order in which a map may yield the keys of the graph. */
  ghost predicate ListsKeys(g: Graph, scan: seq<string>) {
    Distinct(scan) && Elements(scan) == g.Keys
  }

  /** The node an error names when the degrees are scanned in this order. */
  ghost predicate IsFirstStuck(g: Graph, scan: seq<string>, n: string) {
    exists i :: 0 <= i < |scan| && scan[i] == n && Stuck(g, n) && forall j :: 0 <= j < i ==> !Stuck(g, scan[j])
  }

  ghost predicate OnCycle(g: Graph, n: string) {
    exists p :: IsWalk(g, p) && |p| >= 2 && p[0] == n == p[|p| - 1]
  }

  lemma {:induction false} KeysInSomeOrder(keys: set<string>) returns (s: seq<string>)
    ensures Distinct(s) && Elements(s) == keys
    decreases |keys|
  {
    if keys == {} {
      s := [];
    } else {
      var k :| k in keys;
      var rest := KeysInSomeOrder(keys - {k});
      s := [k] + rest;
      assert k !in Elements(rest) && forall x :: x in rest ==> x in Elements(rest);
      assert Elements(s) == {k} + Elements(rest);
    }
  }

  /** Every stuck node can be the one that is named: an order that yields it first does it. */
  lemma AnyStuckNodeCanBeNamed(g: Graph, n: string) returns (scan: seq<string>)
    requires n in g && Stuck(g, n)
    ensures ListsKeys(g, scan) && IsFirstStuck(g, scan, n)
  {
    var rest := KeysInSomeOrder(g.Keys - {n});
    scan := [n] + rest;
    assert n !in Elements(rest) && forall x :: x in rest ==> x in Elements(rest);
    assert Elements(scan) == {n} + Elements(rest);
    assert scan[0] == n;
  }

  /** The named node lies on a cycle, in whatever order the map is scanned, if and only if every stuck node does. */
  lemma NamesLieOnCyclesIff(g: Graph)
    ensures (forall scan, n :: ListsKeys(g, scan) && IsFirstStuck(g, scan, n) ==> OnCycle(g, n)) <==>
            (forall n :: n in g && Stuck(g, n) ==> OnCycle(g, n))
  {
    if forall scan, n :: ListsKeys(g, scan) && IsFirstStuck(g, scan, n) ==> OnCycle(g, n) {
      forall n | n in g && Stuck(g, n) ensures OnCycle(g, n) {
        var scan := AnyStuckNodeCanBeNamed(g, n);
      }
    }
    if forall n :: n in g && Stuck(g, n) ==> OnCycle(g, n) {
      forall scan, n | ListsKeys(g, scan) && IsFirstStuck(g, scan, n) ensures OnCycle(g, n) {
        assert n in Elements(scan);
      }
    }
  }

  /**
    A graph and an order of its keys for which the node that is named lies on no
    cycle, although the comment on the source function says so: it only depends on one.
   */
  lemma NamedNodeMayLieOffEveryCycle() returns (g: Graph, scan: seq<string>)
    ensures ListsKeys(g, scan) && IsFirstStuck(g, scan, "b") && !OnCycle(g, "b")
  {
    g := map["a" := ["a"], "b" := ["a"]];
    assert LoopsFrom(g, "b", ["b", "a", "a"]) by {
      var p := ["b", "a", "a"];
      assert p[1] == p[|p| - 1];
    }
    scan := AnyStuckNodeCanBeNamed(g, "b");
    forall p | IsWalk(g, p) && |p| >= 2 && p[0] == "b" ensures p[|p| - 1] != "b" {
      var k := |p| - 2;
      assert p[k] in g && p[k + 1] in g[p[k]];
      assert p[|p| - 1] == "a";
    }
  }

  // ----- Degree counting -------------------------------------------------

  function Occurrences(s: seq<string>, x: string): nat {
    multiset(s)[x]
  }

  lemma OccurrencesStep(s: seq<string>, i: nat, x: string)
    requires i < |s|
    ensures Occurrences(s[i..], x) == (if s[i] == x then 1 else 0) + Occurrences(s[i + 1..], x)
    ensures Occurrences(s[..i + 1], x) == Occurrences(s[..i], x) + (if s[i] == x then 1 else 0)
  {
    assert s[i..] == [s[i]] + s[i + 1..];
    assert s[..i + 1] == s[..i] + [s[i]];
  }

  /** How many dependency entries are not yet placed. */
  function Remaining(deps: seq<string>, placed: set<string>): nat {
    if deps == [] then 0 else (if deps[0] in placed then 0 else 1) + Remaining(deps[1..], placed)
  }

  lemma {:induction false} RemainingAfterPlacing(deps: seq<string>, placed: set<string>, x: string)
    requires x !in placed
    ensures Remaining(deps, placed) == Remaining(deps, placed + {x}) + Occurrences(deps, x)
  {
    if deps != [] {
      RemainingAfterPlacing(deps[1..], placed, x);
      assert deps == [deps[0]] + deps[1..];
    }
  }

  lemma {:induction false} RemainingZero(deps: seq<string>, placed: set<string>)
    ensures Remaining(deps, placed) == 0 <==> forall d :: d in deps ==> d in placed
  {
    if deps != [] {
      RemainingZero(deps[1..], placed);
      assert forall d :: d in deps <==> d == deps[0] || d in deps[1..];
    }
  }

  lemma {:induction false} RemainingAll(deps: seq<string>)
    ensures Remaining(deps, {}) == |deps|
  {
    if deps != [] {
      RemainingAll(deps[1..]);
    }
  }

  function Neighbours(adjacent: Graph, n: string): seq<string> {
    if n in adjacent then adjacent[n] else []
  }

  /** `adjacent` reverses the dependency entries of the nodes in `seen`, with multiplicity. */
  ghost predicate Reverses(g: Graph, adjacent: Graph, seen: set<string>)
    requires seen <= g.Keys
  {
    forall d, n :: Occurrences(Neighbours(adjacent, d), n) == if n in seen then Occurrences(g[n], d) else 0
  }

  method CountDegrees(g: Graph) returns (inDegree: map<string, nat>, adjacent: Graph)
    ensures inDegree.Keys == g.Keys
    ensures forall n :: n in g ==> inDegree[n] == |g[n]|
    ensures Reverses(g, adjacent, g.Keys)
  {
    inDegree := map n | n in g :: 0;
    adjacent := map n | n in g :: [];
    var rest := g.Keys;
    while rest != {}
      invariant rest <= g.Keys && inDegree.Keys == g.Keys
      invariant forall n :: n in g ==> inDegree[n] == if n in rest then 0 else |g[n]|
      invariant Reverses(g, adjacent, g.Keys - rest)
    {
      var node :| node in rest;
      inDegree, adjacent := CountNode(g, node, g.Keys - rest, inDegree, adjacent);
      assert g.Keys - (rest - {node}) == (g.Keys - rest) + {node};
      rest := rest - {node};
    }
    assert g.Keys - rest == g.Keys;
  }

  method CountNode(g: Graph, node: string, ghost seen: set<string>, inDegree0: map<string, nat>, adjacent0: Graph)
    returns (inDegree: map<string, nat>, adjacent: Graph)
    requires node in g && seen <= g.Keys && node !in seen
    requires node in inDegree0 && inDegree0[node] == 0
    requires Reverses(g, adjacent0, seen)
    ensures inDegree == inDegree0[node := |g[node]|]
    ensures Reverses(g, adjacent, seen + {node})
  {
    inDegree, adjacent := inDegree0, adjacent0;
    var deps := g[node];
    for i := 0 to |deps|
      invariant inDegree == inDegree0[node := i]
      invariant ReversesPartly(g, adjacent, seen, node, i)
    {
      var dep := deps[i];
      PushDependent(g, adjacent, seen, node, i);
      adjacent := adjacent[dep := Neighbours(adjacent, dep) + [node]];
      inDegree := inDegree[node := inDegree[node] + 1];
    }
    assert deps[..|deps|] == deps;
  }

  /** As `Reverses`, with the first `count` dependencies of `node` recorded as well. */
  ghost predicate ReversesPartly(g: Graph, adjacent: Graph, seen: set<string>, node: string, count: nat)
    requires seen <= g.Keys && node in g && count <= |g[node]|
  {
    forall d, n :: Occurrences(Neighbours(adjacent, d), n) == PartialCount(g, seen, node, count, d, n)
  }

  ghost function PartialCount(g: Graph, seen: set<string>, node: string, count: nat, d: string, n: string): nat
    requires seen <= g.Keys && node in g && count <= |g[node]|
  {
    if n in seen then Occurrences(g[n], d) else if n == node then Occurrences(g[node][..count], d) else 0
  }

  lemma PushDependent(g: Graph, adjacent: Graph, seen: set<string>, node: string, i: nat)
    requires seen <= g.Keys && node in g && node !in seen && i < |g[node]|
    requires ReversesPartly(g, adjacent, seen, node, i)
    ensures var dep := g[node][i];
            ReversesPartly(g, adjacent[dep := Neighbours(adjacent, dep) + [node]], seen, node, i + 1)
  {
    var dep := g[node][i];
    var longer := adjacent[dep := Neighbours(adjacent, dep) + [node]];
    forall d, n
      ensures Occurrences(Neighbours(longer, d), n) == PartialCount(g, seen, node, i + 1, d, n)
    {
      OccurrencesStep(g[node], i, d);
      assert Occurrences(Neighbours(adjacent, d), n) == PartialCount(g, seen, node, i, d, n);
    }
  }

  // ----- The main loop ---------------------------------------------------

  /** The work list holds, once each, the unplaced nodes with no dependency left. */
  ghost predicate QueueHoldsReady(g: Graph, inDegree: map<string, nat>, queue: seq<string>, placed: set<string>)
    requires inDegree.Keys == g.Keys
  {
    Distinct(queue) && forall n :: n in queue <==> n in g && n !in placed && inDegree[n] == 0
  }

  ghost predicate DegreesCount(g: Graph, inDegree: map<string, nat>, placed: set<string>)
    requires inDegree.Keys == g.Keys
  {
    forall n :: n in g ==> inDegree[n] == Remaining(g[n], placed)
  }

  lemma ReadyIffDegreeZero(g: Graph, inDegree: map<string, nat>, placed: set<string>, n: string)
    requires inDegree.Keys == g.Keys && DegreesCount(g, inDegree, placed)
    ensures Ready(g, placed, n) <==> n in g && n !in placed && inDegree[n] == 0
  {
    if n in g {
      RemainingZero(g[n], placed);
    }
  }

  /** The degree-zero nodes, in whatever order the map yields them. */
  method InitialQueue(g: Graph, inDegree: map<string, nat>) returns (queue: seq<string>)
    requires inDegree.Keys == g.Keys
    ensures QueueHoldsReady(g, inDegree, queue, {})
  {
    queue := [];
    var rest := inDegree.Keys;
    while rest != {}
      invariant rest <= inDegree.Keys
      invariant Distinct(queue)
      invariant forall n :: n in queue <==> n in g && n !in rest && inDegree[n] == 0
    {
      var n :| n in rest;
      rest := rest - {n};
      if inDegree[n] == 0 {
        queue := queue + [n];
      }
    }
  }

  /**
    Releases the dependents of the node placed last. The decrement cannot
    underflow, and a dependent enters the queue at most once: each entry still
    to be processed is one of the dependencies its node has left.
   */
  method Release(g: Graph, neighbours: seq<string>, ghost placed: set<string>, inDegree0: map<string, nat>, queue0: seq<string>)
    returns (inDegree: map<string, nat>, queue: seq<string>)
    requires inDegree0.Keys == g.Keys
    requires forall n :: n in g ==> inDegree0[n] == Remaining(g[n], placed) + Occurrences(neighbours, n)
    requires forall n :: n in placed && n in g ==> inDegree0[n] == 0
    requires forall n :: n in neighbours ==> n in g
    requires QueueHoldsReady(g, inDegree0, queue0, placed)
    ensures inDegree.Keys == g.Keys
    ensures DegreesCount(g, inDegree, placed)
    ensures QueueHoldsReady(g, inDegree, queue, placed)
  {
    inDegree, queue := inDegree0, queue0;
    assert neighbours[0..] == neighbours;
    for i := 0 to |neighbours|
      invariant inDegree.Keys == g.Keys
      invariant forall n :: n in g ==> inDegree[n] == Remaining(g[n], placed) + Occurrences(neighbours[i..], n)
      invariant forall n :: n in placed && n in g ==> inDegree[n] == 0
      invariant QueueHoldsReady(g, inDegree, queue, placed)
    {
      forall n ensures Occurrences(neighbours[i..], n) ==
                       (if neighbours[i] == n then 1 else 0) + Occurrences(neighbours[i + 1..], n) {
        OccurrencesStep(neighbours, i, n);
      }
      var neighbour := neighbours[i];
      assert neighbour in neighbours;
      inDegree := inDegree[neighbour := inDegree[neighbour] - 1];
      if inDegree[neighbour] == 0 {
        queue := queue + [neighbour];
      }
    }
  }

  /** What holds each time the main loop looks at the queue. */
  ghost predicate Progress(g: Graph, adjacent: Graph, inDegree: map<string, nat>, queue: seq<string>, ordered: seq<string>) {
    && inDegree.Keys == g.Keys
    && Reverses(g, adjacent, g.Keys)
    && Greedy(g, ordered)
    && DegreesCount(g, inDegree, Elements(ordered))
    && QueueHoldsReady(g, inDegree, queue, Elements(ordered))
    && Ascending(queue)
  }

  /** One round of the main loop: place the head of the queue, release its dependents, sort again. */
  method PlaceNext(g: Graph, adjacent: Graph, inDegree0: map<string, nat>, queue0: seq<string>, ordered0: seq<string>)
    returns (inDegree: map<string, nat>, queue: seq<string>, ordered: seq<string>)
    requires Progress(g, adjacent, inDegree0, queue0, ordered0) && queue0 != []
    ensures Progress(g, adjacent, inDegree, queue, ordered)
    ensures ordered == ordered0 + [queue0[0]]
  {
    var current := queue0[0];
    PlaceSmallest(g, inDegree0, queue0, ordered0);
    queue, ordered := queue0[1..], ordered0 + [current];
    assert Elements(ordered) == Elements(ordered0) + {current};
    assert current in queue0;
    ReadyIffDegreeZero(g, inDegree0, Elements(ordered0), current);
    BeforeRelease(g, inDegree0, adjacent, ordered0, current);
    HeadLeavesQueue(g, inDegree0, queue0, Elements(ordered0));
    inDegree, queue := Release(g, Neighbours(adjacent, current), Elements(ordered), inDegree0, queue);
    ghost var unsorted := queue;
    queue := Sort(queue);
    SortKeepsQueue(g, inDegree, unsorted, queue, Elements(ordered));
  }

  /** The scan that picks the node an error names: the first of positive degree in the order the map yields. */
  method NameUnresolved(inDegree: map<string, nat>, scan: seq<string>) returns (node: string)
    requires forall n :: n in scan <==> n in inDegree
    requires exists n :: n in inDegree && inDegree[n] > 0
    ensures exists i :: 0 <= i < |scan| && scan[i] == node && inDegree[node] > 0 && forall j :: 0 <= j < i ==> inDegree[scan[j]] == 0
  {
    for i := 0 to |scan|
      invariant forall j :: 0 <= j < i ==> inDegree[scan[j]] == 0
    {
      if inDegree[scan[i]] > 0 {
        return scan[i];
      }
    }
    node := "Unknown";
  }

  /** `scan` is the order in which the map of degrees happens to yield its keys. */
  method TopologicalSort(g: Graph, scan: seq<string>) returns (r: Outcome)
    requires ListsKeys(g, scan)
    ensures r.Ordered? ==> IsLeastOrdering(g, r.order)
    ensures r.Unresolved? ==> r.node in g && Stuck(g, r.node) && IsFirstStuck(g, scan, r.node)
    ensures r.Unresolved? <==> HasCycle(g) || HasUndeclared(g)
  {
    var inDegree, adjacent := CountDegrees(g);
    var queue := InitialQueue(g, inDegree);
    ghost var unsorted := queue;
    queue := Sort(queue);
    SortKeepsQueue(g, inDegree, unsorted, queue, {});
    forall n | n in g ensures inDegree[n] == Remaining(g[n], {}) {
      RemainingAll(g[n]);
    }

    var ordered: seq<string> := [];
    assert Elements(ordered) == {};
    while queue != []
      invariant Progress(g, adjacent, inDegree, queue, ordered)
      decreases |g.Keys - Elements(ordered)|
    {
      ghost var before := ordered;
      inDegree, queue, ordered := PlaceNext(g, adjacent, inDegree, queue, ordered);
      PlacingShrinksRest(g, before, ordered);
    }

    QueueEmptyMeansExhausted(g, inDegree, Elements(ordered));
    GreedyPlacesDependenciesFirst(g, ordered);
    DistinctSize(ordered);
    if |ordered| != |g| {
      LeftoverHasDegree(g, inDegree, ordered);
      assert forall n :: n in scan <==> n in Elements(scan);
      var node := NameUnresolved(inDegree, scan);
      forall n | n in g ensures inDegree[n] > 0 <==> Stuck(g, n) {
        DegreeIffStuck(g, inDegree, ordered, n);
      }
      StuckMeansDefect(g, node);
      r := Unresolved(node);
    } else {
      SameSizeSubset(Elements(ordered), g.Keys);
      GreedyIsLeast(g, ordered);
      OrderingExcludesStuck(g, ordered);
      r := Ordered(ordered);
    }
  }

  lemma PlacingShrinksRest(g: Graph, before: seq<string>, after: seq<string>)
    requires Greedy(g, after) && before != after && |after| == |before| + 1 && after[..|before|] == before
    ensures |g.Keys - Elements(after)| < |g.Keys - Elements(before)|
  {
    var x := after[|before|];
    assert Ready(g, Elements(after[..|before|]), x);
    assert after == before + [x];
    assert x in after && x in g.Keys - Elements(before);
    assert forall y :: y in before ==> y in after;
    ProperSubsetSize(g.Keys - Elements(after), g.Keys - Elements(before));
  }

  lemma HeadLeavesQueue(g: Graph, inDegree: map<string, nat>, queue: seq<string>, placed: set<string>)
    requires inDegree.Keys == g.Keys && QueueHoldsReady(g, inDegree, queue, placed) && queue != []
    ensures QueueHoldsReady(g, inDegree, queue[1..], placed + {queue[0]})
  {
    forall n ensures n in queue[1..] <==> n in queue && n != queue[0] {
      if n in queue && n != queue[0] {
        var i :| 0 <= i < |queue| && queue[i] == n;
        assert queue[1..][i - 1] == n;
      }
    }
  }

  lemma {:induction false} ProperSubsetSize(a: set<string>, b: set<string>)
    requires a < b
    ensures |a| < |b|
  {
    var x :| x in b && x !in a;
    SubsetSize(a, b - {x});
  }

  lemma SameSizeSubset(a: set<string>, b: set<string>)
    requires a <= b && |a| == |b|
    ensures a == b
  {
    if a != b {
      ProperSubsetSize(a, b);
    }
  }

  lemma SortKeepsQueue(g: Graph, inDegree: map<string, nat>, before: seq<string>, after: seq<string>, placed: set<string>)
    requires inDegree.Keys == g.Keys && QueueHoldsReady(g, inDegree, before, placed)
    requires multiset(before) == multiset(after)
    ensures QueueHoldsReady(g, inDegree, after, placed)
  {
    forall n ensures n in after <==> n in before {
      assert n in after <==> n in multiset(after);
      assert n in before <==> n in multiset(before);
    }
    DistinctStays(before, after);
  }

  /** Taking the head of the sorted queue is the greedy choice. */
  lemma PlaceSmallest(g: Graph, inDegree: map<string, nat>, queue: seq<string>, ordered: seq<string>)
    requires inDegree.Keys == g.Keys && DegreesCount(g, inDegree, Elements(ordered))
    requires QueueHoldsReady(g, inDegree, queue, Elements(ordered)) && Ascending(queue) && queue != []
    requires Greedy(g, ordered)
    ensures Greedy(g, ordered + [queue[0]])
  {
    var longer := ordered + [queue[0]];
    assert queue[0] in queue;
    ReadyIffDegreeZero(g, inDegree, Elements(ordered), queue[0]);
    forall m | Ready(g, Elements(ordered), m) ensures AtMost(queue[0], m) {
      ReadyIffDegreeZero(g, inDegree, Elements(ordered), m);
      assert m in queue;
      var k :| 0 <= k < |queue| && queue[k] == m;
      LessTotal(queue[0], m);
      if Less(m, queue[0]) {
        LessAsymmetric(m, queue[0]);
      }
    }
    forall i | 0 <= i < |longer|
      ensures && Ready(g, Elements(longer[..i]), longer[i])
              && forall m :: Ready(g, Elements(longer[..i]), m) ==> AtMost(longer[i], m)
    {
      if i < |ordered| {
        assert longer[..i] == ordered[..i] && longer[i] == ordered[i];
      } else {
        assert longer[..i] == ordered;
      }
    }
  }

  lemma BeforeRelease(g: Graph, inDegree: map<string, nat>, adjacent: Graph, ordered: seq<string>, current: string)
    requires inDegree.Keys == g.Keys && DegreesCount(g, inDegree, Elements(ordered)) && Reverses(g, adjacent, g.Keys)
    requires Greedy(g, ordered) && Ready(g, Elements(ordered), current)
    ensures var placed := Elements(ordered) + {current};
      && (forall n :: n in g ==> inDegree[n] == Remaining(g[n], placed) + Occurrences(Neighbours(adjacent, current), n))
      && (forall n :: n in placed && n in g ==> inDegree[n] == 0)
    ensures forall n :: n in Neighbours(adjacent, current) ==> n in g
  {
    var placed := Elements(ordered) + {current};
    forall n | n in g
      ensures inDegree[n] == Remaining(g[n], placed) + Occurrences(Neighbours(adjacent, current), n)
    {
      RemainingAfterPlacing(g[n], Elements(ordered), current);
      assert Occurrences(Neighbours(adjacent, current), n) == Occurrences(g[n], current);
    }
    forall n | n in placed && n in g ensures inDegree[n] == 0 {
      if n == current {
        RemainingZero(g[n], Elements(ordered));
      } else {
        PlacedHasNoDegree(g, inDegree, ordered, n);
      }
    }
    forall n | n in Neighbours(adjacent, current) ensures n in g {
      assert Occurrences(Neighbours(adjacent, current), n) > 0;
    }
  }

  lemma PlacedHasNoDegree(g: Graph, inDegree: map<string, nat>, ordered: seq<string>, n: string)
    requires inDegree.Keys == g.Keys && DegreesCount(g, inDegree, Elements(ordered))
    requires Greedy(g, ordered) && n in g
    ensures n in ordered ==> inDegree[n] == 0
  {
    GreedyPlacesDependenciesFirst(g, ordered);
    RemainingZero(g[n], Elements(ordered));
    if n in ordered {
      var i :| 0 <= i < |ordered| && ordered[i] == n;
      assert forall d :: d in g[n] ==> d in ordered[..i];
    }
  }

  lemma QueueEmptyMeansExhausted(g: Graph, inDegree: map<string, nat>, placed: set<string>)
    requires inDegree.Keys == g.Keys && DegreesCount(g, inDegree, placed)
    requires QueueHoldsReady(g, inDegree, [], placed)
    ensures Exhausted(g, placed)
  {
    forall n | n in g && n !in placed ensures exists d :: d in g[n] && d !in placed {
      var none: seq<string> := [];
      assert n !in none;
      RemainingZero(g[n], placed);
    }
  }

  lemma LeftoverHasDegree(g: Graph, inDegree: map<string, nat>, ordered: seq<string>)
    requires inDegree.Keys == g.Keys && DegreesCount(g, inDegree, Elements(ordered))
    requires QueueHoldsReady(g, inDegree, [], Elements(ordered))
    requires Distinct(ordered) && Elements(ordered) <= g.Keys && |ordered| != |g|
    ensures exists n :: n in inDegree.Keys && inDegree[n] > 0
  {
    DistinctSize(ordered);
    assert Elements(ordered) != g.Keys;
    var n :| n in g && n !in Elements(ordered);
    var none: seq<string> := [];
    assert n !in none;
  }

  /** At the end exactly the nodes that reach a cycle or an undeclared name have a positive degree. */
  lemma DegreeIffStuck(g: Graph, inDegree: map<string, nat>, ordered: seq<string>, n: string)
    requires inDegree.Keys == g.Keys && DegreesCount(g, inDegree, Elements(ordered)) && n in g
    requires QueueHoldsReady(g, inDegree, [], Elements(ordered)) && Greedy(g, ordered)
    ensures inDegree[n] > 0 <==> Stuck(g, n)
  {
    QueueEmptyMeansExhausted(g, inDegree, Elements(ordered));
    GreedyPlacesDependenciesFirst(g, ordered);
    UnresolvedIffStuck(g, ordered, n);
    PlacedHasNoDegree(g, inDegree, ordered, n);
    if n !in ordered {
      var none: seq<string> := [];
      assert n !in none && n !in Elements(ordered);
    }
  }
}
