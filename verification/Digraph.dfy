/** Finite directed graphs: walks, cycles, reachability and topological orders. */
module Digraph {

  type Graph<T> = map<T, set<T>>

  predicate Edge<T>(g: Graph<T>, a: T, b: T) {
    a in g && b in g[a]
  }

  predicate Walk<T>(g: Graph<T>, p: seq<T>) {
    |p| > 0 && forall k :: 0 <= k < |p| - 1 ==> Edge(g, p[k], p[k + 1])
  }

  predicate WalkBetween<T>(g: Graph<T>, p: seq<T>, a: T, b: T) {
    Walk(g, p) && p[0] == a && p[|p| - 1] == b
  }

  /** A closed chain of at least one edge. */
  predicate Cycle<T>(g: Graph<T>, p: seq<T>) {
    Walk(g, p) && |p| >= 2 && p[0] == p[|p| - 1]
  }

  predicate Within<T>(p: seq<T>, s: set<T>) {
    forall k :: 0 <= k < |p| ==> p[k] in s
  }

  ghost predicate Acyclic<T(!new)>(g: Graph<T>, s: set<T>) {
    forall p :: Cycle(g, p) ==> !Within(p, s)
  }

  /** `b` can be reached from `a` along one edge or more. */
  ghost predicate Reaches<T(!new)>(g: Graph<T>, a: T, b: T) {
    exists p :: WalkBetween(g, p, a, b) && |p| >= 2
  }

  lemma ReachesEdge<T(!new)>(g: Graph<T>, a: T, b: T)
    requires Edge(g, a, b)
    ensures Reaches(g, a, b)
  {
    assert WalkBetween(g, [a, b], a, b);
  }

  lemma ReachesThenEdge<T(!new)>(g: Graph<T>, a: T, b: T, c: T)
    requires Reaches(g, a, b) && Edge(g, b, c)
    ensures Reaches(g, a, c)
  {
    var p :| WalkBetween(g, p, a, b) && |p| >= 2;
    assert WalkBetween(g, p + [c], a, c);
  }

  lemma ReachesTransitive<T(!new)>(g: Graph<T>, a: T, b: T, c: T)
    requires Reaches(g, a, b) && Reaches(g, b, c)
    ensures Reaches(g, a, c)
  {
    var p :| WalkBetween(g, p, a, b) && |p| >= 2;
    var q :| WalkBetween(g, q, b, c) && |q| >= 2;
    var r := p + q[1..];
    forall k | 0 <= k < |r| - 1
      ensures Edge(g, r[k], r[k + 1])
    {
      if k < |p| - 1 {
        assert Edge(g, p[k], p[k + 1]);
      } else {
        assert Edge(g, q[k - |p| + 1], q[k - |p| + 2]);
      }
    }
    assert WalkBetween(g, r, a, c);
  }

  /** A set that contains the successors of `a` and is closed under edges contains all `a` reaches. */
  lemma ClosedContainsReached<T(!new)>(g: Graph<T>, a: T, s: set<T>)
    requires forall b :: Edge(g, a, b) ==> b in s
    requires forall b, c :: b in s && Edge(g, b, c) ==> c in s
    ensures forall b :: Reaches(g, a, b) ==> b in s
  {
    forall b | Reaches(g, a, b)
      ensures b in s
    {
      var p :| WalkBetween(g, p, a, b) && |p| >= 2;
      WalkStaysInside(g, p, s);
    }
  }

  lemma {:induction false} WalkStaysInside<T(!new)>(g: Graph<T>, p: seq<T>, s: set<T>)
    requires Walk(g, p) && |p| >= 2
    requires forall b :: Edge(g, p[0], b) ==> b in s
    requires forall b, c :: b in s && Edge(g, b, c) ==> c in s
    ensures forall k :: 1 <= k < |p| ==> p[k] in s
  {
    assert Edge(g, p[0], p[1]);
    if |p| > 2 {
      assert forall k :: 0 <= k < |p| - 2 ==> Edge(g, p[1..][k], p[1..][k + 1]);
      WalkStaysInside(g, p[1..], s);
      assert forall k :: 2 <= k < |p| ==> p[k] == p[1..][k - 1];
    }
  }

  ghost predicate HasSuccessor<T(!new)>(g: Graph<T>, s: set<T>, a: T) {
    exists b :: b in s && Edge(g, a, b)
  }

  /** In a nonempty finite set where every element has a successor there is a cycle. */
  lemma NoSinkHasCycle<T(!new)>(g: Graph<T>, s: set<T>) returns (cycle: seq<T>)
    requires s != {}
    requires forall a :: a in s ==> HasSuccessor(g, s, a)
    ensures Cycle(g, cycle) && Within(cycle, s)
  {
    var a :| a in s;
    cycle := ExtendToCycle(g, s, [a]);
  }

  lemma ExtendToCycle<T(!new)>(g: Graph<T>, s: set<T>, p: seq<T>) returns (cycle: seq<T>)
    requires forall a :: a in s ==> HasSuccessor(g, s, a)
    requires Walk(g, p) && Within(p, s)
    ensures Cycle(g, cycle) && Within(cycle, s)
    decreases s - (set x | x in p)
  {
    assert p[|p| - 1] in s && HasSuccessor(g, s, p[|p| - 1]);
    var next :| next in s && Edge(g, p[|p| - 1], next);
    if next in p {
      var i :| 0 <= i < |p| && p[i] == next;
      CloseWalk(g, s, p, i);
      cycle := p[i..] + [next];
    } else {
      LengthenWalk(g, s, p, next);
      cycle := ExtendToCycle(g, s, p + [next]);
    }
  }

  lemma CloseWalk<T(!new)>(g: Graph<T>, s: set<T>, p: seq<T>, i: nat)
    requires Walk(g, p) && Within(p, s)
    requires i < |p| && Edge(g, p[|p| - 1], p[i])
    ensures Cycle(g, p[i..] + [p[i]]) && Within(p[i..] + [p[i]], s)
  {
  }

  lemma LengthenWalk<T(!new)>(g: Graph<T>, s: set<T>, p: seq<T>, next: T)
    requires Walk(g, p) && Within(p, s)
    requires next in s && next !in p && Edge(g, p[|p| - 1], next)
    ensures Walk(g, p + [next]) && Within(p + [next], s)
    ensures s - (set x | x in p + [next]) < s - (set x | x in p)
  {
    var longer := p + [next];
    assert longer[|p|] == next;
    assert next in s - (set x | x in p);
  }

  /** `order` lists `s` so that every edge inside `s` points to an earlier element. */
  ghost predicate TopologicalOrder<T(!new)>(g: Graph<T>, order: seq<T>, s: set<T>) {
    && (forall x :: x in order <==> x in s)
    && (forall i, j :: 0 <= i < j < |order| ==> order[i] != order[j])
    && forall k, b :: 0 <= k < |order| && b in s && Edge(g, order[k], b) ==> b in order[..k]
  }

  lemma OrderedIsAcyclic<T(!new)>(g: Graph<T>, order: seq<T>, s: set<T>)
    requires TopologicalOrder(g, order, s)
    ensures Acyclic(g, s)
  {
    forall p | Cycle(g, p) && Within(p, s)
      ensures false
    {
      var k :| 0 <= k < |order| && order[k] == p[0];
      WalkDescends(g, order, s, p, k);
    }
  }

  /** Along a walk in an ordered set the last element lies before the first one's position. */
  lemma {:induction false} WalkDescends<T(!new)>(g: Graph<T>, order: seq<T>, s: set<T>, p: seq<T>, k: nat)
    requires TopologicalOrder(g, order, s)
    requires Walk(g, p) && Within(p, s) && |p| >= 2
    requires k < |order| && order[k] == p[0]
    ensures p[|p| - 1] in order[..k]
    decreases |p|
  {
    assert Edge(g, order[k], p[1]);
    var j :| 0 <= j < k && order[j] == p[1];
    if |p| > 2 {
      WalkDescends(g, order, s, p[1..], j);
      assert order[..j] <= order[..k];
    }
  }

  lemma AnyMember<T>(s: set<T>) returns (x: T)
    requires s != {}
    ensures x in s
  {
    x :| x in s;
  }
}
