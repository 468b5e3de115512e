/** The search for an HTTP status in a graph of linked exceptions, which may be cyclic. */
module ExceptionSearch {
  import opened Wrappers

  type Id = nat

  /** An exception: the status of its response, the members of its group, its cause and its
      context. */
  datatype Exc = Exc(status: Option<int>, group: seq<Id>, cause: Option<Id>, context: Option<Id>)

  type Graph = map<Id, Exc>

  function Optional(link: Option<Id>): seq<Id> {
    if link.Some? then [link.value] else []
  }

  /** Everything an exception links to. */
  function Links(e: Exc): seq<Id> {
    e.group + Optional(e.cause) + Optional(e.context)
  }

  /** Every link leads to an exception. */
  ghost predicate Closed(g: Graph) {
    forall x :: x in g ==> forall y :: y in Links(g[x]) ==> y in g
  }

  /** A path of links from `x` to `y`. */
  ghost predicate Path(g: Graph, x: Id, y: Id, p: seq<Id>) {
    && p != [] && p[0] == x && p[|p| - 1] == y
    && (forall k :: 0 <= k < |p| ==> p[k] in g)
    && (forall k :: 0 < k < |p| ==> p[k] in Links(g[p[k - 1]]))
  }

  ghost predicate Reachable(g: Graph, x: Id, y: Id) {
    exists p :: Path(g, x, y, p)
  }

  lemma ReachableStep(g: Graph, x: Id, y: Id, z: Id)
    requires Closed(g) && Reachable(g, x, y) && y in g && z in Links(g[y])
    ensures Reachable(g, x, z)
  {
    var p :| Path(g, x, y, p);
    var q := p + [z];
    assert forall k :: 0 <= k < |p| ==> q[k] == p[k];
    assert Path(g, x, z, q);
  }

  /** A set that holds the start and is closed under links holds everything reachable. */
  lemma {:induction false} ClosedSetHolds(g: Graph, x: Id, y: Id, p: seq<Id>, s: set<Id>)
    requires Path(g, x, y, p) && x in s
    requires forall a :: a in s && a in g ==> forall b :: b in Links(g[a]) ==> b in s
    ensures y in s
    decreases |p|
  {
    if |p| <= 1 {
    } else {
      var q := p[..|p| - 1];
      assert forall k :: 0 <= k < |q| ==> q[k] == p[k];
      ClosedSetHolds(g, x, q[|q| - 1], q, s);
      assert p[|p| - 1] in Links(g[p[|p| - 2]]);
    }
  }

  /** Every stacked exception is reachable. */
  ghost predicate AllReachable(g: Graph, exc: Id, stack: seq<Id>) {
    forall x :: x in stack ==> x in g && Reachable(g, exc, x)
  }

  /** What a seen exception links to is seen or stacked, and no seen one carries a status. */
  ghost predicate Covered(g: Graph, seen: set<Id>, stack: seq<Id>) {
    && seen <= g.Keys
    && (forall x :: x in seen ==> g[x].status.None?)
    && (forall x, y :: x in seen && y in Links(g[x]) ==> y in seen || y in stack)
  }

  lemma SkipSeen(g: Graph, exc: Id, seen: set<Id>, rest: seq<Id>, current: Id)
    requires AllReachable(g, exc, rest + [current]) && Covered(g, seen, rest + [current])
    ensures AllReachable(g, exc, rest) && current in g && Reachable(g, exc, current)
    ensures current in seen ==> Covered(g, seen, rest)
  {
    assert forall x :: x in rest ==> x in rest + [current];
    assert forall x :: x in rest + [current] <==> x in rest || x == current;
  }

  lemma Expand(g: Graph, exc: Id, seen: set<Id>, rest: seq<Id>, current: Id)
    requires Closed(g) && current in g && g[current].status.None?
    requires AllReachable(g, exc, rest + [current]) && Covered(g, seen, rest + [current])
    ensures AllReachable(g, exc, rest + Links(g[current]))
    ensures Covered(g, seen + {current}, rest + Links(g[current]))
  {
    SkipSeen(g, exc, seen, rest, current);
    var next := rest + Links(g[current]);
    assert forall x :: x in next <==> x in rest || x in Links(g[current]);
    assert forall x :: x in rest + [current] <==> x in rest || x == current;
    forall y | y in Links(g[current])
      ensures y in g && Reachable(g, exc, y)
    {
      ReachableStep(g, exc, current, y);
    }
  }

  lemma NothingLeft(g: Graph, exc: Id, seen: set<Id>, x: Id)
    requires Covered(g, seen, []) && exc in seen && Reachable(g, exc, x)
    ensures x in g && g[x].status.None?
  {
    var p :| Path(g, exc, x, p);
    ClosedSetHolds(g, exc, x, p, seen);
  }

  lemma Shrinks(g: Graph, seen: set<Id>, current: Id)
    requires current in g && current !in seen
    ensures |g.Keys - (seen + {current})| < |g.Keys - seen|
  {
    assert g.Keys - (seen + {current}) == (g.Keys - seen) - {current};
  }

  lemma LinksInOrder(rest: seq<Id>, e: Exc)
    ensures var s1 := rest + e.group;
            var s2 := if e.cause.Some? then s1 + [e.cause.value] else s1;
            (if e.context.Some? then s2 + [e.context.value] else s2) == rest + Links(e)
  {}

  /** The search ends on every graph. A status it returns is carried by a reachable exception,
      by the first one whenever that carries any; it returns None exactly when no reachable
      exception carries one. */
  method StatusCode(g: Graph, exc: Id) returns (status: Option<int>)
    requires Closed(g) && exc in g
    ensures status.Some? ==> exists x :: Reachable(g, exc, x) && x in g && g[x].status == status
    ensures status.None? <==> forall x :: Reachable(g, exc, x) && x in g ==> g[x].status.None?
    ensures g[exc].status.Some? ==> status == g[exc].status
  {
    assert Path(g, exc, exc, [exc]);
    var stack := [exc];
    var seen: set<Id> := {};
    while stack != []
      invariant AllReachable(g, exc, stack) && Covered(g, seen, stack)
      invariant exc in seen || stack == [exc]
      decreases |g.Keys - seen|, |stack|
    {
      var current := stack[|stack| - 1];
      ghost var rest := stack[..|stack| - 1];
      assert stack == rest + [current];
      stack := stack[..|stack| - 1];
      SkipSeen(g, exc, seen, rest, current);
      if current in seen {
        continue;
      }
      Shrinks(g, seen, current);
      if g[current].status.Some? {
        return g[current].status;
      }
      Expand(g, exc, seen, rest, current);
      seen := seen + {current};
      LinksInOrder(rest, g[current]);
      stack := stack + g[current].group;
      if g[current].cause.Some? {
        stack := stack + [g[current].cause.value];
      }
      if g[current].context.Some? {
        stack := stack + [g[current].context.value];
      }
    }
    forall x | Reachable(g, exc, x)
      ensures x in g && g[x].status.None?
    {
      NothingLeft(g, exc, seen, x);
    }
    status := None;
  }
}
