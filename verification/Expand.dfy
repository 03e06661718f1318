/** The marking pass of bmake, as values: what one visit does to the marks and
    to the list of nodes to examine. */
module Expand {
  import opened Wrappers
  import opened Graph

  /** The children MakeAddChild enqueues: those not marked yet. */
  function Unmarked(children: seq<nat>, marked: set<nat>): (r: seq<nat>)
    ensures forall n :: n in r <==> n in children && n !in marked
  {
    if children == [] then []
    else (if children[0] in marked then [] else [children[0]]) + Unmarked(children[1..], marked)
  }

  lemma UnmarkedStep(children: seq<nat>, marked: set<nat>, k: nat)
    requires k <= |children|
    ensures k == |children| ==> Unmarked(children[k..], marked) == []
    ensures k < |children| && children[k] in marked ==>
              Unmarked(children[k..], marked) == Unmarked(children[k + 1..], marked)
    ensures k < |children| && children[k] !in marked ==>
              Unmarked(children[k..], marked) == [children[k]] + Unmarked(children[k + 1..], marked)
    ensures children[0..] == children
  {
    if k < |children| {
      assert children[k..][1..] == children[k + 1..];
    }
  }

  /** Each queued node counts once, and once more for each cohort it will queue. */
  ghost function Weight(g: Graph, examine: seq<nat>): nat
  {
    if examine == [] then 0 else 1 + |g.Cohorts(examine[0])| + Weight(g, examine[1..])
  }

  /** The invariant of the pass: only reachable nodes are marked or queued, and
      whatever a marked node or the targets lead to is marked or queued. */
  ghost predicate Marking(g: Graph, targs: seq<nat>, marked: set<nat>, examine: seq<nat>) {
    && (forall n :: n in examine ==> n < g.size && Reachable(g, targs, n))
    && (forall n :: n in marked ==> n < g.size && Reachable(g, targs, n))
    && (forall n :: n in targs ==> n in marked || n in examine)
    && (forall a, b :: a in marked && MarkEdge(g, a, b) ==> b in marked || b in examine)
  }

  /** What is queued after a visit to the first node of the list. */
  function Visit(g: Graph, marked: set<nat>, examine: seq<nat>): seq<nat>
    requires examine != []
  {
    var gn := examine[0];
    var queue := g.Cohorts(gn) + examine[1..];
    if gn in marked then queue else queue + Unmarked(g.Children(gn), marked + {gn})
  }

  lemma VisitKeepsMarking(g: Graph, targs: seq<nat>, marked: set<nat>, examine: seq<nat>)
    requires WellFormed(g) && examine != [] && Marking(g, targs, marked, examine)
    ensures Marking(g, targs, marked + {examine[0]}, Visit(g, marked, examine))
  {
    hide Reachable, WellFormed;
    var gn := examine[0];
    var queue := Visit(g, marked, examine);
    assert gn in examine;
    EdgesInRange(g, gn);
    forall n | n in queue
      ensures n < g.size && Reachable(g, targs, n)
    {
      if n !in examine[1..] {
        assert MarkEdge(g, gn, n);
        ReachableStep(g, targs, gn, n);
      } else {
        assert n in examine;
      }
    }
    assert forall n :: n in examine ==> n == gn || n in examine[1..];
  }

  /** A target, or a child or cohort of a node already visited */
  ghost predicate FromEarlier(g: Graph, targs: seq<nat>, visited: seq<nat>, n: nat) {
    n in targs || exists m :: m in visited && MarkEdge(g, m, n)
  }

  /** The nodes were visited from the targets outwards. */
  ghost predicate Outwards(g: Graph, targs: seq<nat>, visited: seq<nat>) {
    NoDuplicates(visited) && forall i :: 0 <= i < |visited| ==> FromEarlier(g, targs, visited[..i], visited[i])
  }

  ghost predicate AllFromEarlier(g: Graph, targs: seq<nat>, visited: seq<nat>, examine: seq<nat>) {
    forall n :: n in examine ==> FromEarlier(g, targs, visited, n)
  }

  /** A visit goes outwards. */
  lemma VisitGoesOutwards(g: Graph, targs: seq<nat>, marked: set<nat>, visited: seq<nat>, examine: seq<nat>)
    requires examine != [] && Outwards(g, targs, visited) && AllFromEarlier(g, targs, visited, examine)
    requires forall n :: n in visited <==> n in marked
    ensures var gn := examine[0];
            var visited' := if gn in marked then visited else visited + [gn];
            && Outwards(g, targs, visited') && AllFromEarlier(g, targs, visited', Visit(g, marked, examine))
            && forall n :: n in visited' <==> n in marked + {gn}
  {
    var gn := examine[0];
    var visited' := if gn in marked then visited else visited + [gn];
    hide MarkEdge;
    forall i | 0 <= i < |visited'|
      ensures FromEarlier(g, targs, visited'[..i], visited'[i])
    {
      assert visited'[..i] == visited[..i];
    }
    assert gn in visited';
    forall n | n in Visit(g, marked, examine)
      ensures FromEarlier(g, targs, visited', n)
    {
      QueuedBy(g, marked, examine, n);
    }
  }

  lemma QueuedBy(g: Graph, marked: set<nat>, examine: seq<nat>, n: nat)
    requires examine != [] && n in Visit(g, marked, examine)
    ensures n in examine || MarkEdge(g, examine[0], n)
  {
  }

  /** The nodes of the list that wait for no child, in its order */
  function Leaves(visited: seq<nat>, unmade: seq<int>): seq<nat> {
    if visited == [] then []
    else
      var n := visited[|visited| - 1];
      Leaves(visited[..|visited| - 1], unmade) + if n < |unmade| && unmade[n] == 0 then [n] else []
  }

  lemma LeavesSnoc(visited: seq<nat>, n: nat, unmade: seq<int>)
    ensures Leaves(visited + [n], unmade) == Leaves(visited, unmade) + if n < |unmade| && unmade[n] == 0 then [n] else []
  {
    assert (visited + [n])[..|visited|] == visited;
  }

  lemma NothingVisited(g: Graph, targs: seq<nat>, unmade: seq<int>)
    ensures Outwards(g, targs, []) && AllFromEarlier(g, targs, [], targs) && Leaves([], unmade) == []
  {
  }

  lemma EdgesInRange(g: Graph, a: nat)
    requires WellFormed(g) && a < g.size
    ensures forall b: nat :: MarkEdge(g, a, b) ==> b < g.size
    ensures forall b: nat :: b in g.Cohorts(a) ==> g.Cohorts(b) == []
  {
    assert Below(g.Children(a), g.size) && Below(g.Cohorts(a), g.size);
  }

  lemma {:induction false} WeightOfCohorts(g: Graph, cohorts: seq<nat>, rest: seq<nat>)
    requires forall n :: n in cohorts ==> g.Cohorts(n) == []
    ensures Weight(g, cohorts + rest) == |cohorts| + Weight(g, rest)
    decreases |cohorts|
  {
    if cohorts == [] {
      assert cohorts + rest == rest;
    } else {
      assert (cohorts + rest)[1..] == cohorts[1..] + rest;
      WeightOfCohorts(g, cohorts[1..], rest);
    }
  }

  /** A visit to a node already marked makes the list lighter, although its
      cohorts are queued again. */
  lemma VisitLighter(g: Graph, marked: set<nat>, examine: seq<nat>)
    requires WellFormed(g) && examine != [] && examine[0] < g.size && examine[0] in marked
    ensures Weight(g, Visit(g, marked, examine)) < Weight(g, examine)
  {
    hide WellFormed;
    EdgesInRange(g, examine[0]);
    WeightOfCohorts(g, g.Cohorts(examine[0]), examine[1..]);
  }

  /** When nothing is left to examine, exactly the reachable nodes are marked. */
  lemma MarkingDone(g: Graph, targs: seq<nat>, marked: set<nat>)
    requires Marking(g, targs, marked, [])
    ensures forall n :: n in marked <==> Reachable(g, targs, n)
  {
    ClosedHoldsReachable(g, targs, marked);
  }

  lemma {:induction false} SizeBound(s: set<nat>, size: nat)
    requires forall n :: n in s ==> n < size
    ensures |s| <= size
  {
    if size == 0 {
      assert s == {};
    } else {
      var t := s - {size - 1};
      SizeBound(t, size - 1);
      assert s <= t + {size - 1};
    }
  }
}
