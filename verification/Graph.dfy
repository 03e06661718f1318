/** The dependency graph of bmake as fixed data, and paths in it. */
module Graph {
  import opened Wrappers

  /** Nodes are 0 .. size - 1; each has the lists of a GNode. */
  datatype Graph = Graph(size: nat,
                         childLists: seq<seq<nat>>, parentLists: seq<seq<nat>>,
                         predLists: seq<seq<nat>>, successorLists: seq<seq<nat>>,
                         cohortLists: seq<seq<nat>>)
  {
    function Children(n: nat): seq<nat> { At(childLists, n) }

    function Parents(n: nat): seq<nat> { At(parentLists, n) }

    function Preds(n: nat): seq<nat> { At(predLists, n) }

    function Successors(n: nat): seq<nat> { At(successorLists, n) }

    function Cohorts(n: nat): seq<nat> { At(cohortLists, n) }

    static function At(lists: seq<seq<nat>>, n: nat): seq<nat> {
      if n < |lists| then lists[n] else []
    }
  }

  /** What the parser guarantees: a child is linked to a parent once, links are
      entered in both directions, and a cohort has no cohorts of its own. */
  ghost predicate WellFormed(g: Graph) {
    && |g.childLists| == |g.parentLists| == |g.predLists| == |g.successorLists| == |g.cohortLists| == g.size
    && (forall n :: 0 <= n < g.size ==>
          && Below(g.Children(n), g.size) && Below(g.Parents(n), g.size) && Below(g.Preds(n), g.size)
          && Below(g.Successors(n), g.size) && Below(g.Cohorts(n), g.size)
          && NoDuplicates(g.Children(n)) && NoDuplicates(g.Parents(n)))
    && (forall p, c :: c in g.Children(p) <==> p in g.Parents(c))
    && (forall p, s :: s in g.Successors(p) <==> p in g.Preds(s))
    && (forall n, c :: c in g.Cohorts(n) ==> g.Cohorts(c) == [])
  }

  /** The edges the marking pass follows. */
  predicate MarkEdge(g: Graph, a: nat, b: nat) {
    b in g.Children(a) || b in g.Cohorts(a)
  }

  ghost predicate MarkPath(g: Graph, p: seq<nat>) {
    p != [] && forall i :: 0 <= i < |p| - 1 ==> MarkEdge(g, p[i], p[i + 1])
  }

  ghost predicate PathFrom(g: Graph, targs: seq<nat>, n: nat, p: seq<nat>) {
    MarkPath(g, p) && p[0] in targs && p[|p| - 1] == n
  }

  /** A target leads to n through children and cohorts. */
  ghost predicate Reachable(g: Graph, targs: seq<nat>, n: nat) {
    exists p :: PathFrom(g, targs, n, p)
  }

  lemma ReachableTarget(g: Graph, targs: seq<nat>, n: nat)
    requires n in targs
    ensures Reachable(g, targs, n)
  {
    assert PathFrom(g, targs, n, [n]);
  }

  lemma ReachableStep(g: Graph, targs: seq<nat>, a: nat, b: nat)
    requires Reachable(g, targs, a) && MarkEdge(g, a, b)
    ensures Reachable(g, targs, b)
  {
    var p :| PathFrom(g, targs, a, p);
    assert PathFrom(g, targs, b, p + [b]);
  }

  /** A set that holds the targets and is closed under the edges holds all that is reachable. */
  lemma {:induction false} ClosedHoldsPath(g: Graph, targs: seq<nat>, marked: set<nat>, p: seq<nat>, k: nat)
    requires MarkPath(g, p) && p[0] in targs && k < |p|
    requires forall n :: n in targs ==> n in marked
    requires forall a, b :: a in marked && MarkEdge(g, a, b) ==> b in marked
    ensures p[k] in marked
  {
    if k > 0 {
      ClosedHoldsPath(g, targs, marked, p, k - 1);
      assert MarkEdge(g, p[k - 1], p[k - 1 + 1]);
    }
  }

  lemma ClosedHoldsReachable(g: Graph, targs: seq<nat>, marked: set<nat>)
    requires forall n :: n in targs ==> n in marked
    requires forall a, b :: a in marked && MarkEdge(g, a, b) ==> b in marked
    ensures forall n :: Reachable(g, targs, n) ==> n in marked
  {
    forall n | Reachable(g, targs, n)
      ensures n in marked
    {
      var p :| PathFrom(g, targs, n, p);
      ClosedHoldsPath(g, targs, marked, p, |p| - 1);
    }
  }

  /** How many elements of a list are not yet in `done`. */
  function Outstanding(s: seq<nat>, done: set<nat>): nat {
    if s == [] then 0 else (if s[0] in done then 0 else 1) + Outstanding(s[1..], done)
  }

  lemma {:induction false} OutstandingNone(s: seq<nat>, done: set<nat>)
    ensures Outstanding(s, done) == 0 <==> forall k :: 0 <= k < |s| ==> s[k] in done
  {
    if s != [] {
      OutstandingNone(s[1..], done);
      assert forall k :: 1 <= k < |s| ==> s[k] == s[1..][k - 1];
    }
  }

  lemma {:induction false} OutstandingAll(s: seq<nat>)
    ensures Outstanding(s, {}) == |s|
  {
    if s != [] {
      OutstandingAll(s[1..]);
    }
  }

  /** One more element done lowers the count by one exactly where it is listed. */
  lemma {:induction false} OutstandingDone(s: seq<nat>, done: set<nat>, c: nat)
    requires NoDuplicates(s) && c !in done
    ensures Outstanding(s, done + {c}) == Outstanding(s, done) - (if c in s then 1 else 0)
  {
    if s != [] {
      assert forall i, j :: 0 <= i < j < |s[1..]| ==> s[1..][i] == s[i + 1] && s[1..][j] == s[j + 1];
      OutstandingDone(s[1..], done, c);
      if s[0] == c {
        assert c !in s[1..];
      }
    }
  }
}
