/** Which marked nodes are never examined when a run is over. */
module Blocked {
  import opened Wrappers
  import opened Graph
  import opened Expand
  import opened Schedule

  ghost predicate Walk(g: Graph, remake: set<nat>, p: seq<nat>) {
    p != [] && forall i :: 0 <= i < |p| - 1 ==> Dep(g, remake, p[i], p[i + 1])
  }

  /** The walk ends in a failed node, in a cycle, or at a predecessor that was
      passed to Make_Update without ever being recorded as made. */
  ghost predicate DeadEnd(g: Graph, remake: set<nat>, failed: set<nat>, silent: set<nat>, p: seq<nat>) {
    && Walk(g, remake, p) && |p| >= 2
    && var d := p[|p| - 1];
       || d in failed
       || (d in silent && d in g.Preds(p[|p| - 2]))
       || d in p[..|p| - 1]
  }

  ghost predicate Stuck(g: Graph, remake: set<nat>, failed: set<nat>, silent: set<nat>, n: nat) {
    exists p :: DeadEnd(g, remake, failed, silent, p) && p[0] == n
  }

  /** A run is over: nothing runs and nothing is queued. */
  ghost predicate Over(g: Graph, remake: set<nat>, unmade: seq<int>, made: seq<Made>,
                       examined: set<nat>, order: seq<nat>, updated: set<nat>, failed: set<nat>) {
    && WellFormed(g)
    && Counts(g, remake, unmade, updated)
    && NoneLost(g, remake, unmade, made, examined, [], {})
    && Consistent(g, remake, made, examined, updated, {})
    && Ordered(g, remake, examined, order)
    && (forall n :: n in examined <==> n in updated || n in failed) && updated !! failed
  }

  /** Updated, but not recorded as made: the commands of these nodes started no shell. */
  ghost function Silent(made: seq<Made>, updated: set<nat>): set<nat> {
    set n | n in updated && n < |made| && made[n] == UNMADE
  }

  /** Along a walk from an examined node the order of examination goes down. */
  lemma {:induction false} WalkDescends(g: Graph, remake: set<nat>, examined: set<nat>, order: seq<nat>,
                                        p: seq<nat>, i: nat, a: nat, k: nat) returns (b: nat)
    requires Ordered(g, remake, examined, order) && Walk(g, remake, p)
    requires a < |order| && i <= k < |p| && order[a] == p[i]
    ensures b <= a && order[b] == p[k] && (i < k ==> b < a)
    decreases k
  {
    if i == k {
      b := a;
    } else {
      var c := WalkDescends(g, remake, examined, order, p, i, a, k - 1);
      assert Dep(g, remake, p[k - 1], p[k - 1 + 1]);
      assert Dep(g, remake, order[c], p[k]);
      b :| 0 <= b < c && order[..c][b] == p[k];
    }
  }

  lemma StuckNotExamined(g: Graph, remake: set<nat>, unmade: seq<int>, made: seq<Made>,
                         examined: set<nat>, order: seq<nat>, updated: set<nat>, failed: set<nat>, p: seq<nat>)
    requires Over(g, remake, unmade, made, examined, order, updated, failed)
    requires DeadEnd(g, remake, failed, Silent(made, updated), p)
    ensures p[0] !in examined
  {
    if p[0] in examined {
      var a :| 0 <= a < |order| && order[a] == p[0];
      var k := |p| - 2;
      var b := WalkDescends(g, remake, examined, order, p, 0, a, k);
      assert Dep(g, remake, p[k], p[k + 1]);
      assert order[b] in examined && p[k + 1] in updated;
      if p[k + 1] in p[..k + 1] {
        var i :| 0 <= i < k + 1 && p[i] == p[k + 1];
        var ai := WalkDescends(g, remake, examined, order, p, 0, a, i);
        var bi := WalkDescends(g, remake, examined, order, p, i, ai, k + 1);
        assert false;
      }
    }
  }

  /** One step towards what blocks an unexamined node. */
  lemma Blocker(g: Graph, remake: set<nat>, unmade: seq<int>, made: seq<Made>,
                examined: set<nat>, order: seq<nat>, updated: set<nat>, failed: set<nat>, n: nat) returns (d: nat)
    requires Over(g, remake, unmade, made, examined, order, updated, failed)
    requires n in remake && n !in examined
    ensures Dep(g, remake, n, d) && d in remake && d < g.size
    ensures d !in examined || d in failed || (d in Silent(made, updated) && d in g.Preds(n))
  {
    ZeroMeansUpdated(g, remake, unmade, updated, n);
    if unmade[n] == 0 {
      assert Held(g, remake, made, {}, n);
      d :| d in g.Preds(n) && d in remake && d < |made| && made[d] == UNMADE;
    } else {
      d :| d in g.Children(n) && d !in updated;
    }
  }

  ghost function Elements(p: seq<nat>): set<nat> {
    set n | n in p
  }

  lemma {:induction false} DistinctSize(p: seq<nat>)
    requires NoDuplicates(p)
    ensures |Elements(p)| == |p|
  {
    if p != [] {
      var q, last := p[..|p| - 1], p[|p| - 1];
      DistinctSize(q);
      assert Elements(p) == Elements(q) + {last};
      assert last !in q;
    }
  }

  lemma DistinctBound(p: seq<nat>, size: nat)
    requires NoDuplicates(p) && Below(p, size)
    ensures |p| <= size
  {
    DistinctSize(p);
    SizeBound(Elements(p), size);
  }

  lemma DeadEndStuck(g: Graph, remake: set<nat>, failed: set<nat>, silent: set<nat>, p: seq<nat>)
    requires DeadEnd(g, remake, failed, silent, p)
    ensures Stuck(g, remake, failed, silent, p[0])
  {
  }

  /** Following blockers from an unexamined node reaches a dead end, since the
      graph is finite. */
  lemma {:induction false} FollowBlockers(g: Graph, remake: set<nat>, unmade: seq<int>, made: seq<Made>,
                                          examined: set<nat>, order: seq<nat>, updated: set<nat>, failed: set<nat>, p: seq<nat>)
    requires Over(g, remake, unmade, made, examined, order, updated, failed)
    requires Walk(g, remake, p) && NoDuplicates(p) && Below(p, g.size)
    requires p[|p| - 1] in remake && p[|p| - 1] !in examined
    ensures Stuck(g, remake, failed, Silent(made, updated), p[0])
    decreases g.size - |p|
  {
    hide Over, Dep, Silent;
    var d := Blocker(g, remake, unmade, made, examined, order, updated, failed, p[|p| - 1]);
    var q := p + [d];
    assert q[..|q| - 1] == p;
    if d in examined || d in p {
      DeadEndStuck(g, remake, failed, Silent(made, updated), q);
    } else {
      DistinctBound(q, g.size);
      FollowBlockers(g, remake, unmade, made, examined, order, updated, failed, q);
    }
  }

  /** When a run is over a marked node is unexamined exactly if it is stuck. */
  lemma UnexaminedIffStuck(g: Graph, remake: set<nat>, unmade: seq<int>, made: seq<Made>,
                           examined: set<nat>, order: seq<nat>, updated: set<nat>, failed: set<nat>, n: nat)
    requires Over(g, remake, unmade, made, examined, order, updated, failed) && n in remake
    ensures n !in examined <==> Stuck(g, remake, failed, Silent(made, updated), n)
  {
    if n !in examined {
      assert n < g.size;
      FollowBlockers(g, remake, unmade, made, examined, order, updated, failed, [n]);
    }
    if Stuck(g, remake, failed, Silent(made, updated), n) {
      var p :| DeadEnd(g, remake, failed, Silent(made, updated), p) && p[0] == n;
      StuckNotExamined(g, remake, unmade, made, examined, order, updated, failed, p);
    }
  }

  /** What is known before the run about its outcome: `doomed` are the nodes whose jobs
      fail if they are started, `quiet` those that are out of date and start no shell. */
  ghost predicate Foreseen(made: seq<Made>, updated: set<nat>, failed: set<nat>, doomed: set<nat>, quiet: set<nat>) {
    failed <= doomed && doomed !! updated && doomed !! quiet && Silent(made, updated) == updated * quiet
  }

  /** A walk from an examined node leads to updated ones. */
  lemma WalkEndsUpdated(g: Graph, remake: set<nat>, unmade: seq<int>, made: seq<Made>,
                        examined: set<nat>, order: seq<nat>, updated: set<nat>, failed: set<nat>, p: seq<nat>)
    requires Over(g, remake, unmade, made, examined, order, updated, failed)
    requires Walk(g, remake, p) && |p| >= 2
    ensures p[0] in examined ==> p[|p| - 1] in updated
  {
    if p[0] in examined {
      var a :| 0 <= a < |order| && order[a] == p[0];
      var k := |p| - 2;
      var b := WalkDescends(g, remake, examined, order, p, 0, a, k);
      assert Dep(g, remake, p[k], p[k + 1]);
      assert order[b] in examined;
    }
  }

  /** Which nodes are left over is decided before the run: it does not depend on the
      order in which jobs end, nor on how many run at a time. */
  lemma UnexaminedIffDoomed(g: Graph, remake: set<nat>, unmade: seq<int>, made: seq<Made>,
                            examined: set<nat>, order: seq<nat>, updated: set<nat>, failed: set<nat>,
                            doomed: set<nat>, quiet: set<nat>, n: nat)
    requires Over(g, remake, unmade, made, examined, order, updated, failed) && n in remake
    requires Foreseen(made, updated, failed, doomed, quiet)
    ensures n !in examined <==> Stuck(g, remake, doomed, quiet, n)
  {
    hide Over, Walk, Silent;
    var silent := Silent(made, updated);
    UnexaminedIffStuck(g, remake, unmade, made, examined, order, updated, failed, n);
    if n !in examined {
      var p :| DeadEnd(g, remake, failed, silent, p) && p[0] == n;
      DeadEndStuck(g, remake, doomed, quiet, p);
    }
    if Stuck(g, remake, doomed, quiet, n) {
      var p :| DeadEnd(g, remake, doomed, quiet, p) && p[0] == n;
      WalkEndsUpdated(g, remake, unmade, made, examined, order, updated, failed, p);
      assert n in examined ==> DeadEnd(g, remake, failed, silent, p);
      if DeadEnd(g, remake, failed, silent, p) {
        StuckNotExamined(g, remake, unmade, made, examined, order, updated, failed, p);
      }
    }
  }

  lemma RunOver(g: Graph, remake: set<nat>, unmade: seq<int>, made: seq<Made>,
                examined: set<nat>, order: seq<nat>, updated: set<nat>, failed: set<nat>)
    requires WellFormed(g) && Counts(g, remake, unmade, updated)
    requires NoneLost(g, remake, unmade, made, examined, [], {})
    requires Consistent(g, remake, made, examined, updated, {})
    requires Ordered(g, remake, examined, order)
    requires Accounted(examined, updated, failed, [], {})
    ensures Over(g, remake, unmade, made, examined, order, updated, failed)
  {
  }

  /** The counter is zero exactly if every marked node was examined. */
  lemma UnexaminedCount(g: Graph, remake: set<nat>, made: seq<Made>, examined: set<nat>, updated: set<nat>)
    requires Consistent(g, remake, made, examined, updated, {})
    ensures |remake| - |examined| >= 0
    ensures |remake| - |examined| == 0 <==> forall n :: n in remake ==> n in examined
  {
    var rest := remake - examined;
    assert remake == examined + rest && examined !! rest;
    assert |remake| == |examined| + |rest|;
    if rest != {} {
      var n :| n in rest;
    }
  }

  /** The marks are closed under children. */
  lemma ChildrenMarked(g: Graph, targs: seq<nat>, marked: set<nat>)
    requires forall n :: n in marked <==> Reachable(g, targs, n)
    ensures forall n, c :: n in marked && c in g.Children(n) ==> c in marked
  {
    hide Reachable;
    forall n, c | n in marked && c in g.Children(n)
      ensures c in marked
    {
      ReachableStep(g, targs, n, c);
    }
  }

  /** What the documentation promises: only failures and cycles leave a node out. */
  ghost predicate FailureOrCycle(g: Graph, remake: set<nat>, failed: set<nat>, n: nat) {
    exists p :: p != [] && p[0] == n && DeadEnd(g, remake, failed, {}, p)
  }

  lemma JoinWalks(g: Graph, remake: set<nat>, p: seq<nat>, q: seq<nat>)
    requires Walk(g, remake, p) && Walk(g, remake, q) && p[|p| - 1] == q[0]
    ensures Walk(g, remake, p[..|p| - 1] + q)
  {
    var r, k := p[..|p| - 1] + q, |p| - 1;
    forall i | 0 <= i < |r| - 1
      ensures Dep(g, remake, r[i], r[i + 1])
    {
      if i < k {
        assert Dep(g, remake, p[i], p[i + 1]);
      } else {
        assert Dep(g, remake, q[i - k], q[i - k + 1]);
      }
    }
  }

  /** A walk that comes to a node again goes through a cycle. */
  lemma RepeatIsCycle(g: Graph, remake: set<nat>, failed: set<nat>, p: seq<nat>, i: nat, j: nat)
    requires Walk(g, remake, p) && i < j < |p| && p[i] == p[j]
    ensures FailureOrCycle(g, remake, failed, p[0])
  {
    var q := p[..j + 1];
    assert q[..|q| - 1][i] == q[|q| - 1];
    assert Walk(g, remake, q);
    assert DeadEnd(g, remake, failed, {}, q) && q[0] == p[0];
  }

  /** The documented reading: exactly what a failure or a cycle blocks is left over. */
  ghost predicate Documented(g: Graph, remake: set<nat>, examined: set<nat>, failed: set<nat>) {
    forall n :: n in remake ==> (n !in examined <==> FailureOrCycle(g, remake, failed, n))
  }

  /** Every marked node with a marked predecessor in `quiet` is blocked by a failure
      or a cycle anyway. */
  ghost predicate Harmless(g: Graph, remake: set<nat>, doomed: set<nat>, quiet: set<nat>) {
    forall x, d :: x in remake && d in remake && d in quiet && d in g.Preds(x) ==> FailureOrCycle(g, remake, doomed, x)
  }

  /** The exact condition, over what is known before the run. */
  lemma DocumentedIff(g: Graph, remake: set<nat>, unmade: seq<int>, made: seq<Made>,
                      examined: set<nat>, order: seq<nat>, updated: set<nat>, failed: set<nat>,
                      doomed: set<nat>, quiet: set<nat>)
    requires Over(g, remake, unmade, made, examined, order, updated, failed)
    requires Foreseen(made, updated, failed, doomed, quiet)
    ensures Documented(g, remake, examined, failed) <==> Harmless(g, remake, doomed, quiet)
  {
    hide Over, FailureOrCycle, Silent;
    if Documented(g, remake, examined, failed) {
      forall x, d | x in remake && d in remake && d in quiet && d in g.Preds(x)
        ensures FailureOrCycle(g, remake, doomed, x)
      {
        ExaminedAfter(g, remake, unmade, made, examined, order, updated, failed, x, d);
        if d in Silent(made, updated) {
          SilentHolds(g, remake, unmade, made, examined, order, updated, failed, x, d);
        }
        MoreFailures(g, remake, failed, doomed, x);
      }
    }
    if Harmless(g, remake, doomed, quiet) {
      forall n | n in remake
        ensures n !in examined <==> FailureOrCycle(g, remake, failed, n)
      {
        BlockedNotExamined(g, remake, unmade, made, examined, order, updated, failed, n);
        if n !in examined {
          MarkedBelow(g, remake, unmade, made, examined, order, updated, failed, [n]);
          FollowHarmless(g, remake, unmade, made, examined, order, updated, failed, doomed, quiet, [n]);
        }
      }
    }
  }

  lemma MoreFailures(g: Graph, remake: set<nat>, failed: set<nat>, doomed: set<nat>, n: nat)
    requires failed <= doomed
    ensures FailureOrCycle(g, remake, failed, n) ==> FailureOrCycle(g, remake, doomed, n)
  {
    hide Walk;
    if FailureOrCycle(g, remake, failed, n) {
      var p :| p != [] && p[0] == n && DeadEnd(g, remake, failed, {}, p);
      assert DeadEnd(g, remake, doomed, {}, p);
    }
  }

  lemma SilentHolds(g: Graph, remake: set<nat>, unmade: seq<int>, made: seq<Made>,
                    examined: set<nat>, order: seq<nat>, updated: set<nat>, failed: set<nat>, x: nat, d: nat)
    requires Over(g, remake, unmade, made, examined, order, updated, failed)
    requires d in Silent(made, updated) && d in g.Preds(x)
    ensures x !in examined
  {
    assert Walk(g, remake, [x, d]);
    StuckNotExamined(g, remake, unmade, made, examined, order, updated, failed, [x, d]);
  }

  lemma BlockedNotExamined(g: Graph, remake: set<nat>, unmade: seq<int>, made: seq<Made>,
                           examined: set<nat>, order: seq<nat>, updated: set<nat>, failed: set<nat>, n: nat)
    requires Over(g, remake, unmade, made, examined, order, updated, failed)
    ensures FailureOrCycle(g, remake, failed, n) ==> n !in examined
  {
    hide Over, Walk, Silent;
    if FailureOrCycle(g, remake, failed, n) {
      var p :| p != [] && p[0] == n && DeadEnd(g, remake, failed, {}, p);
      assert DeadEnd(g, remake, failed, Silent(made, updated), p);
      StuckNotExamined(g, remake, unmade, made, examined, order, updated, failed, p);
    }
  }

  lemma MarkedBelow(g: Graph, remake: set<nat>, unmade: seq<int>, made: seq<Made>,
                    examined: set<nat>, order: seq<nat>, updated: set<nat>, failed: set<nat>, p: seq<nat>)
    requires Over(g, remake, unmade, made, examined, order, updated, failed)
    requires Walk(g, remake, p) && p[0] in remake
    ensures Below(p, g.size) && p[|p| - 1] in remake
  {
    forall k | 0 <= k < |p|
      ensures p[k] in remake && p[k] < g.size
    {
      WalkStaysMarked(g, remake, unmade, made, examined, order, updated, failed, p, k);
    }
  }

  /** From an unexamined node the blockers, and behind a silent predecessor the walk
      that makes it harmless, lead on until a failure or a cycle is met. */
  lemma {:induction false} FollowHarmless(g: Graph, remake: set<nat>, unmade: seq<int>, made: seq<Made>,
                                          examined: set<nat>, order: seq<nat>, updated: set<nat>, failed: set<nat>,
                                          doomed: set<nat>, quiet: set<nat>, p: seq<nat>)
    requires Over(g, remake, unmade, made, examined, order, updated, failed)
    requires Foreseen(made, updated, failed, doomed, quiet) && Harmless(g, remake, doomed, quiet)
    requires Walk(g, remake, p) && p[0] in remake
    requires p[|p| - 1] !in examined || (|p| >= 2 && p[|p| - 1] in doomed) || !NoDuplicates(p)
    ensures FailureOrCycle(g, remake, failed, p[0])
    decreases g.size - |p|
  {
    hide Over, Dep, Silent, FailureOrCycle, Below;
    var x := p[|p| - 1];
    MarkedBelow(g, remake, unmade, made, examined, order, updated, failed, p);
    if !NoDuplicates(p) {
      var i, j :| 0 <= i < j < |p| && p[i] == p[j];
      RepeatIsCycle(g, remake, failed, p, i, j);
    } else if x in examined {
      UpdatedOrFailed(g, remake, unmade, made, examined, order, updated, failed, x);
      FailureAtEnd(g, remake, failed, p);
    } else {
      DistinctBound(p, g.size);
      var r := NextBlocked(g, remake, unmade, made, examined, order, updated, failed, doomed, quiet, x);
      var q := p[..|p| - 1] + r;
      JoinWalks(g, remake, p, r);
      if !NoDuplicates(r) {
        var i, j :| 0 <= i < j < |r| && r[i] == r[j];
        assert q[|p| - 1 + i] == q[|p| - 1 + j];
      }
      assert q[0] == p[0];
      FollowHarmless(g, remake, unmade, made, examined, order, updated, failed, doomed, quiet, q);
    }
  }

  lemma UpdatedOrFailed(g: Graph, remake: set<nat>, unmade: seq<int>, made: seq<Made>,
                        examined: set<nat>, order: seq<nat>, updated: set<nat>, failed: set<nat>, n: nat)
    requires Over(g, remake, unmade, made, examined, order, updated, failed) && n in examined
    ensures n in updated || n in failed
  {
  }

  lemma FailureAtEnd(g: Graph, remake: set<nat>, failed: set<nat>, p: seq<nat>)
    requires Walk(g, remake, p) && |p| >= 2 && p[|p| - 1] in failed
    ensures FailureOrCycle(g, remake, failed, p[0])
  {
    hide Walk;
    assert DeadEnd(g, remake, failed, {}, p);
  }

  /** A walk from an unexamined node to the next one on the way to what blocks it. */
  lemma NextBlocked(g: Graph, remake: set<nat>, unmade: seq<int>, made: seq<Made>,
                    examined: set<nat>, order: seq<nat>, updated: set<nat>, failed: set<nat>,
                    doomed: set<nat>, quiet: set<nat>, x: nat) returns (r: seq<nat>)
    requires Over(g, remake, unmade, made, examined, order, updated, failed)
    requires Foreseen(made, updated, failed, doomed, quiet) && Harmless(g, remake, doomed, quiet)
    requires x in remake && x !in examined
    ensures Walk(g, remake, r) && |r| >= 2 && r[0] == x
    ensures r[|r| - 1] !in examined || r[|r| - 1] in doomed || !NoDuplicates(r)
  {
    hide Over, Dep, Silent, FailureOrCycle;
    var d := Blocker(g, remake, unmade, made, examined, order, updated, failed, x);
    r := [x, d];
    if d in Silent(made, updated) && d in g.Preds(x) {
      r := BlockedWalk(g, remake, doomed, x);
    }
  }

  lemma BlockedWalk(g: Graph, remake: set<nat>, doomed: set<nat>, x: nat) returns (r: seq<nat>)
    requires FailureOrCycle(g, remake, doomed, x)
    ensures Walk(g, remake, r) && |r| >= 2 && r[0] == x
    ensures r[|r| - 1] in doomed || !NoDuplicates(r)
  {
    r :| r != [] && r[0] == x && DeadEnd(g, remake, doomed, {}, r);
  }

  /** What an examined node depends on has been examined, and updated or failed. */
  lemma ExaminedAfter(g: Graph, remake: set<nat>, unmade: seq<int>, made: seq<Made>,
                      examined: set<nat>, order: seq<nat>, updated: set<nat>, failed: set<nat>, x: nat, d: nat)
    requires Over(g, remake, unmade, made, examined, order, updated, failed)
    requires d in remake && d in g.Preds(x)
    ensures x in examined ==> d in updated || d in failed
  {
    hide Counts, NoneLost, Consistent, WellFormed;
    if x in examined {
      var a :| 0 <= a < |order| && order[a] == x;
      assert Dep(g, remake, order[a], d);
    }
  }

  lemma {:induction false} WalkStaysMarked(g: Graph, remake: set<nat>, unmade: seq<int>, made: seq<Made>,
                                           examined: set<nat>, order: seq<nat>, updated: set<nat>, failed: set<nat>, p: seq<nat>, k: nat)
    requires Over(g, remake, unmade, made, examined, order, updated, failed)
    requires Walk(g, remake, p) && p[0] in remake && k < |p|
    ensures p[k] in remake
    decreases k
  {
    if k > 0 {
      WalkStaysMarked(g, remake, unmade, made, examined, order, updated, failed, p, k - 1);
      assert Dep(g, remake, p[k - 1], p[k - 1 + 1]);
    }
  }

  /** Target 2 has the children 0 and 1, and 0 is to be made before 1. */
  function OrderedPair(): Graph {
    Graph(3, [[], [], [0, 1]], [[2], [2], []], [[], [0], []], [[1], [], []], [[], [], []])
  }

  lemma {:induction false} OrderedPairDescends(remake: set<nat>, p: seq<nat>, i: nat, k: nat)
    requires Walk(OrderedPair(), remake, p) && i <= k < |p|
    ensures p[k] <= p[i] && (i < k ==> p[k] < p[i])
    decreases k
  {
    if i < k {
      OrderedPairDescends(remake, p, i, k - 1);
      assert Dep(OrderedPair(), remake, p[k - 1], p[k - 1 + 1]);
    }
  }

  lemma OrderedPairAcyclic(remake: set<nat>, n: nat)
    ensures !FailureOrCycle(OrderedPair(), remake, {}, n)
  {
    hide OrderedPair;
    forall p | p != [] && DeadEnd(OrderedPair(), remake, {}, {}, p)
      ensures false
    {
      var i :| 0 <= i < |p| - 1 && p[i] == p[|p| - 1];
      OrderedPairDescends(remake, p, i, |p| - 1);
    }
  }

  lemma OrderedPairLists()
    ensures var g := OrderedPair();
            |g.childLists| == |g.parentLists| == |g.predLists| == |g.successorLists| == |g.cohortLists| == g.size == 3
    ensures forall n: nat :: OrderedPair().Children(n) == if n == 2 then [0, 1] else []
    ensures forall n: nat :: OrderedPair().Parents(n) == if n < 2 then [2] else []
    ensures forall n: nat :: OrderedPair().Preds(n) == if n == 1 then [0] else []
    ensures forall n: nat :: OrderedPair().Successors(n) == if n == 0 then [1] else []
    ensures forall n: nat :: OrderedPair().Cohorts(n) == []
  {
  }

  lemma OrderedPairWellFormed()
    ensures WellFormed(OrderedPair())
  {
    hide OrderedPair, Graph.Children, Graph.Parents, Graph.Preds, Graph.Successors, Graph.Cohorts, Below, NoDuplicates;
    OrderedPairLists();
    ShortLists();
  }

  lemma ShortLists()
    ensures Below([], 3) && Below([0], 3) && Below([1], 3) && Below([2], 3) && Below([0, 1], 3)
    ensures NoDuplicates([]) && NoDuplicates([2]) && NoDuplicates([0, 1])
  {
  }

  /** Target 2 leads to all three nodes. */
  lemma OrderedPairReached()
    ensures forall n :: Reachable(OrderedPair(), [2], n) <==> n in {0, 1, 2}
  {
    hide OrderedPair, Graph.Children, Graph.Cohorts;
    OrderedPairLists();
    var g := OrderedPair();
    ReachableTarget(g, [2], 2);
    ReachableStep(g, [2], 2, 0);
    ReachableStep(g, [2], 2, 1);
    ClosedHoldsReachable(g, [2], {0, 1, 2});
  }

  /** Nothing holds back 0, and behind it 1 and 2 are stuck once it is silent. */
  lemma OrderedPairStuck(remake: set<nat>, made: seq<Made>, updated: set<nat>)
    requires remake == {0, 1, 2}
    ensures !Stuck(OrderedPair(), remake, {}, Silent(made, updated), 0)
    ensures 0 in Silent(made, updated) ==> forall n :: n == 1 || n == 2 ==> Stuck(OrderedPair(), remake, {}, Silent(made, updated), n)
  {
    hide OrderedPair, Graph.Children, Graph.Preds, Silent;
    OrderedPairLists();
    var g, silent := OrderedPair(), Silent(made, updated);
    forall p | p != [] && p[0] == 0
      ensures !DeadEnd(g, remake, {}, silent, p)
    {
      assert Walk(g, remake, p) && |p| >= 2 ==> Dep(g, remake, p[0], p[0 + 1]);
    }
    assert Dep(g, remake, 1, 0) && Dep(g, remake, 2, 1);
    assert Walk(g, remake, [1, 0]) && Walk(g, remake, [2, 1, 0]);
    if 0 in silent {
      DeadEndStuck(g, remake, {}, silent, [1, 0]);
      DeadEndStuck(g, remake, {}, silent, [2, 1, 0]);
    }
  }
}
