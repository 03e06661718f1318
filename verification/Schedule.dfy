/** What holds of a run of bmake's parallel scheduler, over the values of its
    variables. */
module Schedule {
  import opened Wrappers
  import opened Graph

  datatype Made = UNMADE | MADE | UPTODATE

  /** n cannot be examined before d: d is a child, or a predecessor that is
      itself going to be made. */
  predicate Dep(g: Graph, remake: set<nat>, n: nat, d: nat) {
    d in g.Children(n) || (d in g.Preds(n) && d in remake)
  }

  /** The counter of a marked node is its number of children not yet passed to
      Make_Update. */
  ghost predicate Counts(g: Graph, remake: set<nat>, unmade: seq<int>, updated: set<nat>) {
    && |unmade| == g.size
    && forall n :: n in remake ==> n < g.size && unmade[n] == Outstanding(g.Children(n), updated)
  }

  /** The fringe: marked, unexamined, without outstanding children, no node twice. */
  ghost predicate Fringe(g: Graph, remake: set<nat>, unmade: seq<int>, examined: set<nat>, toBeMade: seq<nat>) {
    && |unmade| == g.size && NoDuplicates(toBeMade)
    && forall n :: n in toBeMade ==> n in remake && n < g.size && n !in examined && unmade[n] == 0
  }

  /** A marked predecessor that is not made yet, or whose Make_Update is under
      way, holds n back. */
  ghost predicate Held(g: Graph, remake: set<nat>, made: seq<Made>, pending: set<nat>, n: nat) {
    exists p :: p in g.Preds(n) && p in remake && p < |made| && (made[p] == UNMADE || p in pending)
  }

  /** A marked node without outstanding children is examined, queued, or held back. */
  ghost predicate NoneLost(g: Graph, remake: set<nat>, unmade: seq<int>, made: seq<Made>,
                           examined: set<nat>, toBeMade: seq<nat>, pending: set<nat>) {
    forall n :: n in remake && n < |unmade| && unmade[n] == 0 && n !in examined ==>
      n in toBeMade || Held(g, remake, made, pending, n)
  }

  /** Nodes are marked together with their children; a made node has been
      updated; what an examined node depends on has been updated, and its
      marked predecessors are made. */
  ghost predicate Consistent(g: Graph, remake: set<nat>, made: seq<Made>, examined: set<nat>, updated: set<nat>, pending: set<nat>) {
    && |made| == g.size && updated <= examined <= remake
    && (forall n, c :: n in remake && c in g.Children(n) ==> c in remake)
    && (forall n :: n in remake && n < |made| && made[n] != UNMADE ==> n in updated || n in pending)
    && (forall n, d :: n in examined && Dep(g, remake, n, d) ==> d in updated)
    && (forall n, d :: n in examined && d in g.Preds(n) && d in remake ==> d < |made| && made[d] != UNMADE)
  }

  /** `order` lists the examined nodes, each once, after all they depend on. */
  ghost predicate Ordered(g: Graph, remake: set<nat>, examined: set<nat>, order: seq<nat>) {
    && NoDuplicates(order)
    && (forall n :: n in order <==> n in examined)
    && (forall i, d :: 0 <= i < |order| && Dep(g, remake, order[i], d) ==> d in order[..i])
  }

  /** Examining a node whose dependencies have all been examined keeps the order. */
  lemma ExamineKeepsOrder(g: Graph, remake: set<nat>, examined: set<nat>, order: seq<nat>, n: nat)
    requires Ordered(g, remake, examined, order) && n !in examined
    requires forall d :: Dep(g, remake, n, d) ==> d in examined
    ensures Ordered(g, remake, examined + {n}, order + [n])
  {
    var order' := order + [n];
    forall i, d | 0 <= i < |order'| && Dep(g, remake, order'[i], d)
      ensures d in order'[..i]
    {
      if i < |order| {
        assert order'[..i] == order[..i];
      } else {
        assert order'[..i] == order;
      }
    }
  }

  /** Make_Update(c) on the counters: one less at every marked parent. */
  lemma UpdateKeepsCounts(g: Graph, remake: set<nat>, unmade: seq<int>, unmade': seq<int>, updated: set<nat>, c: nat)
    requires WellFormed(g) && Counts(g, remake, unmade, updated) && c !in updated
    requires |unmade'| == g.size
    requires forall n :: n in remake && n < g.size ==> unmade'[n] == unmade[n] - (if n in g.Parents(c) then 1 else 0)
    ensures Counts(g, remake, unmade', updated + {c})
  {
    forall n | n in remake
      ensures n < g.size && unmade'[n] == Outstanding(g.Children(n), updated + {c})
    {
      OutstandingDone(g.Children(n), updated, c);
    }
  }

  /** A node not yet updated keeps its marked parents waiting and its marked
      parents and successors unexamined. */
  lemma ParentIsWaiting(g: Graph, remake: set<nat>, unmade: seq<int>, made: seq<Made>,
                        examined: set<nat>, updated: set<nat>, pending: set<nat>, c: nat)
    requires WellFormed(g) && Counts(g, remake, unmade, updated) && c !in updated
    requires Consistent(g, remake, made, examined, updated, pending)
    ensures forall p :: p in g.Parents(c) && p in remake ==> p < g.size && unmade[p] >= 1 && p !in examined
    ensures c in remake ==> forall s :: s in g.Successors(c) ==> s !in examined
  {
    forall p | p in g.Parents(c) && p in remake
      ensures p < g.size && unmade[p] >= 1 && p !in examined
    {
      assert Dep(g, remake, p, c);
      OutstandingDone(g.Children(p), updated, c);
    }
    forall s | s in g.Successors(c) && c in remake
      ensures s !in examined
    {
      assert Dep(g, remake, s, c);
    }
  }

  /** All children of a node with counter zero have been updated. */
  lemma ZeroMeansUpdated(g: Graph, remake: set<nat>, unmade: seq<int>, updated: set<nat>, n: nat)
    requires Counts(g, remake, unmade, updated) && n in remake
    ensures n < g.size && (unmade[n] == 0 <==> forall c :: c in g.Children(n) ==> c in updated)
  {
    OutstandingNone(g.Children(n), updated);
    var s := g.Children(n);
    assert (forall k :: 0 <= k < |s| ==> s[k] in updated) <==> forall c :: c in s ==> c in updated;
  }

  /** After Make_Update(c): what c alone held back has been queued. */
  lemma UpdateLosesNone(g: Graph, remake: set<nat>, unmade: seq<int>, unmade': seq<int>, made: seq<Made>,
                        examined: set<nat>, queue: seq<nat>, queue': seq<nat>, c: nat)
    requires NoneLost(g, remake, unmade, made, examined, queue, {c})
    requires |unmade| == |unmade'| && WellFormed(g)
    requires forall n :: n in queue ==> n in queue'
    requires forall n :: n in remake && n < |unmade| && unmade'[n] == 0 && unmade[n] != 0 ==> n in queue'
    requires forall n :: n in g.Successors(c) && n in remake && n < |unmade| && unmade'[n] == 0 && n !in examined ==> n in queue'
    ensures NoneLost(g, remake, unmade', made, examined, queue', {})
  {
    forall n | n in remake && n < |unmade'| && unmade'[n] == 0 && n !in examined
      ensures n in queue' || Held(g, remake, made, {}, n)
    {
      if n !in queue' {
        assert Held(g, remake, made, {c}, n);
        var p :| p in g.Preds(n) && p in remake && p < |made| && (made[p] == UNMADE || p in {c});
        assert p != c by {
          assert n !in g.Successors(c);
        }
      }
    }
  }

  lemma ListsOk(g: Graph, c: nat)
    requires WellFormed(g)
    ensures NoDuplicates(g.Parents(c)) && Below(g.Parents(c), g.size) && Below(g.Successors(c), g.size) && Below(g.Preds(c), g.size)
  {
  }

  lemma UpdateKeepsConsistent(g: Graph, remake: set<nat>, made: seq<Made>, examined: set<nat>, updated: set<nat>, c: nat)
    requires Consistent(g, remake, made, examined, updated, {c}) && c in examined
    ensures Consistent(g, remake, made, examined, updated + {c}, {}) && c in remake
  {
  }

  /** What Make_Update looks for among the successors. */
  predicate Restrained(remake: set<nat>, unmade: seq<int>, made: seq<Made>, n: nat) {
    n in remake && n < |unmade| && n < |made| && unmade[n] == 0 && made[n] == UNMADE
  }

  /** Nodes not examined are not made. */
  lemma UnexaminedUnmade(g: Graph, remake: set<nat>, made: seq<Made>, examined: set<nat>, updated: set<nat>, c: nat)
    requires Consistent(g, remake, made, examined, updated, {c}) && c in examined
    ensures |made| == g.size
    ensures forall n :: n in remake && n < g.size && n !in examined ==> made[n] == UNMADE
  {
  }

  /** Taking the first node off the fringe: only that node is no longer queued. */
  lemma FringeTail(g: Graph, remake: set<nat>, unmade: seq<int>, made: seq<Made>, examined: set<nat>, queue: seq<nat>)
    requires queue != [] && Fringe(g, remake, unmade, examined, queue)
    requires NoneLost(g, remake, unmade, made, examined, queue, {})
    ensures Fringe(g, remake, unmade, examined + {queue[0]}, queue[1..])
    ensures Fringe(g, remake, unmade, examined, queue[1..])
    ensures NoneLost(g, remake, unmade, made, examined + {queue[0]}, queue[1..], {queue[0]})
    ensures Held(g, remake, made, {}, queue[0]) ==> NoneLost(g, remake, unmade, made, examined, queue[1..], {})
  {
    hide Held;
    var gn, rest := queue[0], queue[1..];
    assert forall n :: n in queue <==> n == gn || n in rest;
    forall n | Held(g, remake, made, {}, n)
      ensures Held(g, remake, made, {gn}, n)
    {
      HeldMore(g, remake, made, {gn}, n);
    }
  }

  lemma FringeHead(g: Graph, remake: set<nat>, unmade: seq<int>, made: seq<Made>,
                   examined: set<nat>, updated: set<nat>, queue: seq<nat>)
    requires queue != [] && Fringe(g, remake, unmade, examined, queue)
    requires Consistent(g, remake, made, examined, updated, {})
    ensures |unmade| == |made| == g.size
    ensures queue[0] in remake && queue[0] < g.size && queue[0] !in examined && unmade[queue[0]] == 0
    ensures made[queue[0]] == UNMADE
  {
    assert queue[0] in queue;
  }

  lemma HeldMore(g: Graph, remake: set<nat>, made: seq<Made>, pending: set<nat>, n: nat)
    requires Held(g, remake, made, {}, n)
    ensures Held(g, remake, made, pending, n)
  {
  }

  /** A queued node that no predecessor holds back may be examined: all its
      dependencies are updated and its marked predecessors made. */
  lemma ReadyToExamine(g: Graph, remake: set<nat>, unmade: seq<int>, made: seq<Made>,
                       examined: set<nat>, updated: set<nat>, n: nat)
    requires Counts(g, remake, unmade, updated) && WellFormed(g)
    requires Consistent(g, remake, made, examined, updated, {})
    requires n in remake && n < g.size && unmade[n] == 0 && !Held(g, remake, made, {}, n)
    ensures forall d :: Dep(g, remake, n, d) ==> d in updated && d in examined
    ensures Consistent(g, remake, made, examined + {n}, updated, {n})
  {
    ZeroMeansUpdated(g, remake, unmade, updated, n);
    forall d | d in g.Preds(n) && d in remake
      ensures d < |made| && made[d] != UNMADE
    {
      assert Below(g.Preds(n), g.size);
    }
  }

  /** Examining the first node of the fringe, when nothing holds it back. */
  lemma ExamineFirst(g: Graph, remake: set<nat>, unmade: seq<int>, made: seq<Made>,
                     examined: set<nat>, order: seq<nat>, updated: set<nat>, queue: seq<nat>)
    requires WellFormed(g) && Counts(g, remake, unmade, updated) && Ordered(g, remake, examined, order)
    requires Consistent(g, remake, made, examined, updated, {})
    requires queue != [] && Fringe(g, remake, unmade, examined, queue) && !Held(g, remake, made, {}, queue[0])
    requires NoneLost(g, remake, unmade, made, examined, queue, {})
    ensures var n := queue[0];
            && Fringe(g, remake, unmade, examined + {n}, queue[1..])
            && NoneLost(g, remake, unmade, made, examined + {n}, queue[1..], {n})
            && Consistent(g, remake, made, examined + {n}, updated, {n})
            && Ordered(g, remake, examined + {n}, order + [n])
  {
    hide WellFormed, Ordered, Counts, Consistent, Fringe, NoneLost, Held, Dep;
    FringeHead(g, remake, unmade, made, examined, updated, queue);
    FringeTail(g, remake, unmade, made, examined, queue);
    ReadyToExamine(g, remake, unmade, made, examined, updated, queue[0]);
    ExamineKeepsOrder(g, remake, examined, order, queue[0]);
  }

  /** Every examined node is updated, stopped, running or being dealt with, and
      only one of these; each node runs at most one job. */
  ghost predicate Accounted(examined: set<nat>, updated: set<nat>, stopped: set<nat>, jobs: seq<nat>, pending: set<nat>) {
    && NoDuplicates(jobs)
    && (forall n :: n in examined <==> n in updated || n in stopped || n in jobs || n in pending)
    && (forall n :: n in jobs ==> n !in updated && n !in stopped && n !in pending)
    && updated !! stopped && updated !! pending && stopped !! pending
  }

  lemma AccountExamined(examined: set<nat>, updated: set<nat>, stopped: set<nat>, jobs: seq<nat>, n: nat)
    requires Accounted(examined, updated, stopped, jobs, {}) && n !in examined
    ensures Accounted(examined + {n}, updated, stopped, jobs, {n})
    ensures |examined + {n}| == |examined| + 1
  {
  }

  lemma AccountUpdated(examined: set<nat>, updated: set<nat>, stopped: set<nat>, jobs: seq<nat>, n: nat)
    requires Accounted(examined, updated, stopped, jobs, {n})
    ensures n in examined && n !in updated
    ensures Accounted(examined, updated + {n}, stopped, jobs, {})
  {
  }

  lemma AccountStopped(examined: set<nat>, updated: set<nat>, stopped: set<nat>, jobs: seq<nat>, n: nat)
    requires Accounted(examined, updated, stopped, jobs, {n})
    ensures Accounted(examined, updated, stopped + {n}, jobs, {}) && n in examined
    ensures |stopped + {n}| == |stopped| + 1
  {
  }

  lemma AccountStarted(examined: set<nat>, updated: set<nat>, stopped: set<nat>, jobs: seq<nat>, n: nat)
    requires Accounted(examined, updated, stopped, jobs, {n})
    ensures Accounted(examined, updated, stopped, jobs + [n], {})
  {
  }

  lemma AccountReaped(examined: set<nat>, updated: set<nat>, stopped: set<nat>, jobs: seq<nat>, k: nat)
    requires k < |jobs| && Accounted(examined, updated, stopped, jobs, {})
    ensures Accounted(examined, updated, stopped, jobs[..k] + jobs[k + 1..], {jobs[k]})
  {
    var rest := jobs[..k] + jobs[k + 1..];
    assert forall j :: 0 <= j < |rest| ==> rest[j] == if j < k then jobs[j] else jobs[j + 1];
    assert forall j :: 0 <= j < |jobs| && j != k ==> jobs[j] == if j < k then rest[j] else rest[j - 1];
  }

  /** A node not recorded as made no longer has to be an exception. */
  lemma NotPending(g: Graph, remake: set<nat>, unmade: seq<int>, made: seq<Made>,
                   examined: set<nat>, updated: set<nat>, queue: seq<nat>, n: nat)
    requires Consistent(g, remake, made, examined, updated, {n}) && n in examined
    requires n < |made| && made[n] == UNMADE
    requires NoneLost(g, remake, unmade, made, examined, queue, {n})
    ensures Consistent(g, remake, made, examined, updated, {})
    ensures NoneLost(g, remake, unmade, made, examined, queue, {})
  {
    forall k | k in remake && k < |unmade| && unmade[k] == 0 && k !in examined && k !in queue
      ensures Held(g, remake, made, {}, k)
    {
      assert Held(g, remake, made, {n}, k);
    }
  }

  /** Recording a pending node as made keeps everything. */
  lemma MadeKeeps(g: Graph, remake: set<nat>, unmade: seq<int>, made: seq<Made>,
                  examined: set<nat>, updated: set<nat>, queue: seq<nat>, n: nat, how: Made)
    requires Consistent(g, remake, made, examined, updated, {n}) && n < |made| && how != UNMADE
    requires NoneLost(g, remake, unmade, made, examined, queue, {n})
    ensures Consistent(g, remake, made[n := how], examined, updated, {n})
    ensures NoneLost(g, remake, unmade, made[n := how], examined, queue, {n})
  {
    forall k | k in remake && k < |unmade| && unmade[k] == 0 && k !in examined && k !in queue
      ensures Held(g, remake, made[n := how], {n}, k)
    {
      assert Held(g, remake, made, {n}, k);
      var p :| p in g.Preds(k) && p in remake && p < |made| && (made[p] == UNMADE || p in {n});
      assert p < |made[n := how]|;
    }
  }

  /** A running node is not recorded as made, and may become the pending one. */
  lemma RunningUnmade(g: Graph, remake: set<nat>, unmade: seq<int>, made: seq<Made>, examined: set<nat>,
                      updated: set<nat>, stopped: set<nat>, jobs: seq<nat>, queue: seq<nat>, k: nat)
    requires Consistent(g, remake, made, examined, updated, {}) && k < |jobs|
    requires Accounted(examined, updated, stopped, jobs, {})
    requires NoneLost(g, remake, unmade, made, examined, queue, {})
    requires forall n :: n in remake ==> n < g.size
    ensures jobs[k] < |made| && made[jobs[k]] == UNMADE
    ensures Consistent(g, remake, made, examined, updated, {jobs[k]})
    ensures NoneLost(g, remake, unmade, made, examined, queue, {jobs[k]})
  {
    var n := jobs[k];
    assert n in jobs;
    forall m | m in remake && m < |unmade| && unmade[m] == 0 && m !in examined && m !in queue
      ensures Held(g, remake, made, {n}, m)
    {
      HeldMore(g, remake, made, {n}, m);
    }
  }

  lemma MarkedInRange(g: Graph, remake: set<nat>, unmade: seq<int>, updated: set<nat>)
    requires Counts(g, remake, unmade, updated)
    ensures forall n :: n in remake ==> n < g.size
  {
  }
}
