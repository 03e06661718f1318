/** `make.c` with the job accounting of `job.c`: the marking pass, Make_Update,
    MakeStartJobs and the main loop, over the variables they change.

    The fields of the graph nodes (flags, unmade, made) are kept as tables
    indexed by node.  Which nodes turn out to be up to date and which jobs fail
    is decided outside and fixed in advance, by any two sets: a node is examined
    at most once and its job ends at most once, so that is every outcome. */
module Make {
  import opened Wrappers
  import opened Graph
  import opened Expand
  import opened Schedule
  import opened Blocked

  class Maker {
    const g: Graph
    const maxJobs: nat
    const keepgoing: bool
    const noShell: set<nat> // nodes whose commands and flags leave no shell to start
    const upToDate: set<nat> // nodes Make_OODate finds up to date
    const failing: set<nat> // nodes whose job fails

    var remake: set<nat> // nodes with the REMAKE flag
    var unmade: seq<int>
    var made: seq<Made>
    var toBeMade: seq<nat>
    var numNodes: int

    var jobs: seq<nat> // the nodes of the running jobs
    var nJobs: int
    var jobFull: bool
    var errors: int
    var aborting: bool // ABORT_ERROR

    ghost var examined: set<nat> // nodes that reached Make_OODate
    ghost var order: seq<nat> // the same, in order
    ghost var updated: set<nat> // nodes passed to Make_Update
    ghost var stopped: set<nat> // nodes whose job ended without Make_Update
    ghost var atAbort: set<nat> // nodes examined when the run began to be aborted

    constructor (graph: Graph, slots: nat, keep: bool, noShell: set<nat>, upToDate: set<nat>, failing: set<nat>)
      requires WellFormed(graph)
      ensures g == graph && maxJobs == slots && keepgoing == keep && Fresh()
      ensures this.noShell == noShell && this.upToDate == upToDate && this.failing == failing
    {
      g, maxJobs, keepgoing := graph, slots, keep;
      this.noShell, this.upToDate, this.failing := noShell, upToDate, failing;
      remake, toBeMade, numNodes := {}, [], 0;
      unmade := seq(graph.size, n requires 0 <= n => |graph.Children(n)|);
      made := seq(graph.size, n => UNMADE);
      jobs, nJobs, jobFull, errors, aborting := [], 0, false, 0, false;
      examined, order, updated, stopped, atAbort := {}, [], {}, {}, {};
    }

    /** The state the parser and Job_Init leave. */
    ghost predicate Fresh()
      reads this
    {
      && WellFormed(g) && remake == {} && toBeMade == [] && numNodes == 0
      && |unmade| == g.size && (forall n :: 0 <= n < g.size ==> unmade[n] == |g.Children(n)|)
      && made == seq(g.size, n => UNMADE)
      && jobs == [] && nJobs == 0 && !jobFull && errors == 0 && !aborting
      && examined == {} && order == [] && updated == {} && stopped == {}
    }

    /** MakeAddChild for each child of gn. */
    method AddChildren(gn: nat, list: seq<nat>) returns (l: seq<nat>)
      ensures l == list + Unmarked(g.Children(gn), remake)
    {
      hide Unmarked;
      var children := g.Children(gn);
      l := list;
      UnmarkedStep(children, remake, 0);
      var k := 0;
      while k < |children|
        invariant 0 <= k <= |children|
        invariant l + Unmarked(children[k..], remake) == list + Unmarked(children, remake)
      {
        ghost var rest := Unmarked(children[k + 1..], remake);
        UnmarkedStep(children, remake, k);
        assert l + ([children[k]] + rest) == (l + [children[k]]) + rest;
        if children[k] !in remake {
          l := l + [children[k]];
        }
        k := k + 1;
      }
      UnmarkedStep(children, remake, k);
    }

    /** Make_ExpandUse: marks exactly what the targets lead to, counts it, and
        returns, each once, the marked nodes that wait for no child, in the order they
        were visited, which was from the targets outwards. */
    method ExpandUse(targs: seq<nat>) returns (ntargs: seq<nat>, ghost visited: seq<nat>)
      requires Fresh() && Below(targs, g.size)
      modifies this`remake, this`numNodes
      ensures forall n :: n in remake <==> Reachable(g, targs, n)
      ensures forall n :: n in remake ==> n < g.size
      ensures NoDuplicates(ntargs) && forall n :: n in ntargs <==> n in remake && unmade[n] == 0
      ensures Outwards(g, targs, visited) && ntargs == Leaves(visited, unmade) && forall n :: n in visited <==> n in remake
      ensures numNodes == |remake|
    {
      hide WellFormed, Reachable, Outwards, AllFromEarlier, Leaves;
      ntargs, visited := [], [];
      NothingVisited(g, targs, unmade);
      var examine := targs;
      forall n | n in targs ensures Reachable(g, targs, n) { ReachableTarget(g, targs, n); }
      while examine != []
        invariant Marking(g, targs, remake, examine)
        invariant Outwards(g, targs, visited) && AllFromEarlier(g, targs, visited, examine)
        invariant ntargs == Leaves(visited, unmade) && forall n :: n in visited <==> n in remake
        invariant NoDuplicates(ntargs)
        invariant forall n :: n in ntargs <==> n in remake && n < g.size && unmade[n] == 0
        invariant numNodes == |remake|
        decreases g.size - |remake|, Weight(g, examine)
      {
        var gn := examine[0];
        assert gn in examine;
        ghost var before, marked := examine, remake;
        VisitKeepsMarking(g, targs, remake, examine);
        VisitGoesOutwards(g, targs, remake, visited, examine);
        LeavesSnoc(visited, gn, unmade);
        if gn in remake {
          VisitLighter(g, remake, examine);
        }
        SizeBound(remake + {gn}, g.size);
        examine := g.Cohorts(gn) + examine[1..];
        if gn !in remake {
          remake := remake + {gn};
          visited := visited + [gn];
          numNodes := numNodes + 1;
          if unmade[gn] != 0 {
            examine := AddChildren(gn, examine);
          } else {
            assert g.Children(gn) == [];
            ntargs := ntargs + [gn];
          }
        }
        assert examine == Visit(g, marked, before);
        assert remake == marked + {gn};
      }
      MarkingDone(g, targs, remake);
    }

    /** The invariant of a run; `pending` holds the node, if any, that is being
        dealt with: examined, and neither running, updated nor stopped. */
    ghost predicate Core(pending: set<nat>)
      reads this
    {
      && WellFormed(g) && maxJobs >= 1
      && Counts(g, remake, unmade, updated)
      && Fringe(g, remake, unmade, examined, toBeMade)
      && NoneLost(g, remake, unmade, made, examined, toBeMade, pending)
      && Consistent(g, remake, made, examined, updated, pending)
      && Ordered(g, remake, examined, order)
      && numNodes == |remake| - |examined|
      && Accounted(examined, updated, stopped, jobs, pending)
      && Slots() && Errors() && Recorded()
    }

    /** What Make_Update finds recorded for a node */
    ghost function Outcome(n: nat): Made {
      if n in upToDate then UPTODATE else if n in noShell then UNMADE else MADE
    }

    /** Updated nodes are recorded as their outcome says, and only nodes that are
        out of date and start a shell have jobs, of which those that fail, or end
        in an aborted run, are stopped. */
    ghost predicate Recorded()
      reads this`made, this`updated, this`jobs, this`stopped, this`errors, this`aborting
    {
      && (forall n :: n in updated ==> n < |made| && made[n] == Outcome(n) && (Outcome(n) == MADE ==> n !in failing))
      && (forall n :: n in jobs || n in stopped ==> Outcome(n) == MADE)
      && (forall n :: n in stopped ==> n in failing || aborting)
      && (errors > 0 <==> stopped * failing != {})
    }

    /** The job table: as many running jobs as counted, never more than slots. */
    ghost predicate Slots()
      reads this`jobs, this`nJobs, this`jobFull
    {
      nJobs == |jobs| <= maxJobs && (jobFull <==> nJobs == maxJobs)
    }

    ghost predicate Errors()
      reads this`errors, this`aborting, this`stopped
    {
      && 0 <= errors && (aborting <==> errors > 0 && !keepgoing)
      && (keepgoing ==> errors == |stopped|)
    }

    ghost predicate Valid()
      reads this
    {
      Core({})
    }

    /** Make_Update(cgn): one child less for every marked parent, which is queued
        when that was the last; then the successors that had restrained
        themselves are queued.  The counter never becomes negative, so "Graph
        cycles through" is not reported here. */
    method MakeUpdate(cgn: nat)
      requires Core({cgn}) && cgn < |made| && made[cgn] == Outcome(cgn) && (Outcome(cgn) == MADE ==> cgn !in failing)
      modifies this`unmade, this`toBeMade, this`updated
      ensures Valid() && updated == old(updated) + {cgn} && old(toBeMade) <= toBeMade
      ensures |unmade| == old(|unmade|) && forall n :: 0 <= n < |unmade| ==> unmade[n] == old(unmade[n]) - ChildrenLess(cgn, n)
    {
      hide WellFormed, NoneLost, Ordered, Counts, Fringe, Consistent, Accounted;
      AccountUpdated(examined, updated, stopped, jobs, cgn);
      ParentIsWaiting(g, remake, unmade, made, examined, updated, {cgn}, cgn);
      ListsOk(g, cgn);
      UnexaminedUnmade(g, remake, made, examined, updated, cgn);
      UpdateKeepsConsistent(g, remake, made, examined, updated, cgn);
      UpdateParents(cgn);
      UpdateSuccessors(cgn);
      UpdateLosesNone(g, remake, old(unmade), unmade, made, examined, old(toBeMade), toBeMade, cgn);
      updated := updated + {cgn};
    }

    /** By how much Make_Update(cgn) lowers the counter of n */
    function ChildrenLess(cgn: nat, n: nat): nat
      reads this`remake
    {
      if n in remake && n in g.Parents(cgn) then 1 else 0
    }

    method UpdateParents(cgn: nat)
      requires WellFormed(g) && Counts(g, remake, unmade, updated) && cgn !in updated
      requires Consistent(g, remake, made, examined, updated, {cgn})
      requires Fringe(g, remake, unmade, examined, toBeMade)
      modifies this`unmade, this`toBeMade
      ensures |unmade| == g.size == |old(unmade)|
      ensures Counts(g, remake, unmade, updated + {cgn})
      ensures Fringe(g, remake, unmade, examined, toBeMade)
      ensures old(toBeMade) <= toBeMade
      ensures forall n :: 0 <= n < g.size ==> unmade[n] == old(unmade[n]) - ChildrenLess(cgn, n)
      ensures forall n :: n in remake && n < g.size && unmade[n] == 0 && old(unmade[n]) != 0 ==> n in toBeMade
    {
      hide WellFormed, Outstanding;
      var parents := g.Parents(cgn);
      ParentIsWaiting(g, remake, unmade, made, examined, updated, {cgn}, cgn);
      hide Consistent;
      ListsOk(g, cgn);
      var k := 0;
      while k < |parents|
        invariant 0 <= k <= |parents| && |unmade| == g.size
        invariant forall n :: 0 <= n < g.size ==>
                    unmade[n] == old(unmade[n]) - (if n in remake && n in parents[..k] then 1 else 0)
        invariant NoDuplicates(toBeMade) && old(toBeMade) <= toBeMade
        invariant forall n :: n in toBeMade <==>
                    n in old(toBeMade) || (n in parents[..k] && n in remake && n < g.size && unmade[n] == 0)
      {
        var pgn := parents[k];
        assert pgn !in parents[..k] && parents[..k + 1] == parents[..k] + [pgn];
        if pgn in remake {
          unmade := unmade[pgn := unmade[pgn] - 1];
          if unmade[pgn] == 0 {
            toBeMade := toBeMade + [pgn];
          }
          assert unmade[pgn] >= 0;
        }
        k := k + 1;
      }
      assert parents[..k] == parents;
      UpdateKeepsCounts(g, remake, old(unmade), unmade, updated, cgn);
    }

    method UpdateSuccessors(cgn: nat)
      requires |unmade| == |made| == g.size && Below(g.Successors(cgn), g.size)
      requires Fringe(g, remake, unmade, examined, toBeMade)
      requires forall s :: s in g.Successors(cgn) ==> s !in examined
      modifies this`toBeMade
      ensures Fringe(g, remake, unmade, examined, toBeMade)
      ensures old(toBeMade) <= toBeMade
      ensures forall s :: s in g.Successors(cgn) && Restrained(remake, unmade, made, s) ==> s in toBeMade
    {
      var successors := g.Successors(cgn);
      var k := 0;
      while k < |successors|
        invariant 0 <= k <= |successors|
        invariant Fringe(g, remake, unmade, examined, toBeMade)
        invariant old(toBeMade) <= toBeMade
        invariant forall j :: 0 <= j < k && Restrained(remake, unmade, made, successors[j]) ==> successors[j] in toBeMade
      {
        var succ := successors[k];
        assert succ in successors;
        if succ in remake && unmade[succ] == 0 && made[succ] == UNMADE && succ !in toBeMade {
          toBeMade := toBeMade + [succ];
        }
        k := k + 1;
      }
    }

    /** The loop over the predecessors in MakeStartJobs. */
    method PredecessorUnmade(gn: nat) returns (held: bool)
      requires |made| == g.size && Below(g.Preds(gn), g.size)
      ensures held <==> Held(g, remake, made, {}, gn)
    {
      var preds := g.Preds(gn);
      var k := 0;
      while k < |preds|
        invariant 0 <= k <= |preds|
        invariant forall j :: 0 <= j < k ==> !(preds[j] in remake && preds[j] < |made| && made[preds[j]] == UNMADE)
      {
        var pgn := preds[k];
        assert pgn in preds;
        if pgn in remake && made[pgn] == UNMADE {
          return true;
        }
        k := k + 1;
      }
      return false;
    }

    /** The first node of the fringe is either dropped on the floor, held back by
        an unmade predecessor, or counted off and examined. */
    method TakeNext() returns (gn: nat, dropped: bool)
      requires Valid() && toBeMade != []
      modifies this`toBeMade, this`numNodes, this`examined, this`order
      ensures gn == old(toBeMade[0]) && toBeMade == old(toBeMade)[1..]
      ensures dropped ==> Valid() && examined == old(examined) && numNodes == old(numNodes)
      ensures !dropped ==> Core({gn}) && examined == old(examined) + {gn} && numNodes == old(numNodes) - 1
      ensures gn in remake && gn < |made| && made[gn] == UNMADE
    {
      hide WellFormed, Ordered, Counts, Consistent, Fringe, NoneLost, Held, Accounted, Dep, Errors, Slots, Recorded;
      gn := toBeMade[0];
      FringeHead(g, remake, unmade, made, examined, updated, toBeMade);
      ListsOk(g, gn);
      dropped := PredecessorUnmade(gn);
      if dropped {
        FringeTail(g, remake, unmade, made, examined, toBeMade);
      } else {
        numNodes := numNodes - 1;
        ExamineFirst(g, remake, unmade, made, examined, order, updated, toBeMade);
        AccountExamined(examined, updated, stopped, jobs, gn);
        examined, order := examined + {gn}, order + [gn];
      }
      toBeMade := toBeMade[1..];
    }

    /** Job_Full */
    predicate JobFull()
      reads this`aborting, this`jobFull
    {
      aborting || jobFull
    }

    /** The slot accounting of JobExec. */
    method JobExec(gn: nat)
      requires Core({gn}) && gn < |made| && made[gn] == UNMADE && !JobFull() && Outcome(gn) == MADE
      modifies this`jobs, this`nJobs, this`jobFull
      ensures Valid() && jobs == old(jobs) + [gn]
    {
      hide WellFormed, Ordered, Counts, Consistent, Fringe, NoneLost, Accounted, Errors;
      AccountStarted(examined, updated, stopped, jobs, gn);
      NotPending(g, remake, unmade, made, examined, updated, toBeMade, gn);
      nJobs := nJobs + 1;
      jobs := jobs + [gn];
      if nJobs == maxJobs {
        jobFull := true;
      }
    }

    /** Job_Make: either a shell is started, or the commands print nothing to run
        and JobStart passes the node to Make_Update at once, leaving `made` alone. */
    method JobMake(gn: nat)
      requires Core({gn}) && gn < |made| && made[gn] == UNMADE && !JobFull() && gn !in upToDate
      modifies this
      ensures Valid() && examined == old(examined) && remake == old(remake) && numNodes == old(numNodes)
      ensures made == old(made) && aborting == old(aborting) && atAbort == old(atAbort)
      ensures if gn in noShell then jobs == old(jobs) && updated == old(updated) + {gn}
              else jobs == old(jobs) + [gn] && updated == old(updated)
    {
      hide WellFormed, Ordered, Counts, Consistent, Fringe, NoneLost, Accounted;
      if gn in noShell {
        MakeUpdate(gn);
      } else {
        JobExec(gn);
      }
    }

    /** The counter is not negative. */
    lemma NodesLeft()
      requires Valid()
      ensures numNodes >= 0
    {
      UnexaminedCount(g, remake, made, examined, updated);
    }

    /** MakeStartJobs: examine nodes as long as there is a free slot and the run is not
        being aborted.  Called again when no job has ended it changes nothing. */
    method StartJobs()
      requires Valid()
      modifies this
      ensures Valid() && remake == old(remake)
      ensures aborting || nJobs == maxJobs || toBeMade == []
      ensures old(aborting || nJobs == maxJobs || toBeMade == []) ==> unchanged(this)
      ensures aborting == old(aborting) && atAbort == old(atAbort)
      ensures numNodes < old(numNodes) || (numNodes == old(numNodes) && jobs == old(jobs))
    {
      hide WellFormed, Ordered, Counts, Consistent, Fringe, NoneLost, Accounted, Recorded;
      while !JobFull() && toBeMade != []
        invariant Valid() && remake == old(remake)
        invariant numNodes < old(numNodes) || (numNodes == old(numNodes) && jobs == old(jobs))
        invariant old(aborting || nJobs == maxJobs || toBeMade == []) ==> unchanged(this)
        invariant aborting == old(aborting) && atAbort == old(atAbort)
        decreases numNodes, |toBeMade|
      {
        NodesLeft();
        var gn, dropped := TakeNext();
        if dropped {
          continue;
        }
        if gn !in upToDate {
          JobMake(gn);
        } else {
          UpToDate(gn);
        }
      }
    }

    /** An up-to-date node needs no job. */
    method UpToDate(gn: nat)
      requires Core({gn}) && gn < |made| && gn in upToDate
      modifies this`made, this`unmade, this`toBeMade, this`updated
      ensures Valid() && made == old(made)[gn := UPTODATE] && updated == old(updated) + {gn}
    {
      RecordMade(gn, UPTODATE);
      MakeUpdate(gn);
    }

    /** gn->made = how */
    method RecordMade(gn: nat, how: Made)
      requires Core({gn}) && gn < |made| && how != UNMADE
      modifies this`made
      ensures Core({gn}) && made == old(made)[gn := how]
    {
      hide WellFormed, Ordered, Counts, Fringe, NoneLost, Consistent, Accounted;
      MadeKeeps(g, remake, unmade, made, examined, updated, toBeMade, gn, how);
      AccountUpdated(examined, updated, stopped, jobs, gn);
      made := made[gn := how];
    }

    /** How the end of a job changes the state: only a job that succeeds while the
        run is not being aborted counts as made and is passed to Make_Update; an
        error aborts the run unless it is to keep going. */
    twostate predicate Ended(job: nat, success: bool)
      reads this
    {
      && (if success && !old(aborting) then
            && job < old(|made|) && made == old(made)[job := MADE] && updated == old(updated) + {job}
            && stopped == old(stopped) && errors == old(errors) && aborting == old(aborting)
          else
            && made == old(made) && unmade == old(unmade) && toBeMade == old(toBeMade) && updated == old(updated)
            && stopped == old(stopped) + {job} && errors == old(errors) + (if success then 0 else 1)
            && aborting == (old(aborting) || (errors != 0 && !keepgoing)))
      && examined == old(examined)
      && atAbort == if aborting && !old(aborting) then examined else old(atAbort)
    }

    /** The end of a job, in JobFinish. */
    method JobFinish(job: nat, success: bool)
      requires Core({job}) && job < |made| && made[job] == UNMADE && Outcome(job) == MADE && (success <==> job !in failing)
      modifies this`made, this`unmade, this`toBeMade, this`updated, this`stopped, this`errors, this`aborting, this`atAbort
      ensures Valid()
      ensures Ended(job, success)
    {
      hide Core, Outcome;
      if !aborting && success {
        RecordMade(job, MADE);
        MakeUpdate(job);
      } else {
        JobLost(job, success);
      }
    }

    /** A job that failed, or ended after the decision to abort: no Make_Update. */
    method JobLost(job: nat, success: bool)
      requires Core({job}) && job < |made| && made[job] == UNMADE && (aborting || !success)
      requires Outcome(job) == MADE && (success <==> job !in failing)
      modifies this`stopped, this`errors, this`aborting, this`atAbort
      ensures Valid() && Ended(job, success)
    {
      hide WellFormed, Ordered, Counts, Fringe, NoneLost, Consistent, Accounted, Slots, Outcome;
      AccountStopped(examined, updated, stopped, jobs, job);
      NotPending(g, remake, unmade, made, examined, updated, toBeMade, job);
      stopped := stopped + {job};
      CountError(success);
    }

    /** An error aborts the run unless it is to keep going. */
    method CountError(success: bool)
      modifies this`errors, this`aborting, this`atAbort
      ensures errors == old(errors) + (if success then 0 else 1)
      ensures aborting == (old(aborting) || (errors != 0 && !keepgoing))
      ensures atAbort == if aborting && !old(aborting) then examined else old(atAbort)
    {
      if !success {
        errors := errors + 1;
      }
      if errors != 0 && !keepgoing {
        atAbort := if aborting then atAbort else examined;
        aborting := true;
      }
    }

    /** Job_CatchChildren: at least one child has ended, perhaps more, in any order.
        Calls that find none are left out; MakeStartJobs does nothing after them. */
    method CatchChildren()
      requires Valid() && nJobs > 0
      modifies this
      ensures Valid() && remake == old(remake) && numNodes == old(numNodes) && |jobs| < old(|jobs|)
      ensures examined == old(examined) && (old(aborting) ==> aborting)
      ensures atAbort == if aborting && !old(aborting) then examined else old(atAbort)
    {
      hide WellFormed, Ordered, Counts, Fringe, NoneLost, Consistent, Accounted;
      var more := true;
      while more && nJobs != 0
        invariant Valid() && remake == old(remake) && numNodes == old(numNodes)
        invariant |jobs| <= old(|jobs|) && (!more ==> |jobs| < old(|jobs|))
        invariant examined == old(examined) && (old(aborting) ==> aborting)
        invariant atAbort == if aborting && !old(aborting) then examined else old(atAbort)
        decreases more, |jobs|
      {
        var _ := ReapOne();
        more := *;
      }
    }

    /** One ended child: its slot is free again. */
    method ReapOne() returns (ghost k: nat)
      requires Valid() && nJobs > 0
      modifies this
      ensures Valid() && remake == old(remake) && numNodes == old(numNodes)
      ensures k < old(|jobs|) && jobs == old(jobs)[..k] + old(jobs)[k + 1..] && !jobFull
      ensures Ended(old(jobs)[k], old(jobs)[k] !in failing)
    {
      hide WellFormed, Ordered, Counts, Fringe, NoneLost, Consistent, Accounted, Errors;
      var next: nat :| next < |jobs|;
      k := next;
      var job := jobs[next];
      AccountReaped(examined, updated, stopped, jobs, k);
      MarkedInRange(g, remake, unmade, updated);
      RunningUnmade(g, remake, unmade, made, examined, updated, stopped, jobs, toBeMade, k);
      jobs := jobs[..next] + jobs[next + 1..];
      nJobs := nJobs - 1;
      jobFull := false;
      JobFinish(job, job !in failing);
    }

    /** The fields after the marking pass satisfy the invariant. */
    lemma MarkedIsValid()
      requires WellFormed(g) && maxJobs >= 1
      requires |unmade| == g.size && (forall n :: 0 <= n < g.size ==> unmade[n] == |g.Children(n)|)
      requires made == seq(g.size, n => UNMADE)
      requires jobs == [] && nJobs == 0 && !jobFull && errors == 0 && !aborting
      requires examined == {} && order == [] && updated == {} && stopped == {}
      requires forall n :: n in remake ==> n < g.size
      requires forall n, c :: n in remake && c in g.Children(n) ==> c in remake
      requires NoDuplicates(toBeMade) && forall n :: n in toBeMade <==> n in remake && n < g.size && unmade[n] == 0
      requires numNodes == |remake|
      ensures Valid()
    {
      forall n | n in remake
        ensures unmade[n] == Outstanding(g.Children(n), updated)
      {
        OutstandingAll(g.Children(n));
      }
    }

    /** With no job running every examined node is updated or stopped. */
    lemma AllEnded()
      requires Valid() && jobs == []
      ensures examined == updated + stopped && examined <= remake
    {
    }

    /** Without failing jobs there are no errors, and an error aborts the run without -k. */
    lemma NoFailures()
      requires Valid()
      ensures aborting <==> !keepgoing && stopped * failing != {}
      ensures failing == {} ==> !aborting && stopped == {} && errors == 0
    {
    }

    /** The nodes that are out of date and start no shell */
    ghost function Quiet(): set<nat> {
      noShell - upToDate
    }

    /** The nodes whose jobs fail if they are started */
    ghost function Doomed(): set<nat> {
      failing - noShell - upToDate
    }

    /** Which updated nodes are silent and which jobs may have failed is as foreseen. */
    lemma AsForeseen()
      requires Valid() && !aborting
      ensures Foreseen(made, updated, stopped, Doomed(), Quiet())
    {
      forall n | n in stopped
        ensures n in Doomed()
      {
        assert Outcome(n) == MADE;
      }
      forall n | n in updated
        ensures n !in Doomed() && (n in Silent(made, updated) <==> n in Quiet())
      {
        assert made[n] == Outcome(n);
      }
    }

    /** Make_Run, not in query mode.  Every order in which jobs end, every choice
        of which nodes are out of date and of which jobs fail is allowed.  Once a
        run is being aborted no further node is examined and no job started.  In a
        run that is not aborted, in particular with -k, the fringe ends empty
        and a marked node is left unexamined exactly if it is stuck: it leads to
        a failed node, to a cycle, or directly after it in the order comes a
        node whose commands started no shell.  That can be told before the run,
        and so can whether the documented reading holds: exactly if every node
        behind one that starts no shell is blocked by a failure or a cycle anyway. */
    method MakeRun(targs: seq<nat>) returns (cycle: bool)
      requires Fresh() && maxJobs >= 1 && Below(targs, g.size)
      modifies this
      ensures Valid() && jobs == []
      ensures forall n :: n in remake <==> Reachable(g, targs, n)
      ensures aborting <==> !keepgoing && stopped * failing != {}
      ensures aborting ==> examined == atAbort
      ensures !aborting ==> toBeMade == []
      ensures !aborting ==> forall n :: n in remake ==>
                && (n !in examined <==> Stuck(g, remake, stopped, Silent(made, updated), n))
                && (n !in examined <==> Stuck(g, remake, Doomed(), Quiet(), n))
      ensures !aborting ==> (Documented(g, remake, examined, stopped) <==> Harmless(g, remake, Doomed(), Quiet()))
      ensures !aborting && (forall x, d :: x in remake && d in remake && d in g.Preds(x) ==> d !in noShell) ==>
                Documented(g, remake, examined, stopped)
      ensures failing == {} ==> !aborting && stopped == {}
      ensures cycle <==> errors == 0 && exists n :: n in remake && n !in examined
    {
      hide WellFormed, Reachable, Ordered, Counts, Fringe, NoneLost, Consistent, Accounted, Stuck, Recorded, Documented, FailureOrCycle, Foreseen, Doomed;
      ghost var visited;
      toBeMade, visited := ExpandUse(targs);
      ChildrenMarked(g, targs, remake);
      MarkedIsValid();
      ghost var marked := remake;
      StartJobs();
      while nJobs != 0
        invariant Valid() && remake == marked
        invariant aborting || nJobs == maxJobs || toBeMade == []
        invariant aborting ==> examined == atAbort
        decreases numNodes, |jobs|
      {
        NodesLeft();
        CatchChildren();
        StartJobs();
      }
      cycle := errors == 0 && numNodes != 0;
      UnexaminedCount(g, remake, made, examined, updated);
      NoFailures();
      if !aborting {
        RunOver(g, remake, unmade, made, examined, order, updated, stopped);
        AsForeseen();
        DocumentedIff(g, remake, unmade, made, examined, order, updated, stopped, Doomed(), Quiet());
        forall n | n in remake
          ensures n !in examined <==> Stuck(g, remake, stopped, Silent(made, updated), n)
          ensures n !in examined <==> Stuck(g, remake, Doomed(), Quiet(), n)
        {
          UnexaminedIffStuck(g, remake, unmade, made, examined, order, updated, stopped, n);
          UnexaminedIffDoomed(g, remake, unmade, made, examined, order, updated, stopped, Doomed(), Quiet(), n);
        }
      }
    }
  }

  /** The documented reading does not hold always: the commands of 0 start no shell,
      so that it is passed to Make_Update unrecorded, and 1, which is to come after
      it, is never examined, nor is their parent 2.  Nothing failed and there is no
      cycle, but one is reported. */
  method SilentPredecessorLosesNodes(slots: nat, keep: bool) returns (m: Maker, cycle: bool)
    requires slots >= 1
    ensures m.g == OrderedPair() && m.noShell == {0} && m.upToDate == {} && m.failing == {}
    ensures m.remake == {0, 1, 2} && m.examined == {0} && !m.aborting && m.stopped == {} && cycle
    ensures forall n :: !FailureOrCycle(m.g, m.remake, m.stopped, n)
  {
    hide WellFormed, OrderedPair, Maker.Valid, Silent, Reachable, FailureOrCycle, Documented, Stuck;
    OrderedPairWellFormed();
    m := new Maker(OrderedPair(), slots, keep, {0}, {}, {});
    OrderedPairReached();
    OrderedPairLists();
    cycle := m.MakeRun([2]);
    assert m.remake == {0, 1, 2};
    m.NoFailures();
    m.AllEnded();
    m.AsForeseen();
    OrderedPairStuck(m.remake, m.made, m.updated);
    forall n {
      OrderedPairAcyclic(m.remake, n);
    }
    assert 1 in m.remake && 1 !in m.examined;
  }
}
