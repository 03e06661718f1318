/** The suffixes of bmake, the transformations between them, and the files a
    search for an implicit source may try, level by level. */
module SuffixLevels {
  import opened Wrappers

  /** `children` are the suffixes this one can be made from, as indices. */
  datatype Suffix = Suffix(name: string, isNull: bool, children: seq<nat>)

  /** A file to look for, and the file that would be made from it. */
  datatype Src = Src(file: string, pref: string, suff: nat, parent: Option<Src>)

  /** Names of graph nodes, and files on the search path of a suffix. */
  datatype World = World(nodes: set<string>, files: set<(string, nat)>)

  predicate Exists(w: World, s: Src) {
    s.file in w.nodes || (s.file, s.suff) in w.files
  }

  ghost predicate NoneExists(w: World, q: seq<Src>) {
    forall s :: s in q ==> !Exists(w, s)
  }

  ghost predicate WellFormed(g: seq<Suffix>) {
    forall s :: 0 <= s < |g| ==> Below(g[s].children, |g|)
  }

  ghost predicate Known(g: seq<Suffix>, q: seq<Src>) {
    forall i :: 0 <= i < |q| ==> q[i].suff < |g|
  }

  /** The file names tried for one source suffix: a null suffix that has a name
      also stands for no suffix at all. */
  function SourcesFor(g: seq<Suffix>, targ: Src, c: nat): seq<Src>
    requires c < |g|
  {
    var named := [Src(targ.pref + g[c].name, targ.pref, c, Some(targ))];
    if g[c].isNull && g[c].name != "" then [Src(targ.pref, targ.pref, c, Some(targ))] + named else named
  }

  function SourcesOf(g: seq<Suffix>, targ: Src, cs: seq<nat>): seq<Src>
    requires Below(cs, |g|)
  {
    if cs == [] then [] else SourcesOf(g, targ, cs[..|cs| - 1]) + SourcesFor(g, targ, cs[|cs| - 1])
  }

  ghost function NextLevel(g: seq<Suffix>, q: seq<Src>): seq<Src>
    requires WellFormed(g) && Known(g, q)
  {
    if q == [] then []
    else
      var t := q[|q| - 1];
      NextLevel(g, q[..|q| - 1]) + SourcesOf(g, t, g[t.suff].children)
  }

  /** `s` is a file from which `t` can be made by one transformation. */
  ghost predicate IsSourceOf(g: seq<Suffix>, s: Src, t: Src) {
    && t.suff < |g| && s.suff < |g| && s.suff in g[t.suff].children
    && s.parent == Some(t) && s.pref == t.pref
    && (|| s.file == t.pref + g[s.suff].name
        || (s.file == t.pref && g[s.suff].isNull && g[s.suff].name != ""))
  }

  lemma {:induction false} SourcesOfIff(g: seq<Suffix>, t: Src, cs: seq<nat>, s: Src)
    requires WellFormed(g) && t.suff < |g| && Below(cs, |g|) && cs <= g[t.suff].children
    ensures s in SourcesOf(g, t, cs) <==> IsSourceOf(g, s, t) && s.suff in cs
  {
    if cs != [] {
      var front, c := cs[..|cs| - 1], cs[|cs| - 1];
      SourcesOfIff(g, t, front, s);
      assert s.suff in cs <==> s.suff in front || s.suff == c;
      assert s in SourcesFor(g, t, c) <==> IsSourceOf(g, s, t) && s.suff == c;
    }
  }

  lemma {:induction false} NextLevelIff(g: seq<Suffix>, q: seq<Src>, s: Src)
    requires WellFormed(g) && Known(g, q)
    ensures s in NextLevel(g, q) <==> s.parent.Some? && s.parent.value in q && IsSourceOf(g, s, s.parent.value)
  {
    if q != [] {
      var front, t := q[..|q| - 1], q[|q| - 1];
      NextLevelIff(g, front, s);
      SourcesOfIff(g, t, g[t.suff].children, s);
      hide IsSourceOf;
      assert forall x :: x in q <==> x in front || x == t;
    }
  }

  lemma NextLevelKnown(g: seq<Suffix>, q: seq<Src>)
    requires WellFormed(g) && Known(g, q)
    ensures Known(g, NextLevel(g, q))
  {
    forall i | 0 <= i < |NextLevel(g, q)|
      ensures NextLevel(g, q)[i].suff < |g|
    {
      NextLevelIff(g, q, NextLevel(g, q)[i]);
    }
  }

  lemma NextLevelOfOneMore(g: seq<Suffix>, q: seq<Src>, t: Src)
    requires WellFormed(g) && Known(g, q) && t.suff < |g|
    ensures Known(g, q + [t]) && NextLevel(g, q + [t]) == NextLevel(g, q) + SourcesOf(g, t, g[t.suff].children)
  {
    hide SourcesOf;
    assert (q + [t])[..|q|] == q;
  }

  /** The files `d` transformations below those of `q`, in the order of the search. */
  ghost function Level(g: seq<Suffix>, q: seq<Src>, d: nat): (r: seq<Src>)
    requires WellFormed(g) && Known(g, q)
    ensures Known(g, r)
  {
    if d == 0 then q
    else
      var above := Level(g, q, d - 1);
      NextLevelKnown(g, above);
      NextLevel(g, above)
  }

  /** The parents of `s` lead in `d` steps to a member of `q`, and every step is a
      transformation. */
  ghost predicate Derives(g: seq<Suffix>, q: seq<Src>, s: Src, d: nat) {
    if d == 0 then s in q
    else s.parent.Some? && IsSourceOf(g, s, s.parent.value) && Derives(g, q, s.parent.value, d - 1)
  }

  /** The levels hold exactly the files with a transformation path. */
  lemma {:induction false} LevelIff(g: seq<Suffix>, q: seq<Src>, s: Src, d: nat)
    requires WellFormed(g) && Known(g, q)
    ensures s in Level(g, q, d) <==> Derives(g, q, s, d)
  {
    if d > 0 {
      hide IsSourceOf;
      NextLevelIff(g, Level(g, q, d - 1), s);
      if s.parent.Some? {
        LevelIff(g, q, s.parent.value, d - 1);
      }
    }
  }

  // ----- the order of the search

  /** Among the files one target can be made from, `s` is listed before `t`: its suffix
      comes earlier among the children, or it is the bare name for the same suffix. */
  ghost predicate SourceBefore(g: seq<Suffix>, s: Src, t: Src) {
    && s.parent == t.parent && s.parent.Some? && s.parent.value.suff < |g| && t.suff < |g|
    && var cs := g[s.parent.value.suff].children;
       || (exists a, b :: 0 <= a < b < |cs| && cs[a] == s.suff && cs[b] == t.suff)
       || (s.suff == t.suff && s.suff in cs && s.file == s.pref && t.file == t.pref + g[t.suff].name != t.pref)
  }

  /** `s` comes before `t`, both d steps below `q`: their targets do, or they have the
      same target and are listed in this order. */
  ghost predicate Precedes(g: seq<Suffix>, q: seq<Src>, s: Src, t: Src, d: nat) {
    if d == 0 then exists i, j :: 0 <= i < j < |q| && q[i] == s && q[j] == t
    else
      && s.parent.Some? && t.parent.Some?
      && (Precedes(g, q, s.parent.value, t.parent.value, d - 1) || SourceBefore(g, s, t))
  }

  /** The files for one suffix: for a null suffix with a name, the bare name first. */
  lemma SourcesForOrder(g: seq<Suffix>, t: Src, c: nat, i: nat, j: nat)
    requires t.suff < |g| && c < |g| && c in g[t.suff].children && i < j < |SourcesFor(g, t, c)|
    ensures SourceBefore(g, SourcesFor(g, t, c)[i], SourcesFor(g, t, c)[j])
  {
    assert t.pref + g[c].name != t.pref by {
      assert |t.pref + g[c].name| > |t.pref|;
    }
  }

  lemma {:induction false} SourcesOfOrder(g: seq<Suffix>, t: Src, cs: seq<nat>, i: nat, j: nat)
    requires WellFormed(g) && t.suff < |g| && cs <= g[t.suff].children && Below(cs, |g|)
    requires i < j < |SourcesOf(g, t, cs)|
    ensures SourceBefore(g, SourcesOf(g, t, cs)[i], SourcesOf(g, t, cs)[j])
    decreases |cs|
  {
    var front, c := cs[..|cs| - 1], cs[|cs| - 1];
    var all, early, late := SourcesOf(g, t, cs), SourcesOf(g, t, front), SourcesFor(g, t, c);
    assert all == early + late;
    if j < |early| {
      SourcesOfOrder(g, t, front, i, j);
    } else if i >= |early| {
      SourcesForOrder(g, t, c, i - |early|, j - |early|);
    } else {
      SourcesOfIff(g, t, front, early[i]);
      var k :| 0 <= k < |front| && front[k] == all[i].suff;
      var children := g[t.suff].children;
      assert children[k] == all[i].suff && children[|front|] == c == all[j].suff;
    }
  }

  /** The sources of one level are listed in the order of their targets. */
  lemma {:induction false} NextLevelOrder(g: seq<Suffix>, l: seq<Src>, i: nat, j: nat) returns (a: nat, b: nat)
    requires WellFormed(g) && Known(g, l) && i < j < |NextLevel(g, l)|
    ensures a <= b < |l| && NextLevel(g, l)[i].parent == Some(l[a]) && NextLevel(g, l)[j].parent == Some(l[b])
    ensures a < b || SourceBefore(g, NextLevel(g, l)[i], NextLevel(g, l)[j])
    decreases |l|
  {
    hide SourcesOf, SourceBefore, IsSourceOf;
    var n := |l| - 1;
    var front, t := l[..n], l[n];
    var early, late := NextLevel(g, front), SourcesOf(g, t, g[t.suff].children);
    assert NextLevel(g, l) == early + late;
    if j < |early| {
      a, b := NextLevelOrder(g, front, i, j);
    } else {
      b := n;
      ParentIs(g, t, late[j - |early|]);
      if i < |early| {
        a := ParentIn(g, front, early[i]);
      } else {
        a := n;
        ParentIs(g, t, late[i - |early|]);
        SourcesOfOrder(g, t, g[t.suff].children, i - |early|, j - |early|);
      }
    }
  }

  lemma ParentIs(g: seq<Suffix>, t: Src, s: Src)
    requires WellFormed(g) && t.suff < |g| && s in SourcesOf(g, t, g[t.suff].children)
    ensures s.parent == Some(t)
  {
    SourcesOfIff(g, t, g[t.suff].children, s);
  }

  lemma ParentIn(g: seq<Suffix>, l: seq<Src>, s: Src) returns (a: nat)
    requires WellFormed(g) && Known(g, l) && s in NextLevel(g, l)
    ensures a < |l| && s.parent == Some(l[a])
  {
    hide NextLevel, IsSourceOf;
    NextLevelIff(g, l, s);
    a :| 0 <= a < |l| && l[a] == s.parent.value;
  }

  /** Every level lists its files in this order. */
  lemma {:induction false} LevelOrder(g: seq<Suffix>, q: seq<Src>, d: nat, i: nat, j: nat)
    requires WellFormed(g) && Known(g, q) && i < j < |Level(g, q, d)|
    ensures Precedes(g, q, Level(g, q, d)[i], Level(g, q, d)[j], d)
    decreases d
  {
    hide NextLevel, SourceBefore;
    if d > 0 {
      var above := Level(g, q, d - 1);
      var a, b := NextLevelOrder(g, above, i, j);
      if a < b {
        LevelOrder(g, q, d - 1, a, b);
      }
    }
  }

  lemma SourceBeforeOnce(g: seq<Suffix>, s: Src, t: Src)
    requires forall c :: 0 <= c < |g| ==> NoDuplicates(g[c].children)
    requires SourceBefore(g, s, t)
    ensures !SourceBefore(g, t, s)
  {
    assert NoDuplicates(g[s.parent.value.suff].children);
  }

  /** With no suffix listed twice among the children of another, and no target twice, it
      is a strict order: of two files at most one comes before the other. */
  lemma {:induction false} PrecedesOnce(g: seq<Suffix>, q: seq<Src>, s: Src, t: Src, d: nat)
    requires forall i, j :: 0 <= i < j < |q| ==> q[i] != q[j]
    requires forall c :: 0 <= c < |g| ==> NoDuplicates(g[c].children)
    requires Precedes(g, q, s, t, d)
    ensures !Precedes(g, q, t, s, d)
    decreases d
  {
    if d > 0 {
      var x, y := s.parent.value, t.parent.value;
      if SourceBefore(g, s, t) {
        SourceBeforeOnce(g, s, t);
      }
      hide SourceBefore, NoDuplicates;
      if Precedes(g, q, x, y, d - 1) {
        PrecedesOnce(g, q, x, y, d - 1);
      }
    }
  }

  /** Levels below the first of `q` are levels of `q`. */
  lemma {:induction false} LevelShift(g: seq<Suffix>, q: seq<Src>, d: nat)
    requires WellFormed(g) && Known(g, q) && Known(g, NextLevel(g, q))
    ensures Level(g, NextLevel(g, q), d) == Level(g, q, d + 1)
  {
    if d > 0 {
      LevelShift(g, q, d - 1);
    }
  }

  lemma {:induction false} EmptyBelowEmpty(g: seq<Suffix>, q: seq<Src>, d: nat, e: nat)
    requires WellFormed(g) && Known(g, q) && Level(g, q, d) == [] && d <= e
    ensures Level(g, q, e) == []
  {
    hide SourcesOf;
    if d < e {
      EmptyBelowEmpty(g, q, d, e - 1);
    }
  }

  predicate Edge(g: seq<Suffix>, a: nat, b: nat) {
    a < |g| && b < |g| && b in g[a].children
  }

  /** A path of transformations between suffixes. */
  predicate Path(g: seq<Suffix>, p: seq<nat>) {
    if |p| <= 1 then p != [] && p[0] < |g|
    else Path(g, p[..|p| - 1]) && Edge(g, p[|p| - 2], p[|p| - 1])
  }

  ghost predicate PathFrom(g: seq<Suffix>, q: seq<Src>, p: seq<nat>) {
    Path(g, p) && exists s :: s in q && s.suff == p[0]
  }

  /** No path from a suffix of `q` comes back to a suffix it has passed. */
  ghost predicate AcyclicFrom(g: seq<Suffix>, q: seq<Src>) {
    forall p, i, j :: PathFrom(g, q, p) && 0 <= i < j < |p| ==> p[i] != p[j]
  }

  /** A path of d steps puts a file of its last suffix on level d. */
  lemma {:induction false} PathFillsLevel(g: seq<Suffix>, q: seq<Src>, p: seq<nat>) returns (s: Src)
    requires WellFormed(g) && Known(g, q) && PathFrom(g, q, p)
    ensures s in Level(g, q, |p| - 1) && s.suff == p[|p| - 1] < |g|
  {
    if |p| == 1 {
      s :| s in q && s.suff == p[0];
    } else {
      var front, c := p[..|p| - 1], p[|p| - 1];
      assert PathFrom(g, q, front) by {
        assert front[0] == p[0];
      }
      var t := PathFillsLevel(g, q, front);
      hide SourcesOf, NextLevel, Path, PathFrom;
      s := Src(t.pref + g[c].name, t.pref, c, Some(t));
      NextLevelIff(g, Level(g, q, |p| - 2), s);
    }
  }

  /** Every file on level d comes from a path of d steps. */
  lemma {:induction false} LevelHasPath(g: seq<Suffix>, q: seq<Src>, s: Src, d: nat) returns (p: seq<nat>)
    requires WellFormed(g) && Known(g, q) && s in Level(g, q, d)
    ensures PathFrom(g, q, p) && |p| == d + 1 && p[d] == s.suff
  {
    hide SourcesOf, NextLevel;
    if d == 0 {
      p := [s.suff];
    } else {
      NextLevelIff(g, Level(g, q, d - 1), s);
      var front := LevelHasPath(g, q, s.parent.value, d - 1);
      p := front + [s.suff];
      assert p[..d] == front;
    }
  }

  lemma {:induction false} EdgeAt(g: seq<Suffix>, p: seq<nat>, k: nat)
    requires Path(g, p) && k + 1 < |p|
    ensures Edge(g, p[k], p[k + 1])
  {
    if k + 2 < |p| {
      EdgeAt(g, p[..|p| - 1], k);
    }
  }

  lemma {:induction false} PathStarts(g: seq<Suffix>, p: seq<nat>)
    requires Path(g, p)
    ensures p[0] < |g|
  {
    if |p| > 1 {
      PathStarts(g, p[..|p| - 1]);
    }
  }

  /** Going round a cycle a path can be made as long as one likes. */
  lemma {:induction false} GoRound(g: seq<Suffix>, p: seq<nat>, i: nat, j: nat, m: nat) returns (r: seq<nat>, k: nat)
    requires Path(g, p) && i < j < |p| && p[i] == p[j]
    ensures Path(g, r) && |r| == m + 1 && r[0] == p[0] && k < j && r[m] == p[k]
  {
    if m == 0 {
      PathStarts(g, p);
      r, k := [p[0]], 0;
    } else {
      var front, l := GoRound(g, p, i, j, m - 1);
      EdgeAt(g, p, l);
      r := front + [p[l + 1]];
      assert r[..m] == front;
      k := if l + 1 == j then i else l + 1;
    }
  }

  lemma {:induction false} Pigeonhole(p: seq<nat>, n: nat)
    requires forall i :: 0 <= i < |p| ==> p[i] < n
    requires forall i, j :: 0 <= i < j < |p| ==> p[i] != p[j]
    ensures |p| <= n
  {
    var first := if p == [] then 0 else p[0];
    if k :| 0 <= k < |p| && p[k] == n - 1 {
      var r := p[..k] + p[k + 1..];
      assert forall i :: 0 <= i < |r| ==> r[i] == p[if i < k then i else i + 1];
      Pigeonhole(r, n - 1);
    } else if n > 0 {
      Pigeonhole(p, n - 1);
    }
  }

  lemma {:induction false} PathBelow(g: seq<Suffix>, p: seq<nat>)
    requires Path(g, p)
    ensures Below(p, |g|)
  {
    if |p| > 1 {
      var front := p[..|p| - 1];
      PathBelow(g, front);
      assert forall i :: 0 <= i < |front| ==> p[i] == front[i];
    }
  }

  /** Transformations run dry exactly when no cycle of suffixes can be reached. */
  lemma EmptyLevelIffAcyclic(g: seq<Suffix>, q: seq<Src>)
    requires WellFormed(g) && Known(g, q)
    ensures (exists d :: Level(g, q, d) == []) <==> AcyclicFrom(g, q)
  {
    hide Level, Path, PathFrom;
    if AcyclicFrom(g, q) {
      AcyclicRunsDry(g, q);
    }
    if d :| Level(g, q, d) == [] {
      forall p, i, j | PathFrom(g, q, p) && 0 <= i < j < |p|
        ensures p[i] != p[j]
      {
        if p[i] == p[j] {
          CycleFillsLevel(g, q, p, i, j, d);
        }
      }
    }
  }

  lemma AcyclicRunsDry(g: seq<Suffix>, q: seq<Src>)
    requires WellFormed(g) && Known(g, q) && AcyclicFrom(g, q)
    ensures Level(g, q, |g|) == []
  {
    hide Level, Path;
    var l := Level(g, q, |g|);
    if l != [] {
      var p := LevelHasPath(g, q, l[0], |g|);
      PathBelow(g, p);
      Pigeonhole(p, |g|);
    }
  }

  lemma CycleFillsLevel(g: seq<Suffix>, q: seq<Src>, p: seq<nat>, i: nat, j: nat, d: nat)
    requires WellFormed(g) && Known(g, q) && PathFrom(g, q, p) && i < j < |p| && p[i] == p[j]
    ensures Level(g, q, d) != []
  {
    hide Level, Path;
    var r, k := GoRound(g, p, i, j, d);
    var s := PathFillsLevel(g, q, r);
  }
}
