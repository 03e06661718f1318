/** `suff.c`: the search for the implicit source of a target, breadth first and
    without any record of the suffixes already tried. */
module SuffixSearch {
  import opened Wrappers
  import opened SuffixLevels

  /** `s` is the first existing file of the first level of `q` that has one: it is
      number i of level d. */
  ghost predicate IsFirst(g: seq<Suffix>, w: World, q: seq<Src>, s: Src, d: nat, i: nat)
    requires WellFormed(g) && Known(g, q)
  {
    && i < |Level(g, q, d)| && s == Level(g, q, d)[i] && Exists(w, s)
    && NoneExists(w, Level(g, q, d)[..i])
    && NoneUpTo(g, w, q, d)
  }

  ghost predicate NoneUpTo(g: seq<Suffix>, w: World, q: seq<Src>, d: nat)
    requires WellFormed(g) && Known(g, q)
  {
    forall e: nat :: e < d ==> NoneExists(w, Level(g, q, e))
  }

  /** Some existing file has a transformation path to `q`. */
  ghost predicate HasSource(g: seq<Suffix>, w: World, q: seq<Src>) {
    exists s, d :: Derives(g, q, s, d) && Exists(w, s)
  }

  /** All files on the levels before d, in order. */
  ghost function Tried(g: seq<Suffix>, q: seq<Src>, d: nat): seq<Src>
    requires WellFormed(g) && Known(g, q)
  {
    if d == 0 then [] else Tried(g, q, d - 1) + Level(g, q, d - 1)
  }

  /** The list of the search after i files of level k have been replaced by their sources. */
  ghost function Queue(g: seq<Suffix>, q: seq<Src>, k: nat, i: nat): seq<Src>
    requires WellFormed(g) && Known(g, q) && i <= |Level(g, q, k)|
  {
    var l := Level(g, q, k);
    l[i..] + NextLevel(g, l[..i])
  }

  lemma QueueStep(g: seq<Suffix>, q: seq<Src>, k: nat, i: nat)
    requires WellFormed(g) && Known(g, q) && i < |Level(g, q, k)|
    ensures var l := Level(g, q, k);
            Queue(g, q, k, i) != [] && Queue(g, q, k, i)[0] == l[i] &&
            Queue(g, q, k, i)[1..] + SourcesOf(g, l[i], g[l[i].suff].children) == Queue(g, q, k, i + 1)
  {
    hide Level, SourcesOf;
    var l := Level(g, q, k);
    assert l[..i + 1][..i] == l[..i];
    var s := SourcesOf(g, l[i], g[l[i].suff].children);
    assert l[i..][1..] == l[i + 1..];
    assert (l[i + 1..] + NextLevel(g, l[..i])) + s == l[i + 1..] + (NextLevel(g, l[..i]) + s);
  }

  /** A level used up leaves the next one in the list. */
  lemma QueueWraps(g: seq<Suffix>, q: seq<Src>, k: nat)
    requires WellFormed(g) && Known(g, q)
    ensures Queue(g, q, k, |Level(g, q, k)|) == Queue(g, q, k + 1, 0) == Level(g, q, k + 1)
  {
    var l, m := Level(g, q, k), Level(g, q, k + 1);
    assert l[..|l|] == l && l[|l|..] == [];
    assert m[0..] == m && m[..0] == [];
    assert m == NextLevel(g, l);
    hide Level;
  }

  lemma QueueStart(g: seq<Suffix>, q: seq<Src>)
    requires WellFormed(g) && Known(g, q)
    ensures Queue(g, q, 0, 0) == q
  {
    assert q[0..] == q && q[..0] == [];
  }

  /** The breadth-first order makes the first file found one at least depth. */
  lemma FirstIsShortest(g: seq<Suffix>, w: World, q: seq<Src>, s: Src, d: nat, i: nat)
    requires WellFormed(g) && Known(g, q) && IsFirst(g, w, q, s, d, i)
    ensures Derives(g, q, s, d)
    ensures forall t, e: nat :: Derives(g, q, t, e) && Exists(w, t) ==> d <= e
  {
    hide Level, Derives;
    LevelIff(g, q, s, d);
    forall t, e: nat | Derives(g, q, t, e) && Exists(w, t)
      ensures d <= e
    {
      LevelIff(g, q, t, e);
    }
  }

  /** The search is first come, first served: every other existing file on the level of
      the one found comes later in the order of targets and suffixes. */
  lemma FirstPrecedes(g: seq<Suffix>, w: World, q: seq<Src>, s: Src, d: nat, i: nat, t: Src)
    requires WellFormed(g) && Known(g, q) && IsFirst(g, w, q, s, d, i)
    requires Derives(g, q, t, d) && Exists(w, t) && t != s
    ensures Precedes(g, q, s, t, d)
  {
    hide Level, Derives, Precedes;
    LevelIff(g, q, t, d);
    var l := Level(g, q, d);
    forall k | 0 <= k < i
      ensures l[k] != t
    {
      assert l[..i][k] == l[k];
    }
    var j :| 0 <= j < |l| && l[j] == t;
    LevelOrder(g, q, d, i, j);
  }

  lemma FirstPrecedesAll(g: seq<Suffix>, w: World, q: seq<Src>, s: Src, d: nat, i: nat)
    requires WellFormed(g) && Known(g, q) && IsFirst(g, w, q, s, d, i)
    ensures forall t :: Derives(g, q, t, d) && Exists(w, t) && t != s ==> Precedes(g, q, s, t, d)
  {
    hide Level, Derives, Precedes;
    forall t | Derives(g, q, t, d) && Exists(w, t) && t != s
      ensures Precedes(g, q, s, t, d)
    {
      FirstPrecedes(g, w, q, s, d, i, t);
    }
  }

  /** The search stops at this level at the latest. */
  ghost predicate StopsBy(g: seq<Suffix>, w: World, q: seq<Src>, d: nat)
    requires WellFormed(g) && Known(g, q)
  {
    Level(g, q, d) == [] || !NoneExists(w, Level(g, q, d))
  }

  lemma StopLevel(g: seq<Suffix>, w: World, q: seq<Src>) returns (d: nat)
    requires WellFormed(g) && Known(g, q) && (HasSource(g, w, q) || AcyclicFrom(g, q))
    ensures StopsBy(g, w, q, d)
  {
    hide Level, Derives;
    if s, e :| Derives(g, q, s, e) && Exists(w, s) {
      LevelIff(g, q, s, e);
      d := e;
    } else {
      AcyclicRunsDry(g, q);
      d := |g|;
    }
  }

  /** With all of level d tried in vain and files left on the next, the search has
      not reached the level it stops by. */
  lemma LevelsGoOn(g: seq<Suffix>, w: World, q: seq<Src>, d: nat, last: nat)
    requires WellFormed(g) && Known(g, q) && StopsBy(g, w, q, last) && d <= last
    requires NoneExists(w, Level(g, q, d)) && Level(g, q, d + 1) != []
    ensures d < last
  {
    hide Level;
    EmptyGoesOn(g, q, d);
  }

  lemma EmptyGoesOn(g: seq<Suffix>, q: seq<Src>, d: nat)
    requires WellFormed(g) && Known(g, q)
    ensures Level(g, q, d) == [] ==> Level(g, q, d + 1) == []
  {
  }

  /** An empty list means that every level has been tried. */
  lemma SearchedAll(g: seq<Suffix>, w: World, q: seq<Src>, d: nat, i: nat)
    requires WellFormed(g) && Known(g, q) && i <= |Level(g, q, d)| && Queue(g, q, d, i) == []
    requires NoneUpTo(g, w, q, d) && NoneExists(w, Level(g, q, d)[..i])
    ensures !HasSource(g, w, q)
  {
    hide Level, NextLevel, Derives;
    var l := Level(g, q, d);
    assert l[i..] == [] && l[..i] == l;
    QueueWraps(g, q, d);
    forall s, e: nat | Derives(g, q, s, e)
      ensures !Exists(w, s)
    {
      LevelIff(g, q, s, e);
      if e > d {
        EmptyBelowEmpty(g, q, d + 1, e);
      }
    }
  }

  /** One turn of the loop, when the file at the head of the list does not exist. */
  ghost function Turn(g: seq<Suffix>, q: seq<Src>): (r: seq<Src>)
    requires WellFormed(g) && Known(g, q)
    ensures Known(g, r)
  {
    if q == [] then []
    else
      SourcesKnown(g, q[0], g[q[0].suff].children);
      q[1..] + SourcesOf(g, q[0], g[q[0].suff].children)
  }

  lemma {:induction false} SourcesKnown(g: seq<Suffix>, t: Src, cs: seq<nat>)
    requires Below(cs, |g|)
    ensures Known(g, SourcesOf(g, t, cs))
  {
    if cs != [] {
      SourcesKnown(g, t, cs[..|cs| - 1]);
    }
  }

  ghost function After(g: seq<Suffix>, q: seq<Src>, n: nat): (r: seq<Src>)
    requires WellFormed(g) && Known(g, q)
    ensures Known(g, r)
  {
    if n == 0 then q else Turn(g, After(g, q, n - 1))
  }

  /** The loop ends with the list empty or a file found at its head. */
  ghost predicate Ends(g: seq<Suffix>, w: World, q: seq<Src>)
    requires WellFormed(g) && Known(g, q)
  {
    exists n :: After(g, q, n) == [] || Exists(w, After(g, q, n)[0])
  }

  /** Every position of every level comes up if the search goes on long enough. */
  lemma {:induction false} ReachesPosition(g: seq<Suffix>, q: seq<Src>, k: nat, i: nat) returns (n: nat)
    requires WellFormed(g) && Known(g, q) && i <= |Level(g, q, k)|
    ensures After(g, q, n) == Queue(g, q, k, i)
    decreases k, i
  {
    hide Level, Queue, SourcesOf;
    if i > 0 {
      var m := ReachesPosition(g, q, k, i - 1);
      QueueStep(g, q, k, i - 1);
      n := m + 1;
    } else if k > 0 {
      n := ReachesPosition(g, q, k - 1, |Level(g, q, k - 1)|);
      QueueWraps(g, q, k - 1);
    } else {
      n := 0;
      QueueStart(g, q);
    }
  }

  /** After any number of turns the list is some position of some level. */
  lemma {:induction false} PositionAfter(g: seq<Suffix>, q: seq<Src>, n: nat) returns (k: nat, i: nat)
    requires WellFormed(g) && Known(g, q)
    ensures i <= |Level(g, q, k)| && After(g, q, n) == Queue(g, q, k, i)
    ensures After(g, q, n) != [] ==> i < |Level(g, q, k)|
  {
    hide Level, Queue, SourcesOf;
    if n == 0 {
      k, i := 0, 0;
      QueueStart(g, q);
    } else {
      k, i := PositionAfter(g, q, n - 1);
      if After(g, q, n - 1) != [] {
        QueueStep(g, q, k, i);
        i := i + 1;
      }
    }
    if i == |Level(g, q, k)| {
      QueueWraps(g, q, k);
      k, i := k + 1, 0;
    }
  }

  lemma QueueHead(g: seq<Suffix>, q: seq<Src>, k: nat, i: nat)
    requires WellFormed(g) && Known(g, q) && i <= |Level(g, q, k)|
    ensures i < |Level(g, q, k)| ==> Queue(g, q, k, i) != [] && Queue(g, q, k, i)[0] == Level(g, q, k)[i]
    ensures Queue(g, q, k, i) == [] ==> Level(g, q, k + 1) == []
    ensures Level(g, q, k) == [] ==> Queue(g, q, k, i) == []
  {
    hide Level;
    if i == |Level(g, q, k)| {
      QueueWraps(g, q, k);
    }
    assert Level(g, q, k)[..0] == [];
  }

  /** The search ends exactly when some existing file can be reached, or no cycle of
      suffixes can: there is no other safeguard against going round for ever. */
  lemma SearchEndsIff(g: seq<Suffix>, w: World, q: seq<Src>)
    requires WellFormed(g) && Known(g, q)
    ensures Ends(g, w, q) <==> HasSource(g, w, q) || AcyclicFrom(g, q)
  {
    hide Level, Queue, Derives, After, AcyclicFrom;
    if n :| After(g, q, n) == [] || Exists(w, After(g, q, n)[0]) {
      var k, i := PositionAfter(g, q, n);
      QueueHead(g, q, k, i);
      if i < |Level(g, q, k)| {
        LevelIff(g, q, Level(g, q, k)[i], k);
      }
      EmptyLevelIffAcyclic(g, q);
    }
    if HasSource(g, w, q) || AcyclicFrom(g, q) {
      var d := StopLevel(g, w, q);
      var l := Level(g, q, d);
      var i := if l == [] then 0 else var k :| 0 <= k < |l| && Exists(w, l[k]); k;
      var n := ReachesPosition(g, q, d, i);
      QueueHead(g, q, d, i);
    }
  }

  /** .o is made from .c, .c from .l, and .l from .c. */
  function CyclicSuffixes(): seq<Suffix> {
    [Suffix(".o", false, [1]), Suffix(".c", false, [2]), Suffix(".l", false, [1])]
  }

  /** The search for x.o, which is a node like every target, with no file around:
      it goes round through x.c and x.l for ever. */
  lemma CyclicSearchNeverEnds()
    ensures var g, w, targ := CyclicSuffixes(), World({"x.o"}, {}), Src("x.o", "x", 0, None);
            WellFormed(g) && Known(g, [targ]) && Known(g, NextLevel(g, [targ])) && !Ends(g, w, NextLevel(g, [targ]))
  {
    var g, w, targ := CyclicSuffixes(), World({"x.o"}, {}), Src("x.o", "x", 0, None);
    NextLevelKnown(g, [targ]);
    var q := NextLevel(g, [targ]);
    hide NextLevel, SourcesOf, Ends;
    forall s, d: nat | Derives(g, q, s, d)
      ensures !Exists(w, s)
    {
      OnlyCyclicFiles(q, targ, s, d);
    }
    var first := Src("x.c", "x", 1, Some(targ));
    NextLevelIff(g, [targ], first);
    assert Path(g, [1, 2, 1]) by {
      CyclicPath();
    }
    assert PathFrom(g, q, [1, 2, 1]);
    SearchEndsIff(g, w, q);
  }

  lemma CyclicPath()
    ensures Path(CyclicSuffixes(), [1, 2, 1])
  {
    assert [1, 2, 1][..2] == [1, 2] && [1, 2][..1] == [1];
  }

  lemma {:induction false} OnlyCyclicFiles(q: seq<Src>, targ: Src, s: Src, d: nat)
    requires var g := CyclicSuffixes();
             WellFormed(g) && Known(g, [targ]) && q == NextLevel(g, [targ]) && Derives(g, q, s, d)
    requires targ.suff == 0 && targ.pref == "x"
    ensures s.pref == "x" && ((s.suff == 1 && s.file == "x.c") || (s.suff == 2 && s.file == "x.l"))
    decreases d
  {
    hide NextLevel, SourcesOf;
    if d == 0 {
      NextLevelIff(CyclicSuffixes(), [targ], s);
    } else {
      OnlyCyclicFiles(q, targ, s.parent.value, d - 1);
    }
  }

  predicate EndsWith(name: string, suffix: string) {
    |suffix| <= |name| && name[|name| - |suffix|..] == suffix
  }

  /** One target for every known suffix of the name, in the order of the list. */
  function Suffixed(g: seq<Suffix>, sufflist: seq<nat>, name: string): seq<Src>
    requires Below(sufflist, |g|)
  {
    if sufflist == [] then []
    else
      var n := |sufflist| - 1;
      var s := sufflist[n];
      var found := if EndsWith(name, g[s].name) then [Src(name, name[..|name| - |g[s].name|], s, None)] else [];
      Suffixed(g, sufflist[..n], name) + found
  }

  lemma NoneYet(g: seq<Suffix>, name: string)
    requires WellFormed(g)
    ensures Suffixed(g, [], name) == [] && NextLevel(g, []) == []
  {
  }

  lemma SuffixedOneMore(g: seq<Suffix>, sufflist: seq<nat>, k: nat, name: string)
    requires Below(sufflist, |g|) && k < |sufflist|
    ensures var s := sufflist[k];
            Suffixed(g, sufflist[..k + 1], name) == Suffixed(g, sufflist[..k], name) +
              if EndsWith(name, g[s].name) then [Src(name, name[..|name| - |g[s].name|], s, None)] else []
  {
    assert sufflist[..k + 1][..k] == sufflist[..k];
  }

  /** The targets a name stands for: with no known suffix the null suffix is used. */
  function Targets(g: seq<Suffix>, sufflist: seq<nat>, suffNull: Option<nat>, name: string): seq<Src>
    requires Below(sufflist, |g|)
  {
    var t := Suffixed(g, sufflist, name);
    if t == [] && suffNull.Some? then [Src(name, name, suffNull.value, None)] else t
  }

  /** The targets for which sources are looked for: none for a name of unknown suffix
      that has commands of its own. */
  function Roots(g: seq<Suffix>, sufflist: seq<nat>, suffNull: Option<nat>, name: string, hasCommands: bool): seq<Src>
    requires Below(sufflist, |g|)
  {
    if hasCommands then Suffixed(g, sufflist, name) else Targets(g, sufflist, suffNull, name)
  }

  /** A target splits the name at the suffix it stands for, or leaves it whole. */
  ghost predicate IsTarget(g: seq<Suffix>, name: string, t: Src) {
    && t.parent == None && t.file == name && t.suff < |g|
    && (t.pref == name || t.pref + g[t.suff].name == name)
  }

  lemma {:induction false} SuffixedAreTargets(g: seq<Suffix>, sufflist: seq<nat>, name: string, t: Src)
    requires Below(sufflist, |g|)
    ensures t in Suffixed(g, sufflist, name) ==> IsTarget(g, name, t) && t.pref + g[t.suff].name == name
  {
    if sufflist != [] {
      var n := |sufflist| - 1;
      SuffixedAreTargets(g, sufflist[..n], name, t);
      var k := |name| - |g[sufflist[n]].name|;
      assert k >= 0 ==> name[..k] + name[k..] == name;
    }
  }

  /** A name has exactly the targets whose suffix it ends in. */
  lemma {:induction false} SuffixedIff(g: seq<Suffix>, sufflist: seq<nat>, name: string, p: string, s: nat)
    requires Below(sufflist, |g|) && s < |g|
    ensures Src(name, p, s, None) in Suffixed(g, sufflist, name) <==> s in sufflist && name == p + g[s].name
  {
    if sufflist != [] {
      var n := |sufflist| - 1;
      var c := sufflist[n];
      SuffixedIff(g, sufflist[..n], name, p, s);
      assert s in sufflist <==> s in sufflist[..n] || s == c;
      var k := |name| - |g[c].name|;
      assert k >= 0 ==> name[..k] + name[k..] == name;
      assert name == p + g[c].name ==> k == |p| && name[..k] == p && name[k..] == g[c].name;
    }
  }

  /** The targets come in the order of the list of suffixes. */
  lemma {:induction false} SuffixedOrder(g: seq<Suffix>, sufflist: seq<nat>, name: string, i: nat, j: nat) returns (a: nat, b: nat)
    requires Below(sufflist, |g|) && i < j < |Suffixed(g, sufflist, name)|
    ensures a < b < |sufflist| && Suffixed(g, sufflist, name)[i].suff == sufflist[a]
    ensures Suffixed(g, sufflist, name)[j].suff == sufflist[b]
  {
    var n := |sufflist| - 1;
    var front := Suffixed(g, sufflist[..n], name);
    if j < |front| {
      a, b := SuffixedOrder(g, sufflist[..n], name, i, j);
    } else {
      SuffixedAreTargets(g, sufflist[..n], name, front[i]);
      a := SuffixedPlace(g, sufflist[..n], name, i);
      b := n;
    }
  }

  lemma {:induction false} SuffixedPlace(g: seq<Suffix>, sufflist: seq<nat>, name: string, i: nat) returns (a: nat)
    requires Below(sufflist, |g|) && i < |Suffixed(g, sufflist, name)|
    ensures a < |sufflist| && Suffixed(g, sufflist, name)[i].suff == sufflist[a]
  {
    var n := |sufflist| - 1;
    if i < |Suffixed(g, sufflist[..n], name)| {
      a := SuffixedPlace(g, sufflist[..n], name, i);
    } else {
      a := n;
    }
  }

  lemma KnownSuffix(g: seq<Suffix>, sufflist: seq<nat>, name: string, i: nat)
    requires Below(sufflist, |g|) && i < |Suffixed(g, sufflist, name)|
    ensures var t := Suffixed(g, sufflist, name)[i];
            t.suff in sufflist && t.suff < |g| && name == t.pref + g[t.suff].name
  {
    hide Suffixed;
    SuffixedAreTargets(g, sufflist, name, Suffixed(g, sufflist, name)[i]);
    var a := SuffixedPlace(g, sufflist, name, i);
  }

  /** A name of no known suffix has the null suffix, if there is one, and is searched for
      only if it has no commands of its own. */
  lemma UnknownSuffix(g: seq<Suffix>, sufflist: seq<nat>, suffNull: Option<nat>, name: string, hasCommands: bool)
    requires Below(sufflist, |g|)
    requires forall s, p :: s in sufflist && s < |g| ==> name != p + g[s].name
    ensures Targets(g, sufflist, suffNull, name) == if suffNull.Some? then [Src(name, name, suffNull.value, None)] else []
    ensures Roots(g, sufflist, suffNull, name, hasCommands) == if hasCommands then [] else Targets(g, sufflist, suffNull, name)
  {
    hide Suffixed;
    var t := Suffixed(g, sufflist, name);
    if t != [] {
      KnownSuffix(g, sufflist, name, 0);
    }
  }

  ghost predicate AllTargets(g: seq<Suffix>, name: string, q: seq<Src>) {
    forall i :: 0 <= i < |q| ==> IsTarget(g, name, q[i])
  }

  lemma RootsAreTargets(g: seq<Suffix>, sufflist: seq<nat>, suffNull: Option<nat>, name: string, hasCommands: bool)
    requires Below(sufflist, |g|) && (suffNull.Some? ==> suffNull.value < |g|)
    ensures AllTargets(g, name, Roots(g, sufflist, suffNull, name, hasCommands))
    ensures AllTargets(g, name, Targets(g, sufflist, suffNull, name))
    ensures Known(g, Roots(g, sufflist, suffNull, name, hasCommands))
  {
    hide Suffixed;
    var s := Suffixed(g, sufflist, name);
    forall i | 0 <= i < |s|
      ensures IsTarget(g, name, s[i])
    {
      SuffixedAreTargets(g, sufflist, name, s[i]);
    }
  }

  /** Working up the transformation path. */
  function Root(s: Src): Src {
    if s.parent.None? then s else Root(s.parent.value)
  }

  /** The path from a source leads up to the target, with one prefix all the way. */
  lemma {:induction false} RootOfSource(g: seq<Suffix>, name: string, q: seq<Src>, s: Src, d: nat)
    requires AllTargets(g, name, q) && Derives(g, q, s, d)
    ensures Root(s) in q && Root(s).pref == s.pref
  {
    if d > 0 {
      RootOfSource(g, name, q, s.parent.value, d - 1);
    }
  }

  /** Some existing file has a path of at least one transformation to `q`. */
  ghost predicate HasSourceBelow(g: seq<Suffix>, w: World, q: seq<Src>) {
    exists s, d: nat :: d > 0 && Derives(g, q, s, d) && Exists(w, s)
  }

  lemma SourceBelow(g: seq<Suffix>, w: World, q: seq<Src>)
    requires WellFormed(g) && Known(g, q) && Known(g, NextLevel(g, q))
    ensures HasSourceBelow(g, w, q) <==> HasSource(g, w, NextLevel(g, q))
  {
    hide NextLevel, Derives;
    if s, d: nat :| d > 0 && Derives(g, q, s, d) && Exists(w, s) {
      DerivesShift(g, q, s, d - 1);
    }
    if s, d: nat :| Derives(g, NextLevel(g, q), s, d) && Exists(w, s) {
      DerivesShift(g, q, s, d);
    }
  }

  lemma DerivesShift(g: seq<Suffix>, q: seq<Src>, s: Src, d: nat)
    requires WellFormed(g) && Known(g, q) && Known(g, NextLevel(g, q))
    ensures Derives(g, NextLevel(g, q), s, d) <==> Derives(g, q, s, d + 1)
  {
    hide NextLevel, Derives, Level;
    LevelShift(g, q, d);
    LevelIff(g, NextLevel(g, q), s, d);
    LevelIff(g, q, s, d + 1);
  }

  lemma FirstPrecedesBelow(g: seq<Suffix>, w: World, q: seq<Src>, s: Src, d: nat, i: nat, t: Src)
    requires WellFormed(g) && Known(g, q) && Known(g, NextLevel(g, q)) && IsFirst(g, w, NextLevel(g, q), s, d, i)
    requires Derives(g, q, t, d + 1) && Exists(w, t) && t != s
    ensures Precedes(g, q, s, t, d + 1)
  {
    hide Level, Derives, Precedes, NextLevel;
    LevelShift(g, q, d);
    LevelIff(g, q, t, d + 1);
    var l := Level(g, q, d + 1);
    forall k | 0 <= k < i
      ensures l[k] != t
    {
      assert l[..i][k] == l[k];
    }
    var j :| 0 <= j < |l| && l[j] == t;
    LevelOrder(g, q, d + 1, i, j);
  }

  lemma FoundBelow(g: seq<Suffix>, w: World, q: seq<Src>, s: Src, d: nat, i: nat)
    requires WellFormed(g) && Known(g, q) && Known(g, NextLevel(g, q)) && IsFirst(g, w, NextLevel(g, q), s, d, i)
    ensures Derives(g, q, s, d + 1) && Exists(w, s)
    ensures forall t, e: nat :: e > 0 && Derives(g, q, t, e) && Exists(w, t) ==> d + 1 <= e
    ensures forall t :: Derives(g, q, t, d + 1) && Exists(w, t) && t != s ==> Precedes(g, q, s, t, d + 1)
  {
    hide NextLevel, Derives, Level, Precedes;
    FirstIsShortest(g, w, NextLevel(g, q), s, d, i);
    DerivesShift(g, q, s, d);
    forall t | Derives(g, q, t, d + 1) && Exists(w, t) && t != s
      ensures Precedes(g, q, s, t, d + 1)
    {
      FirstPrecedesBelow(g, w, q, s, d, i, t);
    }
    forall t, e: nat | e > 0 && Derives(g, q, t, e) && Exists(w, t)
      ensures d + 1 <= e
    {
      DerivesShift(g, q, t, e - 1);
    }
  }

  lemma AcyclicBelow(g: seq<Suffix>, q: seq<Src>)
    requires WellFormed(g) && Known(g, q) && Known(g, NextLevel(g, q))
    ensures AcyclicFrom(g, q) ==> AcyclicFrom(g, NextLevel(g, q))
  {
    hide NextLevel, AcyclicFrom;
    EmptyLevelIffAcyclic(g, q);
    EmptyLevelIffAcyclic(g, NextLevel(g, q));
    if d :| Level(g, q, d) == [] {
      EmptyGoesOn(g, q, d);
      LevelShift(g, q, d);
    }
  }

  class Search {
    const g: seq<Suffix>
    const w: World
    const sufflist: seq<nat>
    const suffNull: Option<nat>
    var srcs: seq<Src>
    var slst: seq<Src>

    constructor (g: seq<Suffix>, w: World, sufflist: seq<nat>, suffNull: Option<nat>)
      ensures this.g == g && this.w == w && this.sufflist == sufflist && this.suffNull == suffNull
      ensures srcs == [] && slst == []
    {
      this.g, this.w, this.sufflist, this.suffNull := g, w, sufflist, suffNull;
      srcs, slst := [], [];
    }

    /** SuffAddSrc */
    method AddSrc(c: nat, targ: Src)
      requires c < |g|
      modifies this`srcs
      ensures srcs == old(srcs) + SourcesFor(g, targ, c)
    {
      if g[c].isNull && g[c].name != "" {
        srcs := srcs + [Src(targ.pref, targ.pref, c, Some(targ))];
      }
      srcs := srcs + [Src(targ.pref + g[c].name, targ.pref, c, Some(targ))];
    }

    /** SuffAddLevel: all files from which `targ` can be made join the end of the list. */
    method AddLevel(targ: Src)
      requires WellFormed(g) && targ.suff < |g|
      modifies this`srcs
      ensures srcs == old(srcs) + SourcesOf(g, targ, g[targ.suff].children)
    {
      var cs := g[targ.suff].children;
      for k := 0 to |cs|
        invariant srcs == old(srcs) + SourcesOf(g, targ, cs[..k])
      {
        assert cs[..k + 1][..k] == cs[..k];
        AddSrc(cs[k], targ);
      }
      assert cs[..|cs|] == cs;
    }

    /** SuffFindThem. It comes to an end if some existing file can be reached or no
        cycle of suffixes can; SearchEndsIff shows that it does not otherwise. */
    method FindThem() returns (rs: Option<Src>, ghost d: nat, ghost i: nat)
      requires WellFormed(g) && Known(g, srcs)
      requires HasSource(g, w, srcs) || AcyclicFrom(g, srcs)
      modifies this`srcs, this`slst
      ensures rs.Some? ==> IsFirst(g, w, old(srcs), rs.value, d, i)
      ensures rs.Some? ==> forall t :: Derives(g, old(srcs), t, d) && Exists(w, t) && t != rs.value ==>
                             Precedes(g, old(srcs), rs.value, t, d)
      ensures rs.Some? ==> slst == old(slst) + Tried(g, old(srcs), d) + Level(g, old(srcs), d)[..i]
      ensures rs.None? ==> !HasSource(g, w, old(srcs)) && srcs == []
    {
      hide Level, SourcesOf, NextLevel, Queue, HasSource, Precedes, Derives;
      ghost var q := srcs;
      ghost var last := StopLevel(g, w, q);
      rs, d, i := None, 0, 0;
      QueueStart(g, q);
      while srcs != []
        invariant i <= |Level(g, q, d)| && d <= last
        invariant srcs == Queue(g, q, d, i)
        invariant NoneUpTo(g, w, q, d) && NoneExists(w, Level(g, q, d)[..i])
        invariant slst == old(slst) + Tried(g, q, d) + Level(g, q, d)[..i]
        decreases last - d, |Level(g, q, d)| - i
      {
        if i == |Level(g, q, d)| {
          QueueWraps(g, q, d);
          LevelsGoOn(g, w, q, d, last);
          assert Level(g, q, d)[..i] == Level(g, q, d);
          d, i := d + 1, 0;
        }
        QueueStep(g, q, d, i);
        var s := srcs[0];
        srcs := srcs[1..];
        if Exists(w, s) {
          rs := Some(s);
          break;
        }
        AddLevel(s);
        slst := slst + [s];
        i := i + 1;
      }
      if rs.None? {
        SearchedAll(g, w, q, d, i);
      } else {
        FirstPrecedesAll(g, w, q, rs.value, d, i);
      }
    }

    /** The targets of a name, and the files each could be made from. */
    method SetUp(name: string, hasCommands: bool) returns (targs: seq<Src>)
      requires WellFormed(g) && Below(sufflist, |g|) && (suffNull.Some? ==> suffNull.value < |g|) && srcs == []
      requires Known(g, Roots(g, sufflist, suffNull, name, hasCommands))
      modifies this`srcs
      ensures targs == Targets(g, sufflist, suffNull, name)
      ensures srcs == NextLevel(g, Roots(g, sufflist, suffNull, name, hasCommands))
    {
      hide SourcesOf, NextLevel, Suffixed;
      NoneYet(g, name);
      assert sufflist[..0] == [];
      targs := [];
      for k := 0 to |sufflist|
        invariant targs == Suffixed(g, sufflist[..k], name)
        invariant Known(g, targs) && srcs == NextLevel(g, targs)
      {
        var s := sufflist[k];
        SuffixedOneMore(g, sufflist, k, name);
        if EndsWith(name, g[s].name) {
          var targ := Src(name, name[..|name| - |g[s].name|], s, None);
          NextLevelOfOneMore(g, targs, targ);
          AddLevel(targ);
          targs := targs + [targ];
        }
      }
      assert sufflist[..|sufflist|] == sufflist;
      if targs == [] && suffNull.Some? {
        var targ := Src(name, name, suffNull.value, None);
        NextLevelOfOneMore(g, [], targ);
        assert [] + [targ] == [targ];
        if !hasCommands {
          AddLevel(targ);
        }
        targs := [targ];
      }
    }

    /** The search of SuffFindNormalDeps: the targets of the name are set up, their
        sources searched, and the path of the one found is worked up again. */
    method FindSource(name: string, hasCommands: bool) returns (targ: Option<Src>, bottom: Option<Src>, ghost d: nat)
      requires WellFormed(g) && Below(sufflist, |g|) && (suffNull.Some? ==> suffNull.value < |g|) && srcs == []
      requires var roots := Roots(g, sufflist, suffNull, name, hasCommands);
               HasSourceBelow(g, w, roots) || AcyclicFrom(g, roots)
      modifies this`srcs, this`slst
      ensures var roots := Roots(g, sufflist, suffNull, name, hasCommands);
              match bottom
              case Some(s) =>
                && d > 0 && Derives(g, roots, s, d) && Exists(w, s)
                && (forall t, e: nat :: e > 0 && Derives(g, roots, t, e) && Exists(w, t) ==> d <= e)
                && (forall t :: Derives(g, roots, t, d) && Exists(w, t) && t != s ==> Precedes(g, roots, s, t, d))
                && targ == Some(Root(s)) && Root(s) in roots && Root(s).pref == s.pref
              case None =>
                && !HasSourceBelow(g, w, roots)
                && var targs := Targets(g, sufflist, suffNull, name);
                   targ == if targs == [] then None else Some(targs[0])
    {
      hide Suffixed, NextLevel, Derives, Level, SourcesOf, HasSource, HasSourceBelow, IsTarget, Precedes;
      ghost var roots := Roots(g, sufflist, suffNull, name, hasCommands);
      RootsAreTargets(g, sufflist, suffNull, name, hasCommands);
      NextLevelKnown(g, roots);
      SourceBelow(g, w, roots);
      AcyclicBelow(g, roots);
      var targs := SetUp(name, hasCommands);
      ghost var i;
      bottom, d, i := FindThem();
      if bottom.None? {
        targ := if targs == [] then None else Some(targs[0]);
      } else {
        FoundBelow(g, w, roots, bottom.value, d, i);
        RootOfSource(g, name, roots, bottom.value, d + 1);
        var t := bottom.value;
        while t.parent.Some?
          invariant Root(t) == Root(bottom.value)
          decreases t
        {
          t := t.parent.value;
        }
        targ := Some(t);
        d := d + 1;
      }
    }
  }
}
