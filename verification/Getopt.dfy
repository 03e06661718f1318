/** `getopt.c` in PERMUTE mode with short options: the permutation of argv while
    it is being scanned. */
module Getopt {
  import opened Wrappers
  import opened GetoptSpec

  /** `a` with the elements from lo to hi in opposite order. */
  function Flipped(a: seq<string>, lo: nat, hi: nat): (b: seq<string>)
    requires lo <= hi <= |a|
    ensures |b| == |a|
  {
    seq(|a|, i requires 0 <= i < |a| => if lo <= i < hi then a[lo + hi - 1 - i] else a[i])
  }

  /** The two neighbouring stretches a[f..l] and a[l..o] change places. */
  function Exchanged(a: seq<string>, f: nat, l: nat, o: nat): seq<string>
    requires f <= l <= o <= |a|
  {
    a[..f] + a[l..o] + a[f..l] + a[o..]
  }

  /** Reversing a stretch and then each of its two parts rotates it: the parts
      have changed places, each in its old order. */
  lemma ThreeReversals(a: seq<string>, f: nat, l: nat, o: nat)
    requires f <= l <= o <= |a|
    ensures Flipped(Flipped(Flipped(a, f, o), f, f + (o - l)), f + (o - l), o) == Exchanged(a, f, l, o)
  {
    forall i: nat | i < |a| {
      ThreeReversalsAt(a, f, l, o, i);
    }
  }

  lemma ThreeReversalsAt(a: seq<string>, f: nat, l: nat, o: nat, i: nat)
    requires f <= l <= o <= |a| && i < |a|
    ensures Flipped(Flipped(Flipped(a, f, o), f, f + (o - l)), f + (o - l), o)[i] == Exchanged(a, f, l, o)[i]
  {
    hide Flipped, Exchanged;
    var m := f + (o - l);
    var b := Flipped(a, f, o);
    var c := Flipped(b, f, m);
    ExchangedAt(a, f, l, o, i);
    FlippedAt(c, m, o, i);
    var j := if m <= i < o then m + o - 1 - i else i;
    FlippedAt(b, f, m, j);
    FlippedAt(a, f, o, if f <= j < m then f + m - 1 - j else j);
  }

  lemma FlippedAt(a: seq<string>, lo: nat, hi: nat, i: nat)
    requires lo <= hi <= |a| && i < |a|
    ensures Flipped(a, lo, hi)[i] == if lo <= i < hi then a[lo + hi - 1 - i] else a[i]
  {
  }

  lemma ExchangedAt(a: seq<string>, f: nat, l: nat, o: nat, i: nat)
    requires f <= l <= o <= |a| && i < |a|
    ensures |Exchanged(a, f, l, o)| == |a|
    ensures Exchanged(a, f, l, o)[i] == if f <= i < f + o - l then a[l + i - f] else
                                        if f + o - l <= i < o then a[i - (o - l)] else a[i]
  {
  }

  /** Where a scan of `args` stands: of the array `a`, a[1..first] and a[last..optind]
      are options already passed, a[first..last] others already passed, and the
      rest has still to be scanned, starting with the characters `chars`. `done`
      is what has been reported. */
  ghost predicate Split(opts: string, args: seq<string>, done: seq<Report>, a: seq<string>,
                        first: nat, last: nat, optind: nat, chars: string)
  {
    && 1 <= first <= last <= optind <= |a| && (chars != [] ==> optind < |a|)
    && Options(opts, args) == a[1..first] + a[last..optind] + OptionsAhead(opts, chars, a[optind..])
    && Others(opts, args) == a[first..last] + OthersAhead(opts, chars, a[optind..])
    && Reports(opts, args) == done + ReportsAhead(opts, chars, a[optind..])
  }

  lemma SplitBounds(opts: string, args: seq<string>, done: seq<Report>, a: seq<string>,
                    first: nat, last: nat, optind: nat, chars: string)
    requires Split(opts, args, done, a, first, last, optind, chars)
    ensures 1 <= first <= last <= optind <= |a| && (chars != [] ==> optind < |a|)
  {
  }

  lemma StartOfScan(opts: string, a: seq<string>)
    requires a != []
    ensures Split(opts, a[1..], [], a, 1, 1, 1, "")
  {
    hide Options, Others, Reports;
    assert a[1..1] == [];
  }

  /** Exchanging the others with the options behind them keeps the account. */
  lemma ExchangeKeepsSplit(opts: string, args: seq<string>, done: seq<Report>, a: seq<string>, b: seq<string>,
                           f: nat, l: nat, o: nat)
    requires Split(opts, args, done, a, f, l, o, "")
    requires f <= l <= o <= |a| && b == Exchanged(a, f, l, o)
    ensures Split(opts, args, done, b, f + o - l, o, o, "")
  {
    hide Options, Others, Reports;
    var m := f + o - l;
    assert b[1..m] == a[1..f] + a[l..o];
    assert b[m..o] == a[f..l];
    assert b[o..] == a[o..] && b[o..o] == [];
  }

  /** With nothing skipped the options passed since join those passed before. */
  lemma NothingSkipped(opts: string, args: seq<string>, done: seq<Report>, a: seq<string>, f: nat, o: nat)
    requires Split(opts, args, done, a, f, f, o, "")
    ensures Split(opts, args, done, a, o, o, o, "")
  {
    hide Options, Others, Reports;
    assert a[1..o] == a[1..f] + a[f..o];
    assert a[o..o] == [] && a[f..f] == [];
  }

  lemma SkipNonOption(opts: string, args: seq<string>, done: seq<Report>, a: seq<string>, f: nat, o: nat)
    requires Split(opts, args, done, a, f, o, o, "")
    requires o < |a| && !IsOption(a[o])
    ensures Split(opts, args, done, a, f, o + 1, o + 1, "")
  {
    assert a[o..][0] == a[o] && a[o..][1..] == a[o + 1..];
    assert a[f..o + 1] == a[f..o] + [a[o]];
    assert a[o..o] == a[o + 1..o + 1] == [];
  }

  lemma OpenOption(opts: string, args: seq<string>, done: seq<Report>, a: seq<string>, f: nat, o: nat)
    requires Split(opts, args, done, a, f, o, o, "")
    requires o < |a| && IsOption(a[o]) && a[o] != "--"
    ensures a[o][1..] != "" && Split(opts, args, done, a, f, o, o, a[o][1..])
  {
    assert a[o..][0] == a[o];
  }

  /** At "--" the account is closed: everything behind it is one of the others. */
  lemma CloseAtDashes(opts: string, args: seq<string>, done: seq<Report>, a: seq<string>, f: nat, o: nat)
    requires Split(opts, args, done, a, f, o, o, "")
    requires o < |a| && a[o] == "--"
    ensures Options(opts, args) == a[1..f] + a[o..o + 1]
    ensures Others(opts, args) == a[f..o] + a[o + 1..]
    ensures Reports(opts, args) == done
  {
    assert a[o..][0] == a[o] && a[o..][1..] == a[o + 1..];
    assert a[o..o + 1] == ["--"] && a[o..o] == [];
  }

  lemma DashesExchanged(a: seq<string>, f: nat, o: nat)
    requires 1 <= f <= o < |a|
    ensures var b := if f < o then Exchanged(a, f, o, o + 1) else a;
            b[0] == a[0] && b[1..f + 1] == a[1..f] + a[o..o + 1] && b[f + 1..] == a[f..o] + a[o + 1..]
  {
    if f == o {
      assert a[f..o] == [];
    }
  }

  lemma Joined(a: seq<string>, f: nat)
    requires 1 <= f <= |a|
    ensures a[1..f] + a[f..] == a[1..] && |a[1..f]| == f - 1
  {
  }

  lemma CloseAtEnd(opts: string, args: seq<string>, done: seq<Report>, a: seq<string>, f: nat)
    requires Split(opts, args, done, a, f, |a|, |a|, "")
    ensures Options(opts, args) == a[1..f] && Others(opts, args) == a[f..] && Reports(opts, args) == done
  {
    assert a[|a|..] == [] && a[f..|a|] == a[f..];
  }

  /** The scan behind the next option character: how many elements it has used
      up, which characters are left, and what it reports. */
  function Stepped(opts: string, chars: string, next: Option<string>): (r: (nat, string, Report))
    requires chars != []
  {
    var c, rest := chars[0], chars[1..];
    var closing := if rest == [] then 1 else 0;
    match KindOf(opts, c)
    case Unknown => (closing, rest, Report(BAD_OPTION, None))
    case Plain => (closing, rest, Report(c, None))
    case Optional => (1, "", Report(c, if rest != [] then Some(rest) else None))
    case Required =>
      if rest != [] then (1, "", Report(c, Some(rest)))
      else if next.Some? then (2, "", Report(c, next))
      else (1, "", Report(Missing(opts), None))
  }

  /** One character at a time adds up to what the whole element means. */
  lemma SteppedIsOneOf(opts: string, chars: string, next: Option<string>)
    requires chars != []
    ensures var (n, rest, r) := Stepped(opts, chars, next);
            if rest == [] then Span(opts, chars, next.Some?) == n && ReportsOf(opts, chars, next) == [r]
            else n == 0 && Span(opts, chars, next.Some?) == Span(opts, rest, next.Some?) &&
                 ReportsOf(opts, chars, next) == [r] + ReportsOf(opts, rest, next)
  {
    hide KindOf;
  }

  /** Taking one option character keeps the account. */
  lemma StepKeepsSplit(opts: string, args: seq<string>, done: seq<Report>, a: seq<string>,
                       f: nat, l: nat, o: nat, chars: string)
    requires Split(opts, args, done, a, f, l, o, chars) && chars != []
    ensures var (n, rest, r) := Stepped(opts, chars, Next(a[o..]));
            Split(opts, args, done + [r], a, f, l, o + n, rest)
  {
    hide KindOf, Options, Others, Reports, Stepped, Span, ReportsOf, Next, OptionsAhead, OthersAhead, ReportsAhead;
    var t := a[o..];
    var (n, rest, r) := Stepped(opts, chars, Next(t));
    SteppedIsOneOf(opts, chars, Next(t));
    NextExists(t);
    AheadAfterStep(opts, chars, t);
    assert t[n..] == a[o + n..];
    assert a[l..o + n] == a[l..o] + t[..n];
  }

  lemma AheadAfterStep(opts: string, chars: string, t: seq<string>)
    requires chars != [] && t != []
    ensures var (n, rest, r) := Stepped(opts, chars, Next(t));
            && n <= |t| && (rest != [] ==> n < |t|)
            && OptionsAhead(opts, chars, t) == t[..n] + OptionsAhead(opts, rest, t[n..])
            && OthersAhead(opts, chars, t) == OthersAhead(opts, rest, t[n..])
            && ReportsAhead(opts, chars, t) == [r] + ReportsAhead(opts, rest, t[n..])
  {
    hide KindOf, Options, Others, Reports, Stepped, Span, ReportsOf, Next, OptionsAhead, OthersAhead, ReportsAhead;
    var (n, rest, r) := Stepped(opts, chars, Next(t));
    SteppedIsOneOf(opts, chars, Next(t));
    NextExists(t);
    AheadIs(opts, chars, t);
    if rest == [] {
      AheadIs(opts, rest, t[n..]);
    } else {
      AheadIs(opts, rest, t);
      assert t[0..] == t && t[..0] == [];
    }
  }

  lemma AheadIs(opts: string, chars: string, t: seq<string>)
    requires chars != [] ==> t != []
    ensures chars == [] ==> OptionsAhead(opts, chars, t) == Options(opts, t) &&
                            OthersAhead(opts, chars, t) == Others(opts, t) && ReportsAhead(opts, chars, t) == Reports(opts, t)
    ensures chars != [] ==>
              var n := Span(opts, chars, |t| > 1);
              && OptionsAhead(opts, chars, t) == t[..n] + Options(opts, t[n..])
              && OthersAhead(opts, chars, t) == Others(opts, t[n..])
              && ReportsAhead(opts, chars, t) == ReportsOf(opts, chars, Next(t)) + Reports(opts, t[n..])
  {
    hide Options, Others, Reports, Span, ReportsOf, Next;
  }

  lemma NextExists(args: seq<string>)
    ensures Next(args).Some? <==> |args| > 1
  {
  }

  class Scanner {
    const argv: array<string>
    const optstring: string
    var optind: nat
    var firstNonopt: nat
    var lastNonopt: nat
    var nextchar: string // empty for NULL as well: both mean the next element
    var optarg: Option<string>

    /** A string of options that starts with '-' or '+' would ask for another order. */
    constructor (args: array<string>, opts: string)
      requires opts == "" || (opts[0] != '-' && opts[0] != '+')
      ensures argv == args && optstring == opts && optind == 0
    {
      argv, optstring, optind := args, opts, 0;
      firstNonopt, lastNonopt, nextchar, optarg := 0, 0, "", None;
    }

    /** One of the three loops of exchange. */
    method ReverseRange(lo: nat, hi: nat)
      requires lo <= hi <= argv.Length
      modifies argv
      ensures argv[..] == Flipped(old(argv[..]), lo, hi)
    {
      ghost var a := argv[..];
      var first, last := lo, hi - 1;
      while first < last
        invariant lo <= first <= last + 2 && lo + hi - 1 == first + last
        invariant forall i :: lo <= i < first ==> argv[i] == a[lo + hi - 1 - i]
        invariant forall i :: last < i < hi ==> argv[i] == a[lo + hi - 1 - i]
        invariant forall i :: first <= i <= last ==> argv[i] == a[i]
        invariant forall i :: 0 <= i < argv.Length && !(lo <= i < hi) ==> argv[i] == a[i]
        decreases last - first
      {
        argv[first], argv[last] := argv[last], argv[first];
        first, last := first + 1, last - 1;
      }
    }

    /** exchange: three reversals swap the skipped non-options with the options
        found since, each group staying in order. */
    method Exchange()
      requires firstNonopt <= lastNonopt <= optind <= argv.Length
      modifies argv, this`firstNonopt, this`lastNonopt
      ensures argv[..] == Exchanged(old(argv[..]), old(firstNonopt), old(lastNonopt), optind)
      ensures firstNonopt == old(firstNonopt) + (optind - old(lastNonopt)) && lastNonopt == optind
    {
      hide Flipped, Exchanged;
      ThreeReversals(argv[..], firstNonopt, lastNonopt, optind);
      var first := firstNonopt;
      ReverseRange(first, optind);
      firstNonopt := firstNonopt + (optind - lastNonopt);
      ReverseRange(first, firstNonopt);
      lastNonopt := optind;
      ReverseRange(firstNonopt, lastNonopt);
    }

    /** What holds between two calls. */
    ghost predicate Scanning(args: seq<string>, done: seq<Report>)
      reads this, argv
    {
      Split(optstring, args, done, argv[..], firstNonopt, lastNonopt, optind, nextchar)
    }

    /** What holds after the call that answers EOF: the options stand first, the
        others behind them from optind on, and everything has been reported. */
    ghost predicate Finished(args: seq<string>, done: seq<Report>)
      reads this, argv
    {
      && argv.Length > 0
      && argv[1..] == Options(optstring, args) + Others(optstring, args)
      && optind == 1 + |Options(optstring, args)|
      && done == Reports(optstring, args)
    }

    /** If options have been passed since some non-options were skipped, the two
        change places; either way all of a[firstNonopt..optind] is then others. */
    method Regroup(ghost args: seq<string>, ghost done: seq<Report>)
      requires Scanning(args, done) && nextchar == ""
      modifies argv, this`firstNonopt, this`lastNonopt
      ensures Split(optstring, args, done, argv[..], firstNonopt, optind, optind, "")
      ensures argv[0] == old(argv[0])
    {
      hide Options, Others, Reports, KindOf, OptionsAhead, OthersAhead, ReportsAhead;
      ghost var a, f, l := argv[..], firstNonopt, lastNonopt;
      if firstNonopt != lastNonopt && lastNonopt != optind {
        Exchange();
        ExchangeKeepsSplit(optstring, args, done, a, argv[..], f, l, optind);
      } else if lastNonopt != optind {
        firstNonopt := optind;
        NothingSkipped(optstring, args, done, a, f, optind);
      }
    }

    method SkipNonOptions(ghost args: seq<string>, ghost done: seq<Report>)
      requires Split(optstring, args, done, argv[..], firstNonopt, optind, optind, "")
      modifies this`optind, this`lastNonopt
      ensures Split(optstring, args, done, argv[..], firstNonopt, optind, optind, "")
      ensures lastNonopt == optind >= old(optind)
      ensures optind == argv.Length || IsOption(argv[optind])
    {
      hide Options, Others, Reports, KindOf, OptionsAhead, OthersAhead, ReportsAhead;
      while optind < argv.Length && !IsOption(argv[optind])
        invariant Split(optstring, args, done, argv[..], firstNonopt, optind, optind, "")
        invariant optind >= old(optind)
      {
        SkipNonOption(optstring, args, done, argv[..], firstNonopt, optind);
        optind := optind + 1;
      }
      lastNonopt := optind;
    }

    /** All elements have been scanned: options stand before firstNonopt, others
        from there on. */
    ghost predicate Closed(args: seq<string>, done: seq<Report>)
      reads this, argv
    {
      && 1 <= firstNonopt <= lastNonopt == argv.Length
      && Options(optstring, args) == argv[1..firstNonopt]
      && Others(optstring, args) == argv[firstNonopt..]
      && Reports(optstring, args) == done
    }

    /** "--" ends the options: it is moved behind them, and what follows is skipped. */
    method SkipDashes(ghost args: seq<string>, ghost done: seq<Report>)
      requires Split(optstring, args, done, argv[..], firstNonopt, optind, optind, "")
      requires lastNonopt == optind
      modifies argv, this`firstNonopt, this`lastNonopt, this`optind
      ensures old(optind) <= optind <= argv.Length && argv[0] == old(argv[0])
      ensures optind == argv.Length ==> Closed(args, done)
      ensures optind < argv.Length ==> optind == old(optind) && lastNonopt == old(lastNonopt) && argv[optind] != "--"
      ensures optind < argv.Length ==> firstNonopt == old(firstNonopt) && argv[..] == old(argv[..])
    {
      hide Options, Others, Reports, KindOf, OptionsAhead, OthersAhead, ReportsAhead, Split, Exchanged, IsOption;
      ghost var a, f, o := argv[..], firstNonopt, optind;
      SplitBounds(optstring, args, done, a, f, o, o, "");
      if optind != argv.Length && argv[optind] == "--" {
        CloseAtDashes(optstring, args, done, a, f, o);
        optind := optind + 1;
        if firstNonopt != lastNonopt && lastNonopt != optind {
          Exchange();
        } else if firstNonopt == lastNonopt {
          firstNonopt := optind;
        }
        DashesExchanged(a, f, o);
        lastNonopt := argv.Length;
        optind := argv.Length;
      } else if optind == argv.Length {
        CloseAtEnd(optstring, args, done, a, f);
      }
    }

    /** The scan between two elements: permute, skip non-options, and stop at the
        end, at "--" or at the next option element. */
    method NextElement(ghost args: seq<string>, ghost done: seq<Report>) returns (eof: bool)
      requires Scanning(args, done) && nextchar == ""
      modifies argv, this`firstNonopt, this`lastNonopt, this`optind, this`nextchar
      ensures argv[0] == old(argv[0])
      ensures eof ==> Finished(args, done)
      ensures !eof ==> Scanning(args, done) && nextchar != "" && optind >= old(optind)
    {
      Regroup(args, done);
      SkipNonOptions(args, done);
      ghost var a := argv[..];
      SkipDashes(args, done);
      eof := optind == argv.Length;
      if eof {
        Joined(argv[..], firstNonopt);
        if firstNonopt != lastNonopt {
          optind := firstNonopt;
        }
      } else {
        assert argv[..][optind] == a[optind];
        OpenOption(optstring, args, done, argv[..], firstNonopt, optind);
        SplitBounds(optstring, args, done, a, firstNonopt, optind, optind, a[optind][1..]);
        nextchar := argv[optind][1..];
      }
    }

    /** One call of getopt: None is EOF; an argument of the option is in optarg. */
    method GetOpt(ghost args: seq<string>, ghost done: seq<Report>) returns (r: Option<char>)
      requires argv.Length > 0
      requires if optind == 0 then args == argv[1..] && done == [] else Scanning(args, done)
      modifies this, argv
      ensures argv[0] == old(argv[0])
      ensures r == None ==> Finished(args, done)
      ensures r.Some? ==> Scanning(args, done + [Report(r.value, optarg)]) && 0 < optind <= argv.Length
      ensures r.Some? ==> optind > old(optind) || (optind == old(optind) && nextchar != "" &&
                          (old(nextchar) == "" || |nextchar| < |old(nextchar)|))
    {
      hide Options, Others, Reports, KindOf, OptionsAhead, OthersAhead, ReportsAhead, Split;
      optarg := None;
      if optind == 0 {
        firstNonopt, lastNonopt, optind := 1, 1, 1;
        nextchar := "";
        StartOfScan(optstring, argv[..]);
      }
      if nextchar == "" {
        var eof := NextElement(args, done);
        if eof {
          return None;
        }
      }
      var c := NextCharacter(args, done);
      r := Some(c);
    }

    /** The option character at nextchar and its argument. */
    method NextCharacter(ghost args: seq<string>, ghost done: seq<Report>) returns (c: char)
      requires Scanning(args, done) && nextchar != "" && optarg == None
      modifies this`nextchar, this`optind, this`optarg
      ensures Scanning(args, done + [Report(c, optarg)])
      ensures 0 < optind <= argv.Length
      ensures optind > old(optind) || (optind == old(optind) && 0 < |nextchar| < |old(nextchar)|)
    {
      hide Options, Others, Reports, KindOf, OptionsAhead, OthersAhead, ReportsAhead;
      StepKeepsSplit(optstring, args, done, argv[..], firstNonopt, lastNonopt, optind, nextchar);
      c := nextchar[0];
      nextchar := nextchar[1..];
      if nextchar == "" {
        optind := optind + 1;
      }
      match KindOf(optstring, c) {
        case Unknown =>
          c := BAD_OPTION;
        case Plain =>
        case Optional =>
          if nextchar != "" {
            optarg := Some(nextchar);
            optind := optind + 1;
          }
          nextchar := "";
        case Required =>
          if nextchar != "" {
            optarg := Some(nextchar);
            optind := optind + 1;
          } else if optind == argv.Length {
            c := if optstring != "" && optstring[0] == ':' then ':' else BAD_OPTION;
          } else {
            optarg := Some(argv[optind]);
            optind := optind + 1;
          }
          nextchar := "";
      }
    }
  }

  /** A caller's loop over a whole argument list, until getopt answers EOF. */
  method ScanAll(s: Scanner) returns (reports: seq<Report>)
    requires s.argv.Length > 0 && s.optind == 0
    modifies s, s.argv
    ensures reports == Reports(s.optstring, old(s.argv[1..]))
    ensures s.argv[..] == [old(s.argv[0])] + Options(s.optstring, old(s.argv[1..])) + Others(s.optstring, old(s.argv[1..]))
    ensures s.optind == 1 + |Options(s.optstring, old(s.argv[1..]))|
  {
    hide Options, Others, Reports, KindOf, OptionsAhead, OthersAhead, ReportsAhead, Split;
    ghost var args := s.argv[1..];
    reports := [];
    var r := s.GetOpt(args, reports);
    while r.Some?
      invariant s.argv[0] == old(s.argv[0])
      invariant r.Some? ==> s.Scanning(args, reports + [Report(r.value, s.optarg)]) && 0 < s.optind <= s.argv.Length
      invariant r.None? ==> s.Finished(args, reports)
      decreases r.Some?, s.argv.Length - s.optind, s.nextchar == "", |s.nextchar|
    {
      reports := reports + [Report(r.value, s.optarg)];
      r := s.GetOpt(args, reports);
    }
    assert s.argv[..] == [s.argv[0]] + s.argv[1..];
  }
}
