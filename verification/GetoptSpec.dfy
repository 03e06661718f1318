/** What a run of getopt over an argument list means, independently of how the
    arguments are permuted on the way. */
module GetoptSpec {
  import opened Wrappers

  const BAD_OPTION := '\0'

  datatype Kind = Unknown | Plain | Required | Optional

  function IndexOf(s: string, c: char): (i: nat)
    ensures i <= |s| && (i < |s| ==> s[i] == c) && forall j :: 0 <= j < i ==> s[j] != c
  {
    if s == [] || s[0] == c then 0 else 1 + IndexOf(s[1..], c)
  }

  /** What OPTSTRING says about an option character. */
  function KindOf(opts: string, c: char): Kind {
    var i := IndexOf(opts, c);
    if i == |opts| || c == ':' then Unknown
    else if i + 1 < |opts| && opts[i + 1] == ':' then
      if i + 2 < |opts| && opts[i + 2] == ':' then Optional else Required
    else Plain
  }

  lemma {:induction false} IndexOfSplit(pre: string, c: char, post: string)
    requires c !in pre
    ensures IndexOf(pre + [c] + post, c) == |pre|
  {
    if pre != [] {
      assert (pre + [c] + post)[1..] == pre[1..] + [c] + post;
      IndexOfSplit(pre[1..], c, post);
    }
  }

  /** An option character takes no argument, one that must be there, or one that may,
      as no, one or two colons follow it; the first place it is listed at counts. */
  lemma KindIsColons(pre: string, c: char, post: string)
    requires c != ':' && c !in pre
    ensures var kind := KindOf(pre + [c] + post, c);
            && (kind == Plain <==> !([':'] <= post))
            && (kind == Required <==> [':'] <= post && !([':', ':'] <= post))
            && (kind == Optional <==> [':', ':'] <= post)
  {
    IndexOfSplit(pre, c, post);
    var opts := pre + [c] + post;
    assert forall k :: 0 <= k < |post| ==> opts[|pre| + 1 + k] == post[k];
  }

  /** Only what is listed is an option, and ':' never is. */
  lemma UnknownIffUnlisted(opts: string, c: char)
    ensures KindOf(opts, c) == Unknown <==> c == ':' || c !in opts
  {
    var i := IndexOf(opts, c);
    assert i < |opts| ==> opts[i] in opts;
  }

  /** An option element starts with '-' and is not just "-". */
  predicate IsOption(a: string) {
    |a| >= 2 && a[0] == '-'
  }

  /** What one call of getopt reports: the character and its argument. */
  datatype Report = Report(c: char, arg: Option<string>)

  /** The answer for a missing argument. */
  function Missing(opts: string): char {
    if opts != [] && opts[0] == ':' then ':' else BAD_OPTION
  }

  /** How many elements the characters left in an option element use up. */
  function Span(opts: string, chars: string, more: bool): (n: nat)
    requires chars != []
    ensures n == 1 || (n == 2 && more)
  {
    match KindOf(opts, chars[0])
    case Required => if |chars| == 1 && more then 2 else 1
    case Optional => 1
    case _ => if |chars| == 1 then 1 else Span(opts, chars[1..], more)
  }

  /** What the characters left in an option element report, given the next element. */
  function ReportsOf(opts: string, chars: string, next: Option<string>): seq<Report>
    requires chars != []
  {
    var c, rest := chars[0], chars[1..];
    match KindOf(opts, c)
    case Required =>
      [if rest != [] then Report(c, Some(rest))
       else if next.Some? then Report(c, next)
       else Report(Missing(opts), None)]
    case Optional => [Report(c, if rest != [] then Some(rest) else None)]
    case Plain => [Report(c, None)] + if rest == [] then [] else ReportsOf(opts, rest, next)
    case Unknown => [Report(BAD_OPTION, None)] + if rest == [] then [] else ReportsOf(opts, rest, next)
  }

  function Next(args: seq<string>): Option<string> {
    if |args| >= 2 then Some(args[1]) else None
  }

  /** The elements that are options, arguments of options or "--", in order. */
  function Options(opts: string, args: seq<string>): seq<string>
    decreases |args|
  {
    if args == [] then []
    else if args[0] == "--" then ["--"]
    else if IsOption(args[0]) then
      var n := Span(opts, args[0][1..], |args| > 1);
      args[..n] + Options(opts, args[n..])
    else Options(opts, args[1..])
  }

  /** The other elements, in order; everything after "--" is one of them. */
  function Others(opts: string, args: seq<string>): seq<string>
    decreases |args|
  {
    if args == [] then []
    else if args[0] == "--" then args[1..]
    else if IsOption(args[0]) then Others(opts, args[Span(opts, args[0][1..], |args| > 1)..])
    else [args[0]] + Others(opts, args[1..])
  }

  /** All that the calls of a complete run report. */
  function Reports(opts: string, args: seq<string>): seq<Report>
    decreases |args|
  {
    if args == [] || args[0] == "--" then []
    else if IsOption(args[0]) then
      var chars := args[0][1..];
      ReportsOf(opts, chars, Next(args)) + Reports(opts, args[Span(opts, chars, |args| > 1)..])
    else Reports(opts, args[1..])
  }

  /** The same three for a scan that stands before `args`, with the characters
      `chars` of args[0] still to be looked at when there are any. */
  function OptionsAhead(opts: string, chars: string, args: seq<string>): seq<string>
    requires chars != [] ==> args != []
  {
    if chars == [] then Options(opts, args)
    else var n := Span(opts, chars, |args| > 1); args[..n] + Options(opts, args[n..])
  }

  function OthersAhead(opts: string, chars: string, args: seq<string>): seq<string>
    requires chars != [] ==> args != []
  {
    Others(opts, if chars == [] then args else args[Span(opts, chars, |args| > 1)..])
  }

  function ReportsAhead(opts: string, chars: string, args: seq<string>): seq<Report>
    requires chars != [] ==> args != []
  {
    if chars == [] then Reports(opts, args)
    else ReportsOf(opts, chars, Next(args)) + Reports(opts, args[Span(opts, chars, |args| > 1)..])
  }

  /** Options and others together are the arguments, rearranged. */
  lemma {:induction false} PartitionIsPermutation(opts: string, args: seq<string>)
    ensures multiset(Options(opts, args) + Others(opts, args)) == multiset(args)
    decreases |args|
  {
    if args != [] && args[0] == "--" {
      assert args == ["--"] + args[1..];
    } else if args != [] {
      var n := if IsOption(args[0]) then Span(opts, args[0][1..], |args| > 1) else 1;
      var o, t := Options(opts, args[n..]), Others(opts, args[n..]);
      PartitionIsPermutation(opts, args[n..]);
      assert args == args[..n] + args[n..];
      hide Options, Others;
      assert multiset(args) == multiset(args[..n]) + multiset(o) + multiset(t);
      assert args[..1] == [args[0]];
    }
  }

  /** What the elements mean one at a time: a required argument is the rest of the
      element, or the next element whatever it looks like, or is missing. */
  lemma RequiredArgument(opts: string, c: char, attached: string, rest: seq<string>)
    requires KindOf(opts, c) == Required && c != '-'
    ensures var args := ["-" + [c] + attached] + rest;
            if attached != "" then
              && Reports(opts, args) == [Report(c, Some(attached))] + Reports(opts, rest)
              && Options(opts, args) == args[..1] + Options(opts, rest) && Others(opts, args) == Others(opts, rest)
            else if rest != [] then
              && Reports(opts, args) == [Report(c, Some(rest[0]))] + Reports(opts, rest[1..])
              && Options(opts, args) == args[..2] + Options(opts, rest[1..]) && Others(opts, args) == Others(opts, rest[1..])
            else
              && Reports(opts, args) == [Report(if [':'] <= opts then ':' else BAD_OPTION, None)]
              && Options(opts, args) == args && Others(opts, args) == []
  {
    hide KindOf;
    var args := ["-" + [c] + attached] + rest;
    assert args[0][1..] == [c] + attached && args[0][1] == c;
    assert args[1..] == rest && (rest != [] ==> args[2..] == rest[1..]);
  }

  /** An optional argument is the rest of the element only. */
  lemma OptionalArgument(opts: string, c: char, attached: string, rest: seq<string>)
    requires KindOf(opts, c) == Optional && c != '-'
    ensures var args := ["-" + [c] + attached] + rest;
            && Reports(opts, args) == [Report(c, if attached == "" then None else Some(attached))] + Reports(opts, rest)
            && Options(opts, args) == args[..1] + Options(opts, rest) && Others(opts, args) == Others(opts, rest)
  {
    hide KindOf;
    var args := ["-" + [c] + attached] + rest;
    assert args[0][1..] == [c] + attached && args[0][1] == c;
    assert args[1..] == rest;
  }

  /** What an option element contributes. */
  lemma ElementAhead(opts: string, chars: string, rest: seq<string>)
    requires chars != "" && chars != "-"
    ensures var args, n := ["-" + chars] + rest, Span(opts, chars, rest != []);
            && Reports(opts, args) == ReportsOf(opts, chars, Next(args)) + Reports(opts, args[n..])
            && Others(opts, args) == Others(opts, args[n..])
  {
    hide ReportsOf, Span;
    assert (["-" + chars] + rest)[0][1..] == chars;
  }

  lemma FirstOfCluster(opts: string, chars: string, next: Option<string>, more: bool)
    requires chars != "" && (KindOf(opts, chars[0]) == Plain || KindOf(opts, chars[0]) == Unknown)
    ensures ReportsOf(opts, chars, next) ==
              [Report(if KindOf(opts, chars[0]) == Plain then chars[0] else BAD_OPTION, None)] +
              if |chars| == 1 then [] else ReportsOf(opts, chars[1..], next)
    ensures Span(opts, chars, more) == if |chars| == 1 then 1 else Span(opts, chars[1..], more)
  {
    hide KindOf;
  }

  /** The first of several options in an element is reported by itself, and the others
      as if they stood alone; unknown ones are reported as bad. */
  lemma Cluster(opts: string, c: char, more: string, rest: seq<string>)
    requires (KindOf(opts, c) == Plain || KindOf(opts, c) == Unknown) && c != '-' && more != "" && more != "-"
    ensures var together, alone := ["-" + ([c] + more)] + rest, ["-" + more] + rest;
            && Reports(opts, together) == [Report(if KindOf(opts, c) == Plain then c else BAD_OPTION, None)] + Reports(opts, alone)
            && Others(opts, together) == Others(opts, alone)
  {
    hide KindOf, Reports, Others, ReportsOf, Span;
    var together, alone := ["-" + ([c] + more)] + rest, ["-" + more] + rest;
    assert ([c] + more)[1..] == more;
    ElementAhead(opts, [c] + more, rest);
    ElementAhead(opts, more, rest);
    FirstOfCluster(opts, [c] + more, Next(together), rest != []);
    var n := Span(opts, more, rest != []);
    assert Next(together) == Next(alone) && together[n..] == alone[n..];
  }

  /** The first "--" that is no argument ends the options; other elements that are no
      options, a single '-' among them, are passed over. */
  lemma NoOptions(opts: string, a: string, rest: seq<string>)
    requires a == "--" || a == "" || a[0] != '-' || a == "-"
    ensures var args := [a] + rest;
            if a == "--" then Reports(opts, args) == [] && Options(opts, args) == [a] && Others(opts, args) == rest
            else && Reports(opts, args) == Reports(opts, rest) && Options(opts, args) == Options(opts, rest)
                 && Others(opts, args) == [a] + Others(opts, rest)
  {
    assert ([a] + rest)[1..] == rest;
  }

  /** gzip -S .z file, with any option string that lists S with one colon. */
  lemma SuffixOption(pre: string, post: string)
    requires 'S' !in pre && !([':'] <= post)
    ensures var opts, args := pre + "S:" + post, ["-S", ".z", "file"];
            Reports(opts, args) == [Report('S', Some(".z"))] && Options(opts, args) == ["-S", ".z"] && Others(opts, args) == ["file"]
  {
    hide KindOf, Reports, Options, Others;
    var opts := pre + "S:" + post;
    assert opts == pre + ['S'] + (":" + post);
    KindIsColons(pre, 'S', ":" + post);
    assert post != "" && post[0] == ':' ==> [':'] <= post;
    assert post != "" ==> (":" + post)[1] == post[0];
    RequiredArgument(opts, 'S', "", [".z", "file"]);
    assert "-" + ['S'] + "" == "-S" && ["-S"] + [".z", "file"] == ["-S", ".z", "file"] && [".z", "file"][1..] == ["file"];
    NoOptions(opts, "file", []);
    assert ["file"] + [] == ["file"] && ["-S", ".z", "file"][..2] == ["-S", ".z"];
    NothingLeft(opts);
  }

  lemma NothingLeft(opts: string)
    ensures Reports(opts, []) == [] && Options(opts, []) == [] && Others(opts, []) == []
  {
  }
}
