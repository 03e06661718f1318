/** Conditional sections in makefiles (`cond.c`, Cond_Eval): four flat variables
    against the nested structure they stand for. */
module CondNesting {

  const MAXIF := 30

  /** A line as Cond_Eval sees it.  The value of an expression is computed
      elsewhere; Bad stands for a malformed one. */
  datatype Value = Bad | Is(b: bool)
  datatype Line = Text(id: nat) | If(v: Value) | Elif(v: Value) | Else | Endif

  datatype Answer = PARSE | SKIP | INVALID

  /** condStack, condTop, skipIfLevel, skipLine */
  datatype State = State(stack: seq<bool>, top: int, skipIf: nat, skipLine: bool)

  const INITIAL := State(seq(MAXIF, i => false), MAXIF, 0, false)

  predicate Proper(s: State) {
    |s.stack| == MAXIF && 0 <= s.top <= MAXIF
  }

  /** The common end of Cond_Eval: push a value, or look at an alternative. */
  function Enter(s: State, isElse: bool, value: bool): (State, Answer)
    requires Proper(s) && (isElse ==> s.top < MAXIF && s.skipIf == 0)
  {
    if isElse && s.stack[s.top] then (s.(skipLine := true), SKIP)
    else
      var top := if isElse then s.top else s.top - 1;
      if top < 0 then (s.(top := top), INVALID)
      else (s.(stack := s.stack[top := value], top := top, skipLine := !value), if value then PARSE else SKIP)
  }

  /** Cond_Eval */
  function Step(s: State, line: Line): (State, Answer)
    requires Proper(s)
  {
    match line
    case Text(_) => (s, INVALID)
    case Endif =>
      if s.skipIf != 0 then (s.(skipIf := s.skipIf - 1), SKIP)
      else if s.top == MAXIF then (s, INVALID)
      else (s.(skipLine := false, top := s.top + 1), PARSE)
    case Else =>
      if s.top == MAXIF then (s, INVALID)
      else if s.skipIf != 0 then (s, SKIP)
      else Enter(s, true, !s.stack[s.top])
    case Elif(v) =>
      if s.top == MAXIF then (s, INVALID)
      else if s.skipIf != 0 then (s, SKIP)
      else if v == Bad then (s, INVALID)
      else Enter(s, true, v.b)
    case If(v) =>
      if s.skipLine then (s.(skipIf := s.skipIf + 1), SKIP)
      else if v == Bad then (s, INVALID)
      else Enter(s, false, v.b)
  }

  /** The variables of `cond.c` as an object. */
  class Conditionals {
    const condStack: array<bool>
    var condTop: int
    var skipIfLevel: nat
    var skipLine: bool

    constructor ()
      ensures Abstract() == INITIAL && Usable() && fresh(condStack)
    {
      condStack := new bool[MAXIF](i => false);
      condTop, skipIfLevel, skipLine := MAXIF, 0, false;
    }

    ghost function Abstract(): State
      reads this, condStack
    {
      State(condStack[..], condTop, skipIfLevel, skipLine)
    }

    ghost predicate Usable()
      reads this, condStack
    {
      Proper(Abstract())
    }

    method CondEval(line: Line) returns (r: Answer)
      requires Usable()
      modifies this, condStack
      ensures Abstract() == Step(old(Abstract()), line).0 && r == Step(old(Abstract()), line).1
    {
      var isElse, value := false, false;
      match line {
      case Text(_) =>
        return INVALID;
      case Endif =>
        if skipIfLevel != 0 {
          skipIfLevel := skipIfLevel - 1;
          return SKIP;
        } else if condTop == MAXIF {
          return INVALID;
        } else {
          skipLine := false;
          condTop := condTop + 1;
          return PARSE;
        }
      case Else =>
        isElse := true;
        if condTop == MAXIF {
          return INVALID;
        } else if skipIfLevel == 0 {
          value := !condStack[condTop];
        } else {
          return SKIP;
        }
      case Elif(v) =>
        isElse := true;
        if condTop == MAXIF {
          return INVALID;
        } else if skipIfLevel != 0 {
          return SKIP;
        }
        if v == Bad {
          return INVALID;
        }
        value := v.b;
      case If(v) =>
        if skipLine {
          skipIfLevel := skipIfLevel + 1;
          return SKIP;
        }
        if v == Bad {
          return INVALID;
        }
        value := v.b;
      }
      if !isElse {
        condTop := condTop - 1;
      } else if skipIfLevel != 0 || condStack[condTop] {
        skipLine := true;
        return SKIP;
      }
      if condTop < 0 {
        return INVALID;
      }
      condStack[condTop] := value;
      skipLine := !value;
      return if value then PARSE else SKIP;
    }
  }

  // ----- what the lines mean

  /** Nested text: plain lines and conditional sections.  An else may come
      anywhere among the alternatives; it is an elif that holds. */
  datatype Block = Empty | Plain(id: nat, next: Block) | Section(b: bool, body: Block, tail: Tail, next: Block)
  datatype Tail = End | Other(elseLine: bool, b: bool, body: Block, tail: Tail)

  function Alternative(elseLine: bool, b: bool): Line {
    if elseLine then Else else Elif(Is(b))
  }

  function Lines(block: Block): seq<Line> {
    match block
    case Empty => []
    case Plain(id, next) => [Text(id)] + Lines(next)
    case Section(b, body, tail, next) => [If(Is(b))] + Lines(body) + TailLines(tail) + Lines(next)
  }

  function TailLines(tail: Tail): seq<Line> {
    match tail
    case End => [Endif]
    case Other(elseLine, b, body, rest) => [Alternative(elseLine, b)] + Lines(body) + TailLines(rest)
  }

  /** The text kept: of each section the first alternative that holds. */
  function Kept(block: Block): seq<nat> {
    match block
    case Empty => []
    case Plain(id, next) => [id] + Kept(next)
    case Section(b, body, tail, next) => (if b then Kept(body) else KeptTail(tail)) + Kept(next)
  }

  function KeptTail(tail: Tail): seq<nat> {
    match tail
    case End => []
    case Other(elseLine, b, body, rest) => if elseLine || b then Kept(body) else KeptTail(rest)
  }

  /** How deep conditionals nest in text that is kept; skipped text does not count. */
  function Depth(block: Block): nat {
    match block
    case Empty => 0
    case Plain(_, next) => Depth(next)
    case Section(b, body, tail, next) => Max(1 + (if b then Depth(body) else TailDepth(tail)), Depth(next))
  }

  function TailDepth(tail: Tail): nat {
    match tail
    case End => 0
    case Other(elseLine, b, body, rest) => if elseLine || b then Depth(body) else TailDepth(rest)
  }

  function Max(a: nat, b: nat): nat { if a >= b then a else b }

  /** What ParseReadLine makes of a run of lines: after COND_SKIP everything is
      skipped until a line is answered COND_PARSE; otherwise text is kept. */
  datatype Reader = Reader(s: State, reading: bool, kept: seq<nat>)

  function Read(r: Reader, line: Line): Reader
    requires Proper(r.s)
  {
    if line.Text? then if r.reading then r.(kept := r.kept + [line.id]) else r
    else
      var (s, a) := Step(r.s, line);
      Reader(s, if r.reading then a != SKIP else a == PARSE, r.kept)
  }

  /** All lines in turn; nothing more is read once the stack has overflowed. */
  function ReadAll(r: Reader, lines: seq<Line>): Reader
    decreases |lines|
  {
    if lines == [] || !Proper(r.s) then r else ReadAll(Read(r, lines[0]), lines[1..])
  }

  lemma {:induction false} ReadAllAppend(r: Reader, l: seq<Line>, m: seq<Line>)
    ensures ReadAll(r, l + m) == ReadAll(ReadAll(r, l), m)
    decreases |l|
  {
    if l == [] {
      assert l + m == m;
    } else if Proper(r.s) {
      assert (l + m)[1..] == l[1..] + m;
      ReadAllAppend(Read(r, l[0]), l[1..], m);
    }
  }

  /** A line, then the rest. */
  lemma ReadAllCons(r: Reader, line: Line, m: seq<Line>)
    requires Proper(r.s)
    ensures ReadAll(r, [line] + m) == ReadAll(Read(r, line), m)
  {
    assert ([line] + m)[1..] == m;
  }

  lemma SectionLines(b: bool, body: Block, tail: Tail, next: Block)
    ensures Lines(Section(b, body, tail, next)) == [If(Is(b))] + (Lines(body) + TailLines(tail) + Lines(next))
  {
  }

  lemma ReadSection(r: Reader, b: bool, body: Block, tail: Tail, next: Block)
    requires Proper(r.s)
    ensures ReadAll(r, Lines(Section(b, body, tail, next))) ==
            ReadAll(ReadAll(ReadAll(Read(r, If(Is(b))), Lines(body)), TailLines(tail)), Lines(next))
  {
    hide Lines, TailLines, ReadAll, Read;
    var r1 := Read(r, If(Is(b)));
    SectionLines(b, body, tail, next);
    ReadAllCons(r, If(Is(b)), Lines(body) + TailLines(tail) + Lines(next));
    ReadAllAppend(r1, Lines(body) + TailLines(tail), Lines(next));
    ReadAllAppend(r1, Lines(body), TailLines(tail));
  }

  lemma ReadOther(r: Reader, elseLine: bool, b: bool, body: Block, tail: Tail)
    requires Proper(r.s)
    ensures ReadAll(r, TailLines(Other(elseLine, b, body, tail))) ==
            ReadAll(ReadAll(Read(r, Alternative(elseLine, b)), Lines(body)), TailLines(tail))
  {
    var line := Alternative(elseLine, b);
    assert [line] + Lines(body) + TailLines(tail) == [line] + (Lines(body) + TailLines(tail));
    ReadAllCons(r, line, Lines(body) + TailLines(tail));
    ReadAllAppend(Read(r, line), Lines(body), TailLines(tail));
  }

  lemma ReadEnd(r: Reader)
    requires Proper(r.s)
    ensures ReadAll(r, TailLines(End)) == Read(r, Endif)
  {
    ReadAllCons(r, Endif, []);
    assert [Endif] + [] == [Endif];
  }

  lemma ReadPlain(r: Reader, id: nat, next: Block)
    requires Proper(r.s)
    ensures ReadAll(r, Lines(Plain(id, next))) == ReadAll(Read(r, Text(id)), Lines(next))
  {
    ReadAllCons(r, Text(id), Lines(next));
  }

  /** Lines are being skipped because of a conditional that was evaluated. */
  predicate Skipping(r: Reader) {
    Proper(r.s) && !r.reading && r.s.skipLine && r.s.top < MAXIF
  }

  /** Skipped text changes nothing, however deeply conditionals nest in it. */
  lemma {:induction false} SkipBlock(r: Reader, block: Block)
    requires Skipping(r)
    ensures ReadAll(r, Lines(block)) == r
    decreases block
  {
    match block
    case Empty =>
    case Plain(id, next) =>
      hide Lines, ReadAll;
      ReadPlain(r, id, next);
      SkipBlock(r, next);
    case Section(b, body, tail, next) =>
      hide Lines, TailLines, ReadAll;
      ReadSection(r, b, body, tail, next);
      var r1 := Read(r, If(Is(b)));
      assert r1 == r.(s := r.s.(skipIf := r.s.skipIf + 1));
      SkipBlock(r1, body);
      SkipTail(r1, tail);
      SkipBlock(r, next);
  }

  lemma {:induction false} SkipTail(r: Reader, tail: Tail)
    requires Skipping(r) && r.s.skipIf > 0
    ensures ReadAll(r, TailLines(tail)) == r.(s := r.s.(skipIf := r.s.skipIf - 1))
    decreases tail
  {
    hide Lines, TailLines, ReadAll;
    match tail
    case End =>
      ReadEnd(r);
    case Other(elseLine, b, body, rest) =>
      ReadOther(r, elseLine, b, body, rest);
      SkipBlock(r, body);
      SkipTail(r, rest);
  }

  /** Text is being read: nothing is being skipped at all. */
  predicate Reading(r: Reader) {
    Proper(r.s) && r.reading && !r.s.skipLine && r.s.skipIf == 0
  }

  /** The same but for stack entries below the top, which are rubbish. */
  predicate SameUp(s: State, s': State) {
    && Proper(s) && Proper(s') && s.top == s'.top && s.skipIf == s'.skipIf && s.skipLine == s'.skipLine
    && forall i :: s.top <= i < MAXIF ==> s'.stack[i] == s.stack[i]
  }

  /** Read text is kept as the structure says, and leaves the variables as they were. */
  lemma {:induction false} ReadBlock(r: Reader, block: Block)
    requires Reading(r) && Depth(block) <= r.s.top
    ensures var r' := ReadAll(r, Lines(block));
            Reading(r') && SameUp(r.s, r'.s) && r'.kept == r.kept + Kept(block)
    decreases block
  {
    match block
    case Empty =>
    case Plain(id, next) =>
      ReadPlain(r, id, next);
      ReadBlock(Read(r, Text(id)), next);
      assert r.kept + [id] + Kept(next) == r.kept + ([id] + Kept(next));
    case Section(b, body, tail, next) =>
      ReadOneSection(r, b, body, tail, next);
  }

  lemma {:induction false} ReadOneSection(r: Reader, b: bool, body: Block, tail: Tail, next: Block)
    requires Reading(r) && Depth(Section(b, body, tail, next)) <= r.s.top
    ensures var r' := ReadAll(r, Lines(Section(b, body, tail, next)));
            Reading(r') && SameUp(r.s, r'.s) && r'.kept == r.kept + Kept(Section(b, body, tail, next))
    decreases Section(b, body, tail, next), 1
  {
    hide Lines, TailLines, ReadAll, Read, SameUp, Kept, KeptTail, Depth, TailDepth;
    ReadSection(r, b, body, tail, next);
    ReadAlternatives(r, b, body, tail, next);
    var r3 := ReadAll(ReadAll(Read(r, If(Is(b))), Lines(body)), TailLines(tail));
    SectionParts(b, body, tail, next);
    SameTop(r.s, r3.s);
    ReadBlock(r3, next);
    SameUpTransitive(r.s, r3.s, ReadAll(r3, Lines(next)).s);
    var kept := if b then Kept(body) else KeptTail(tail);
    assert r.kept + kept + Kept(next) == r.kept + (kept + Kept(next));
  }

  lemma SectionParts(b: bool, body: Block, tail: Tail, next: Block)
    ensures Kept(Section(b, body, tail, next)) == (if b then Kept(body) else KeptTail(tail)) + Kept(next)
    ensures Depth(next) <= Depth(Section(b, body, tail, next))
  {
  }

  lemma SameTop(s: State, s': State)
    requires SameUp(s, s')
    ensures s'.top == s.top
  {
  }

  lemma SameUpTransitive(s: State, s': State, s'': State)
    requires SameUp(s, s') && SameUp(s', s'')
    ensures SameUp(s, s'')
  {
  }

  lemma {:induction false} ReadAlternatives(r: Reader, b: bool, body: Block, tail: Tail, next: Block)
    requires Reading(r) && Depth(Section(b, body, tail, next)) <= r.s.top
    ensures var r' := ReadAll(ReadAll(Read(r, If(Is(b))), Lines(body)), TailLines(tail));
            Reading(r') && SameUp(r.s, r'.s) && r'.kept == r.kept + if b then Kept(body) else KeptTail(tail)
    decreases Section(b, body, tail, next), 0
  {
    hide Lines, TailLines, ReadAll, Kept, KeptTail;
    var r1 := Read(r, If(Is(b)));
    if b {
      ReadBlock(r1, body);
      TailTaken(ReadAll(r1, Lines(body)), tail);
    } else {
      SkipBlock(r1, body);
      TailOpen(r1, tail);
    }
  }

  /** After an alternative was taken the others are skipped up to the endif. */
  lemma {:induction false} TailTaken(r: Reader, tail: Tail)
    requires Proper(r.s) && r.s.top < MAXIF && r.s.stack[r.s.top] && r.s.skipIf == 0
    requires Reading(r) || Skipping(r)
    ensures var r' := ReadAll(r, TailLines(tail));
            Reading(r') && r' == Reader(r.s.(top := r.s.top + 1, skipLine := false), true, r.kept)
    decreases tail
  {
    hide Lines, TailLines, ReadAll;
    match tail
    case End =>
      ReadEnd(r);
    case Other(elseLine, b, body, rest) =>
      ReadOther(r, elseLine, b, body, rest);
      var r1 := Read(r, Alternative(elseLine, b));
      assert r1 == Reader(r.s.(skipLine := true), false, r.kept);
      SkipBlock(r1, body);
      TailTaken(r1, rest);
  }

  /** While no alternative was taken the next one that holds is read. */
  lemma {:induction false} TailOpen(r: Reader, tail: Tail)
    requires Skipping(r) && !r.s.stack[r.s.top] && r.s.skipIf == 0
    requires TailDepth(tail) <= r.s.top
    ensures var r' := ReadAll(r, TailLines(tail));
            && Reading(r') && SameUp(r.s.(top := r.s.top + 1, skipLine := false), r'.s)
            && r'.kept == r.kept + KeptTail(tail)
    decreases tail
  {
    hide Lines, TailLines, ReadAll;
    match tail
    case End =>
      ReadEnd(r);
    case Other(elseLine, b, body, rest) =>
      ReadOther(r, elseLine, b, body, rest);
      var r1 := Read(r, Alternative(elseLine, b));
      if elseLine || b {
        ReadBlock(r1, body);
        TailTaken(ReadAll(r1, Lines(body)), rest);
      } else {
        assert r1.s.stack == r.s.stack;
        SkipBlock(r1, body);
        TailOpen(r1, rest);
      }
  }

  /** For every nested text whose kept part nests at most MAXIF deep: exactly the
      lines the structure keeps are kept, and in the end the variables have
      their initial values. */
  lemma WholeText(block: Block)
    requires Depth(block) <= MAXIF
    ensures var r := ReadAll(Reader(INITIAL, true, []), Lines(block));
            && r.kept == Kept(block) && r.reading
            && Proper(r.s) && r.s.top == MAXIF && r.s.skipIf == 0 && !r.s.skipLine
  {
    ReadBlock(Reader(INITIAL, true, []), block);
  }

  /** A line out of place is refused and changes nothing: an alternative or an end where no
      section is open, an expression that is malformed and has to be evaluated; so is a
      section that would nest too deep. */
  lemma MisplacedRefused(block: Block, line: Line)
    requires Depth(block) <= MAXIF && !line.If?
    ensures var r := ReadAll(Reader(INITIAL, true, []), Lines(block));
            Proper(r.s) && Step(r.s, line) == (r.s, INVALID)
  {
    hide Lines, ReadAll, Depth, Kept;
    WholeText(block);
  }

  lemma MalformedRefused(s: State)
    requires Proper(s)
    ensures Step(s, If(Bad)) == if s.skipLine then Step(s, If(Is(true))) else (s, INVALID)
    ensures s.top < MAXIF && s.skipIf == 0 ==> Step(s, Elif(Bad)) == (s, INVALID)
  {
  }

  lemma TooDeepRefused(r: Reader, b: bool)
    requires Reading(r) && r.s.top == 0
    ensures Step(r.s, If(Is(b))).1 == INVALID
  {
  }
}
