/** The expression evaluator of `cond.c`: CondToken, CondT, CondF, CondE and
    Cond_EvalExpression, with their one push-back slot. */
module CondExpr {

  /** A lexical unit: an operator, a parenthesis, an operand (which function is
      applied to which argument, and whether its answer is inverted), or
      something CondToken rejects. */
  datatype Lexeme = Ampersand | Bar | Bang | Open | Close | Operand(test: nat, invert: bool) | Rubbish

  datatype Token = And | Or | Not | True | False | LParen | RParen | EndOfFile | None | Err

  /** Where the scanner is, the push-back slot, and which tests were evaluated. */
  datatype State = State(pos: nat, pushBack: Token, evaluated: seq<nat>)

  datatype Source = Source(lexemes: seq<Lexeme>, env: nat -> bool)

  function Truth(b: bool): Token {
    if b then True else False
  }

  /** CondToken */
  function NextToken(src: Source, s: State, doEval: bool): (r: (State, Token))
    ensures s.pos <= r.0.pos && r.0.pushBack == None
    ensures s.pos <= |src.lexemes| ==> r.0.pos <= |src.lexemes|
    ensures s.pushBack == None && r.1 != EndOfFile ==> s.pos < r.0.pos
    ensures s.pushBack == None ==> r.1 != None
    ensures !doEval ==> r.0.evaluated == s.evaluated
  {
    if s.pushBack != None then (s.(pushBack := None), s.pushBack)
    else if s.pos >= |src.lexemes| then (s, EndOfFile)
    else
      var next := s.(pos := s.pos + 1);
      match src.lexemes[s.pos]
      case Ampersand => (next, And)
      case Bar => (next, Or)
      case Bang => (next, Not)
      case Open => (next, LParen)
      case Close => (next, RParen)
      case Rubbish => (next, Err)
      case Operand(test, invert) =>
        (if doEval then next.(evaluated := s.evaluated + [test]) else next,
         Truth((!doEval || src.env(test)) != invert))
  }

  /** CondT, CondF and CondE as functions of the state. */
  function ParseT(src: Source, s: State, doEval: bool): (r: (State, Token))
    requires s.pushBack == None && s.pos <= |src.lexemes|
    ensures s.pos <= r.0.pos <= |src.lexemes| && r.1 != None && (r.1 != Err ==> s.pos < r.0.pos && r.0.pushBack == None)
    ensures !doEval ==> r.0.evaluated == s.evaluated
    decreases |src.lexemes| - s.pos, 0
  {
    var (s1, t) := NextToken(src, s, doEval);
    if t == EndOfFile then (s1, Err)
    else if t == LParen then
      var (s2, t2) := ParseE(src, s1, doEval);
      if t2 == Err then (s2, Err)
      else
        var (s3, t3) := NextToken(src, s2, doEval);
        (s3, if t3 != RParen then Err else t2)
    else if t == Not then
      var (s2, t2) := ParseT(src, s1, doEval);
      (s2, if t2 == True then False else if t2 == False then True else t2)
    else (s1, t)
  }

  function ParseF(src: Source, s: State, doEval: bool): (r: (State, Token))
    requires s.pushBack == None && s.pos <= |src.lexemes|
    ensures s.pos <= r.0.pos <= |src.lexemes| && r.1 != None && (r.1 != Err ==> s.pos < r.0.pos)
    ensures !doEval ==> r.0.evaluated == s.evaluated
    decreases |src.lexemes| - s.pos, 1
  {
    var (s1, l) := ParseT(src, s, doEval);
    if l == Err then (s1, l)
    else
      var (s2, o) := NextToken(src, s1, doEval);
      if o == And then
        if l == True then ParseF(src, s2, doEval)
        else (ParseF(src, s2, false).0, l)
      else (s2.(pushBack := o), l)
  }

  function ParseE(src: Source, s: State, doEval: bool): (r: (State, Token))
    requires s.pushBack == None && s.pos <= |src.lexemes|
    ensures s.pos <= r.0.pos <= |src.lexemes| && r.1 != None && (r.1 != Err ==> s.pos < r.0.pos)
    ensures !doEval ==> r.0.evaluated == s.evaluated
    decreases |src.lexemes| - s.pos, 2
  {
    var (s1, l) := ParseF(src, s, doEval);
    if l == Err then (s1, l)
    else
      var (s2, o) := NextToken(src, s1, doEval);
      if o == Or then
        if l == False then ParseE(src, s2, doEval)
        else (ParseE(src, s2, false).0, l)
      else (s2.(pushBack := o), l)
  }

  datatype Outcome = Valid(value: bool) | Malformed

  /** Cond_EvalExpression; `value` keeps its old value in a case the source
      does not treat. */
  function Evaluate(src: Source, value: bool): (State, Outcome) {
    var (s, t) := ParseE(src, State(0, None, []), true);
    match t
    case True =>
      var (s1, o) := NextToken(src, s, true);
      (s1, if o == EndOfFile then Valid(true) else Malformed)
    case False =>
      var (s1, o) := NextToken(src, s, true);
      (s1, if o == EndOfFile then Valid(false) else Malformed)
    case Err => (s, Malformed)
    case _ => (s, Valid(value))
  }

  /** The variables condExpr and condPushBack, and the record of tests made. */
  class Evaluator {
    const src: Source
    var pos: nat
    var condPushBack: Token
    var evaluated: seq<nat>

    constructor (source: Source)
      ensures src == source && Abstract() == State(0, None, [])
    {
      src, pos, condPushBack, evaluated := source, 0, None, [];
    }

    ghost function Abstract(): State
      reads this
    {
      State(pos, condPushBack, evaluated)
    }

    ghost predicate Ready()
      reads this
    {
      condPushBack == None && pos <= |src.lexemes|
    }

    /** The slot holds one token: it is never overwritten while full. */
    method CondPushBack(t: Token)
      requires condPushBack == None
      modifies this`condPushBack
      ensures condPushBack == t
    {
      condPushBack := t;
    }

    method CondToken(doEval: bool) returns (t: Token)
      requires pos <= |src.lexemes|
      modifies this
      ensures (Abstract(), t) == NextToken(src, old(Abstract()), doEval)
    {
      if condPushBack == None {
        if pos == |src.lexemes| {
          return EndOfFile;
        }
        var lexeme := src.lexemes[pos];
        pos := pos + 1;
        match lexeme {
          case Ampersand => t := And;
          case Bar => t := Or;
          case Bang => t := Not;
          case Open => t := LParen;
          case Close => t := RParen;
          case Rubbish => t := Err;
          case Operand(test, invert) =>
            var holds := true;
            if doEval {
              evaluated := evaluated + [test];
              holds := src.env(test);
            }
            t := if holds then if invert then False else True else if invert then True else False;
        }
      } else {
        t := condPushBack;
        condPushBack := None;
      }
    }

    method CondT(doEval: bool) returns (t: Token)
      requires Ready()
      modifies this
      ensures (Abstract(), t) == ParseT(src, old(Abstract()), doEval)
      decreases |src.lexemes| - pos, 0
    {
      t := CondToken(doEval);
      if t == EndOfFile {
        t := Err;
      } else if t == LParen {
        t := CondE(doEval);
        if t != Err {
          var close := CondToken(doEval);
          if close != RParen {
            t := Err;
          }
        }
      } else if t == Not {
        t := CondT(doEval);
        if t == True {
          t := False;
        } else if t == False {
          t := True;
        }
      }
    }

    method CondF(doEval: bool) returns (l: Token)
      requires Ready()
      modifies this
      ensures (Abstract(), l) == ParseF(src, old(Abstract()), doEval)
      decreases |src.lexemes| - pos, 1
    {
      l := CondT(doEval);
      if l != Err {
        var o := CondToken(doEval);
        if o == And {
          if l == True {
            l := CondF(doEval);
          } else {
            var _ := CondF(false);
          }
        } else {
          CondPushBack(o);
        }
      }
    }

    method CondE(doEval: bool) returns (l: Token)
      requires Ready()
      modifies this
      ensures (Abstract(), l) == ParseE(src, old(Abstract()), doEval)
      decreases |src.lexemes| - pos, 2
    {
      l := CondF(doEval);
      if l != Err {
        var o := CondToken(doEval);
        if o == Or {
          if l == False {
            l := CondE(doEval);
          } else {
            var _ := CondE(false);
          }
        } else {
          CondPushBack(o);
        }
      }
    }

    /** Cond_EvalExpression, on a fresh scanner. */
    method EvalExpression(value: bool) returns (r: Outcome)
      requires Abstract() == State(0, None, [])
      modifies this
      ensures (Abstract(), r) == Evaluate(src, value)
    {
      var t := CondE(true);
      match t {
        case True =>
          var o := CondToken(true);
          r := if o == EndOfFile then Valid(true) else Malformed;
        case False =>
          var o := CondToken(true);
          r := if o == EndOfFile then Valid(false) else Malformed;
        case Err =>
          r := Malformed;
        case _ =>
          r := Valid(value);
      }
    }
  }

  // ----- expressions as trees

  datatype Expr = Test(test: nat, invert: bool) | Neg(e: Expr) | Both(l: Expr, r: Expr) | Either(l: Expr, r: Expr) | Paren(e: Expr)

  function Value(env: nat -> bool, e: Expr): bool {
    match e
    case Test(test, invert) => env(test) != invert
    case Neg(x) => !Value(env, x)
    case Both(l, r) => Value(env, l) && Value(env, r)
    case Either(l, r) => Value(env, l) || Value(env, r)
    case Paren(x) => Value(env, x)
  }

  /** The tests a short-circuit evaluation makes, in order. */
  function Tests(env: nat -> bool, e: Expr): seq<nat> {
    match e
    case Test(test, invert) => [test]
    case Neg(x) => Tests(env, x)
    case Both(l, r) => Tests(env, l) + if Value(env, l) then Tests(env, r) else []
    case Either(l, r) => Tests(env, l) + if Value(env, l) then [] else Tests(env, r)
    case Paren(x) => Tests(env, x)
  }

  /** Printing with parentheses where precedence needs them (both operators
      associate to the right) and wherever the tree has them besides. */
  function PrintT(e: Expr): (p: seq<Lexeme>)
    ensures p != []
    decreases e, if e.Both? || e.Either? then 2 else 0
  {
    match e
    case Test(test, invert) => [Operand(test, invert)]
    case Neg(x) => [Bang] + PrintT(x)
    case Paren(x) => [Open] + PrintE(x) + [Close]
    case _ => [Open] + PrintE(e) + [Close]
  }

  function PrintF(e: Expr): (p: seq<Lexeme>)
    ensures p != []
    decreases e, if e.Both? then 0 else if e.Either? then 3 else 1
  {
    if e.Both? then PrintT(e.l) + [Ampersand] + PrintF(e.r) else PrintT(e)
  }

  function PrintE(e: Expr): (p: seq<Lexeme>)
    ensures p != []
    decreases e, if e.Either? then 0 else if e.Both? then 1 else 2
  {
    if e.Either? then PrintF(e.l) + [Bar] + PrintE(e.r) else PrintF(e)
  }

  /** At position s.pos the lexemes `p` follow, and then `rest`. */
  predicate At(src: Source, s: State, p: seq<Lexeme>, rest: seq<Lexeme>) {
    s.pos <= |src.lexemes| && s.pushBack == None && src.lexemes[s.pos..] == p + rest
  }

  /** The state after reading `p`, the printed form of e: nothing pushed back,
      and the tests made if any were to be made. */
  function After(src: Source, s: State, p: seq<Lexeme>, e: Expr, doEval: bool): State {
    State(s.pos + |p|, None, s.evaluated + if doEval then Tests(src.env, e) else [])
  }

  /** The answer for e is its truth value; without evaluation, some truth value. */
  predicate Answers(src: Source, e: Expr, doEval: bool, t: Token) {
    (t == True || t == False) && (doEval ==> t == Truth(Value(src.env, e)))
  }

  /** Looking one token ahead and pushing it back. */
  function Peek(src: Source, s: State): State
    requires s.pushBack == None
  {
    var (s1, o) := NextToken(src, s, false);
    s1.(pushBack := o)
  }

  /** The next lexeme ends an operand of && (strict) or an operand of ||. */
  predicate EndsFactor(rest: seq<Lexeme>) {
    rest == [] || rest[0] == Bar || rest[0] == Close
  }

  predicate EndsExpression(rest: seq<Lexeme>) {
    rest == [] || rest[0] == Close
  }

  lemma AtHead(src: Source, s: State, p: seq<Lexeme>, rest: seq<Lexeme>)
    requires At(src, s, p, rest) && p != []
    ensures s.pos < |src.lexemes| && src.lexemes[s.pos] == p[0]
    ensures At(src, s.(pos := s.pos + 1), p[1..], rest)
  {
    assert src.lexemes[s.pos] == src.lexemes[s.pos..][0];
    assert src.lexemes[s.pos + 1..] == src.lexemes[s.pos..][1..] == p[1..] + rest;
  }

  lemma AtEnd(src: Source, s: State, p: seq<Lexeme>, rest: seq<Lexeme>, s': State)
    requires At(src, s, p, rest) && s'.pos == s.pos + |p| && s'.pushBack == None
    ensures At(src, s', rest, [])
    ensures rest == [] ==> s'.pos == |src.lexemes|
  {
    assert src.lexemes[s'.pos..] == src.lexemes[s.pos..][|p|..] == rest;
  }

  /** What follows decides the token seen next, and evaluates nothing. */
  lemma PeekAt(src: Source, s: State, rest: seq<Lexeme>, doEval: bool)
    requires At(src, s, rest, [])
    requires rest == [] || !rest[0].Operand?
    ensures NextToken(src, s, doEval) == NextToken(src, s, false)
    ensures rest == [] ==> NextToken(src, s, doEval) == (s, EndOfFile)
    ensures rest != [] ==> s.pos < |src.lexemes| && src.lexemes[s.pos] == rest[0]
  {
    assert src.lexemes[s.pos..] == rest;
    if rest != [] {
      assert src.lexemes[s.pos] == src.lexemes[s.pos..][0];
    }
  }

  /** Two pieces read one after the other. */
  lemma AtNext(src: Source, s: State, p: seq<Lexeme>, op: Lexeme, q: seq<Lexeme>, rest: seq<Lexeme>, s1: State)
    requires At(src, s, p + [op] + q, rest) && s1.pos == s.pos + |p| && s1.pushBack == None
    ensures At(src, s, p, [op] + q + rest) && At(src, s1, [op] + q + rest, [])
    ensures At(src, s1.(pos := s1.pos + 1), q, rest)
  {
    assert p + [op] + q + rest == p + ([op] + q + rest);
    AtEnd(src, s, p, [op] + q + rest, s1);
    AtHead(src, s1, [op] + q + rest, []);
    assert ([op] + q + rest)[1..] + [] == q + rest;
  }

  lemma {:induction false} ParsePrintT(src: Source, s: State, e: Expr, rest: seq<Lexeme>, doEval: bool)
    requires At(src, s, PrintT(e), rest)
    ensures ParseT(src, s, doEval).0 == After(src, s, PrintT(e), e, doEval)
    ensures Answers(src, e, doEval, ParseT(src, s, doEval).1)
    decreases e, if e.Both? || e.Either? then 2 else 0
  {
    AtHead(src, s, PrintT(e), rest);
    match e
    case Test(test, invert) =>
    case Neg(x) =>
      assert PrintT(e)[1..] == PrintT(x);
      ParsePrintT(src, s.(pos := s.pos + 1), x, rest, doEval);
    case Paren(x) =>
      ParsePrintParen(src, s, PrintT(e), x, rest, doEval);
    case _ =>
      ParsePrintParen(src, s, PrintT(e), e, rest, doEval);
  }

  lemma {:induction false} ParsePrintParen(src: Source, s: State, p: seq<Lexeme>, x: Expr, rest: seq<Lexeme>, doEval: bool)
    requires p == [Open] + PrintE(x) + [Close] && At(src, s, p, rest)
    ensures ParseT(src, s, doEval).0 == After(src, s, p, x, doEval)
    ensures Answers(src, x, doEval, ParseT(src, s, doEval).1)
    decreases x, if x.Either? then 0 else if x.Both? then 1 else 2, 2
  {
    hide ParseE, ParseF, PrintE, PrintF, PrintT, Tests, Value;
    AtHead(src, s, p, rest);
    var s1 := s.(pos := s.pos + 1);
    assert p[1..] + rest == PrintE(x) + ([Close] + rest);
    ParsePrintE(src, s1, x, [Close] + rest, doEval);
    var s2 := After(src, s1, PrintE(x), x, doEval);
    AtEnd(src, s1, PrintE(x), [Close] + rest, s2);
    PeekAt(src, s2, [Close] + rest, false);
  }

  /** CondF after its first term, with && ahead. */
  lemma FactorGoesOn(src: Source, s: State, doEval: bool, rest: seq<Lexeme>)
    requires s.pushBack == None && s.pos <= |src.lexemes| && rest != [] && rest[0] == Ampersand
    requires var (s1, l) := ParseT(src, s, doEval); l != Err && At(src, s1, rest, [])
    ensures var (s1, l) := ParseT(src, s, doEval);
            var s2 := s1.(pos := s1.pos + 1);
            && s2.pos <= |src.lexemes|
            && ParseF(src, s, doEval) == if l == True then ParseF(src, s2, doEval) else (ParseF(src, s2, false).0, l)
  {
    hide ParseT, ParseF, NextToken, At;
    FactorIs(src, s, doEval);
    AndAhead(src, ParseT(src, s, doEval).0, rest, doEval);
  }

  lemma FactorIs(src: Source, s: State, doEval: bool)
    requires s.pushBack == None && s.pos <= |src.lexemes| && ParseT(src, s, doEval).1 != Err
    ensures var (s1, l) := ParseT(src, s, doEval);
            var (s2, o) := NextToken(src, s1, doEval);
            ParseF(src, s, doEval) == if o != And then (s2.(pushBack := o), l)
                                      else if l == True then ParseF(src, s2, doEval)
                                      else (ParseF(src, s2, false).0, l)
  {
    hide ParseT, NextToken;
  }

  lemma AndAhead(src: Source, s: State, rest: seq<Lexeme>, doEval: bool)
    requires At(src, s, rest, []) && rest != [] && rest[0] == Ampersand
    ensures s.pos < |src.lexemes| && NextToken(src, s, doEval) == (s.(pos := s.pos + 1), And)
  {
    PeekAt(src, s, rest, doEval);
  }

  /** CondF after its first term, with the end of the conjunction ahead. */
  lemma FactorEnds(src: Source, s: State, doEval: bool, rest: seq<Lexeme>)
    requires s.pushBack == None && s.pos <= |src.lexemes| && EndsFactor(rest)
    requires var (s1, l) := ParseT(src, s, doEval); l != Err && At(src, s1, rest, [])
    ensures var (s1, l) := ParseT(src, s, doEval); ParseF(src, s, doEval) == (Peek(src, s1), l)
  {
    hide ParseT, ParseF, NextToken, At;
    FactorIs(src, s, doEval);
    EndAhead(src, ParseT(src, s, doEval).0, rest, doEval);
  }

  lemma EndAhead(src: Source, s: State, rest: seq<Lexeme>, doEval: bool)
    requires At(src, s, rest, []) && EndsFactor(rest)
    ensures NextToken(src, s, doEval).1 != And && NextToken(src, s, doEval) == NextToken(src, s, false)
  {
    PeekAt(src, s, rest, doEval);
  }

  /** CondE after its first factor, with || ahead or not. */
  lemma ExpressionStep(src: Source, s: State, doEval: bool, s1: State, rest: seq<Lexeme>)
    requires s.pushBack == None && s.pos <= |src.lexemes| && At(src, s1, rest, []) && EndsFactor(rest)
    requires ParseF(src, s, doEval).0 == Peek(src, s1) && ParseF(src, s, doEval).1 != Err
    ensures var l := ParseF(src, s, doEval).1;
            if rest != [] && rest[0] == Bar then
              var s2 := s1.(pos := s1.pos + 1);
              && s.pos <= s2.pos <= |src.lexemes|
              && ParseE(src, s, doEval) == if l == False then ParseE(src, s2, doEval) else (ParseE(src, s2, false).0, l)
            else ParseE(src, s, doEval) == (Peek(src, s1), l)
  {
    hide ParseF;
    PeekAt(src, s1, rest, doEval);
  }

  lemma TestsOfBoth(src: Source, s: State, e: Expr, doEval: bool)
    requires e.Both? || e.Either?
    ensures var go := doEval && (Value(src.env, e.l) <==> e.Both?);
            var p := if e.Both? then PrintT(e.l) else PrintF(e.l);
            var q := if e.Both? then PrintF(e.r) else PrintE(e.r);
            var s2 := After(src, s, p, e.l, doEval);
            After(src, s2.(pos := s2.pos + 1), q, e.r, go) ==
            After(src, s, if e.Both? then PrintF(e) else PrintE(e), e, doEval)
  {
    hide PrintT;
    var t := Tests(src.env, e.l);
    assert s.evaluated + t + Tests(src.env, e.r) == s.evaluated + (t + Tests(src.env, e.r));
    assert s.evaluated + t + [] == s.evaluated + t;
  }

  lemma {:induction false} ParsePrintF(src: Source, s: State, e: Expr, rest: seq<Lexeme>, doEval: bool)
    requires At(src, s, PrintF(e), rest) && EndsFactor(rest)
    ensures ParseF(src, s, doEval).0 == Peek(src, After(src, s, PrintF(e), e, doEval))
    ensures Answers(src, e, doEval, ParseF(src, s, doEval).1)
    decreases e, if e.Both? then 0 else if e.Either? then 3 else 1, 1
  {
    if e.Both? {
      ParsePrintBoth(src, s, e, rest, doEval);
    } else {
      var s1 := After(src, s, PrintT(e), e, doEval);
      ParsePrintT(src, s, e, rest, doEval);
      AtEnd(src, s, PrintT(e), rest, s1);
      hide ParseF, ParseT, NextToken, PrintT, Peek, Tests, Value;
      FactorEnds(src, s, doEval, rest);
    }
  }

  lemma {:induction false} ParsePrintBoth(src: Source, s: State, e: Expr, rest: seq<Lexeme>, doEval: bool)
    requires e.Both? && At(src, s, PrintT(e.l) + [Ampersand] + PrintF(e.r), rest) && EndsFactor(rest)
    ensures ParseF(src, s, doEval).0 == Peek(src, After(src, s, PrintF(e), e, doEval))
    ensures Answers(src, e, doEval, ParseF(src, s, doEval).1)
    decreases e, 0, 0
  {
    hide ParseF, ParseT, NextToken, PrintT, PrintF, Tests, After, Peek;
    var p, q := PrintT(e.l), PrintF(e.r);
    var s1 := After(src, s, p, e.l, doEval);
    AfterIs(src, s, p, e.l, doEval);
    AtNext(src, s, p, Ampersand, q, rest, s1);
    ParsePrintT(src, s, e.l, [Ampersand] + q + rest, doEval);
    FactorGoesOn(src, s, doEval, [Ampersand] + q + rest);
    var s2 := s1.(pos := s1.pos + 1);
    TestsOfBoth(src, s, e, doEval);
    ParsePrintF(src, s2, e.r, rest, doEval);
    ParsePrintF(src, s2, e.r, rest, false);
    AfterIs(src, s2, q, e.r, false);
  }

  lemma AfterIs(src: Source, s: State, p: seq<Lexeme>, e: Expr, doEval: bool)
    ensures var s' := After(src, s, p, e, doEval);
            s'.pos == s.pos + |p| && s'.pushBack == None && (!doEval ==> s'.evaluated == s.evaluated)
  {
  }

  lemma {:induction false} ParsePrintE(src: Source, s: State, e: Expr, rest: seq<Lexeme>, doEval: bool)
    requires At(src, s, PrintE(e), rest) && EndsExpression(rest)
    ensures ParseE(src, s, doEval).0 == Peek(src, After(src, s, PrintE(e), e, doEval))
    ensures Answers(src, e, doEval, ParseE(src, s, doEval).1)
    decreases e, if e.Either? then 0 else if e.Both? then 1 else 2, 1
  {
    if e.Either? {
      ParsePrintEither(src, s, e, rest, doEval);
    } else {
      var s1 := After(src, s, PrintF(e), e, doEval);
      ParsePrintF(src, s, e, rest, doEval);
      AtEnd(src, s, PrintF(e), rest, s1);
      hide ParseE, ParseF, NextToken, PrintF, Peek, Tests, Value;
      ExpressionStep(src, s, doEval, s1, rest);
    }
  }

  lemma {:induction false} ParsePrintEither(src: Source, s: State, e: Expr, rest: seq<Lexeme>, doEval: bool)
    requires e.Either? && At(src, s, PrintF(e.l) + [Bar] + PrintE(e.r), rest) && EndsExpression(rest)
    ensures ParseE(src, s, doEval).0 == Peek(src, After(src, s, PrintE(e), e, doEval))
    ensures Answers(src, e, doEval, ParseE(src, s, doEval).1)
    decreases e, 0, 0
  {
    hide ParseE, ParseF, NextToken, PrintE, PrintF, Tests, After, Peek;
    var p, q := PrintF(e.l), PrintE(e.r);
    var s1 := After(src, s, p, e.l, doEval);
    AfterIs(src, s, p, e.l, doEval);
    AtNext(src, s, p, Bar, q, rest, s1);
    ParsePrintF(src, s, e.l, [Bar] + q + rest, doEval);
    ExpressionStep(src, s, doEval, s1, [Bar] + q + rest);
    var s2 := s1.(pos := s1.pos + 1);
    TestsOfBoth(src, s, e, doEval);
    ParsePrintE(src, s2, e.r, rest, doEval);
    ParsePrintE(src, s2, e.r, rest, false);
    AfterIs(src, s2, q, e.r, false);
  }

  /** Printing any expression and evaluating the lexemes gives its truth value,
      consumes every lexeme, and makes exactly the short-circuit tests. */
  lemma EvaluatePrinted(env: nat -> bool, e: Expr, value: bool)
    ensures Evaluate(Source(PrintE(e), env), value) ==
            (State(|PrintE(e)|, None, Tests(env, e)), Valid(Value(env, e)))
  {
    hide ParseE, PrintE, Tests, Value;
    var src := Source(PrintE(e), env);
    var s := State(0, None, []);
    assert PrintE(e)[0..] == PrintE(e) + [];
    ParsePrintE(src, s, e, [], true);
    var s1 := After(src, s, PrintE(e), e, true);
    assert s1 == State(|PrintE(e)|, None, Tests(env, e));
    AtEnd(src, s, PrintE(e), [], s1);
    PeekAt(src, s1, [], true);
  }

  /** Lexemes left over after an expression make the text malformed. */
  lemma TrailingRejected(env: nat -> bool, e: Expr, rest: seq<Lexeme>, value: bool)
    requires rest != [] && EndsExpression(rest)
    ensures Evaluate(Source(PrintE(e) + rest, env), value).1 == Malformed
  {
    hide ParseE, PrintE, Tests, Value;
    var src := Source(PrintE(e) + rest, env);
    var s := State(0, None, []);
    assert src.lexemes[0..] == PrintE(e) + rest;
    ParsePrintE(src, s, e, rest, true);
    var s1 := After(src, s, PrintE(e), e, true);
    AtEnd(src, s, PrintE(e), rest, s1);
    PeekAt(src, s1, rest, true);
  }

  /** So does anything but an operator behind a single operand. */
  lemma OperandThenJunk(env: nat -> bool, test: nat, invert: bool, rest: seq<Lexeme>, value: bool)
    requires rest != [] && rest[0] != Ampersand && rest[0] != Bar
    ensures Evaluate(Source([Operand(test, invert)] + rest, env), value).1 == Malformed
  {
    hide ParseT, ParseF, ParseE;
    var src := Source([Operand(test, invert)] + rest, env);
    var s := State(0, None, []);
    assert src.lexemes[1] == rest[0];
    OperandTerm(src, s);
    OperandFactor(src, s);
    OperandExpression(src, s);
  }

  lemma OperandTerm(src: Source, s: State)
    requires s.pushBack == None && s.pos < |src.lexemes| && src.lexemes[s.pos].Operand?
    ensures ParseT(src, s, true) == NextToken(src, s, true)
    ensures var t := ParseT(src, s, true).1; t == True || t == False
  {
  }

  /** A token that is no operator is seen behind the term and pushed back. */
  lemma OperandFactor(src: Source, s: State)
    requires s.pushBack == None && s.pos + 1 < |src.lexemes| && src.lexemes[s.pos].Operand?
    requires src.lexemes[s.pos + 1] != Ampersand && src.lexemes[s.pos + 1] != Bar
    ensures var (s1, l) := ParseF(src, s, true);
            && (l == True || l == False) && s1.pos <= |src.lexemes|
            && s1.pushBack != None && s1.pushBack != And && s1.pushBack != Or && s1.pushBack != EndOfFile
  {
    hide ParseT;
    OperandTerm(src, s);
    FactorIs(src, s, true);
  }

  lemma OperandExpression(src: Source, s: State)
    requires s.pushBack == None && s.pos <= |src.lexemes|
    requires var (s1, l) := ParseF(src, s, true);
             && (l == True || l == False)
             && s1.pushBack != None && s1.pushBack != Or && s1.pushBack != EndOfFile
    ensures var (s1, l) := ParseE(src, s, true);
            (l == True || l == False) && s1.pushBack != None && s1.pushBack != EndOfFile
  {
    hide ParseF;
  }
}
