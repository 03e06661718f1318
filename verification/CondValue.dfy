/** Which texts make Cond_EvalExpression answer without setting the value: its switch
    has a default branch that does nothing. */
module CondValue {
  import opened CondExpr

  datatype Decision = Nothing | OperandAt(pos: nat)

  /** The position of the operand that decides the answer, in the short-circuit
      order: a term's own, the last of a conjunction whose others hold, the last of
      a disjunction whose others do not.  Nothing if there is no answer: something is
      missing, unrecognizable or not closed where it is looked at. */
  function DecidingT(src: Source, s: State): Decision
    requires s.pushBack == None && s.pos <= |src.lexemes|
    decreases |src.lexemes| - s.pos, 0
  {
    if s.pos == |src.lexemes| then Nothing
    else
      var next := NextToken(src, s, true).0;
      match src.lexemes[s.pos]
      case Open =>
        var (s1, t) := ParseE(src, next, true);
        if t != Err && NextToken(src, s1, true).1 == RParen then DecidingE(src, next) else Nothing
      case Bang => DecidingT(src, next)
      case Rubbish => Nothing
      case _ => OperandAt(s.pos)
  }

  function DecidingF(src: Source, s: State): Decision
    requires s.pushBack == None && s.pos <= |src.lexemes|
    decreases |src.lexemes| - s.pos, 1
  {
    var (s1, l) := ParseT(src, s, true);
    if l == True && NextToken(src, s1, true).1 == And then DecidingF(src, NextToken(src, s1, true).0)
    else DecidingT(src, s)
  }

  function DecidingE(src: Source, s: State): Decision
    requires s.pushBack == None && s.pos <= |src.lexemes|
    decreases |src.lexemes| - s.pos, 2
  {
    var (s1, l) := ParseF(src, s, true);
    if l == False && NextToken(src, s1, true).1 == Or then DecidingE(src, NextToken(src, s1, true).0)
    else DecidingF(src, s)
  }

  /** An operator or a closing parenthesis where an operand should be. */
  predicate IsStray(x: Lexeme) {
    x == Ampersand || x == Bar || x == Close
  }

  /** What the deciding operand says about an answer. */
  predicate Decides(src: Source, p: Decision, t: Token) {
    match p
    case Nothing => t == Err
    case OperandAt(i) =>
      && t != Err && i < |src.lexemes|
      && if t == True || t == False then src.lexemes[i].Operand? else IsStray(src.lexemes[i])
  }

  lemma {:induction false} DecidedT(src: Source, s: State)
    requires s.pushBack == None && s.pos <= |src.lexemes|
    ensures Decides(src, DecidingT(src, s), ParseT(src, s, true).1)
    decreases |src.lexemes| - s.pos, 0
  {
    hide ParseE, ParseF, DecidingE, DecidingF;
    if s.pos < |src.lexemes| {
      var next := NextToken(src, s, true).0;
      match src.lexemes[s.pos]
      case Open => DecidedE(src, next);
      case Bang => DecidedT(src, next);
      case _ =>
    }
  }

  lemma {:induction false} DecidedF(src: Source, s: State)
    requires s.pushBack == None && s.pos <= |src.lexemes|
    ensures Decides(src, DecidingF(src, s), ParseF(src, s, true).1)
    decreases |src.lexemes| - s.pos, 1
  {
    hide ParseT, DecidingT, Decides;
    DecidedT(src, s);
    var (s1, l) := ParseT(src, s, true);
    var (s2, o) := NextToken(src, s1, true);
    if l == True && o == And {
      DecidedF(src, s2);
    }
  }

  lemma {:induction false} DecidedE(src: Source, s: State)
    requires s.pushBack == None && s.pos <= |src.lexemes|
    ensures Decides(src, DecidingE(src, s), ParseE(src, s, true).1)
    decreases |src.lexemes| - s.pos, 2
  {
    hide ParseF, DecidingF, Decides;
    DecidedF(src, s);
    var (s1, l) := ParseF(src, s, true);
    var (s2, o) := NextToken(src, s1, true);
    if l == False && o == Or {
      DecidedE(src, s2);
    }
  }

  predicate StrayAt(src: Source, p: Decision) {
    p.OperandAt? && p.pos < |src.lexemes| && IsStray(src.lexemes[p.pos])
  }

  /** Cond_EvalExpression sets the value, or rejects the text, if and only if the
      operand that decides the answer is not an operator or a closing parenthesis.
      Otherwise the text is accepted and the value left as it was. */
  lemma ValueSetIff(src: Source)
    ensures var stray := StrayAt(src, DecidingE(src, State(0, None, [])));
            && (Evaluate(src, true).1 == Evaluate(src, false).1 <==> !stray)
            && (stray ==> forall value :: Evaluate(src, value).1 == Valid(value))
  {
    hide ParseE, DecidingE;
    DecidedE(src, State(0, None, []));
  }

  /** An or pushed back is the lexeme before the position. */
  predicate BarPushed(src: Source, s: State) {
    s.pushBack == Or ==> 0 < s.pos <= |src.lexemes| && src.lexemes[s.pos - 1] == Bar
  }

  lemma {:induction false} BarPushedT(src: Source, s: State, doEval: bool)
    requires s.pushBack == None && s.pos <= |src.lexemes|
    ensures BarPushed(src, ParseT(src, s, doEval).0)
    decreases |src.lexemes| - s.pos, 0
  {
    hide ParseE;
    var (s1, t) := NextToken(src, s, doEval);
    if t == LParen {
      BarPushedE(src, s1, doEval);
    } else if t == Not {
      BarPushedT(src, s1, doEval);
    }
  }

  lemma {:induction false} BarPushedF(src: Source, s: State, doEval: bool)
    requires s.pushBack == None && s.pos <= |src.lexemes|
    ensures BarPushed(src, ParseF(src, s, doEval).0)
    decreases |src.lexemes| - s.pos, 1
  {
    hide ParseT;
    BarPushedT(src, s, doEval);
    var (s1, l) := ParseT(src, s, doEval);
    if l != Err {
      var (s2, o) := NextToken(src, s1, doEval);
      if o == And {
        BarPushedF(src, s2, if l == True then doEval else false);
      }
    }
  }

  lemma {:induction false} BarPushedE(src: Source, s: State, doEval: bool)
    requires s.pushBack == None && s.pos <= |src.lexemes|
    ensures BarPushed(src, ParseE(src, s, doEval).0)
    decreases |src.lexemes| - s.pos, 2
  {
    hide ParseF;
    BarPushedF(src, s, doEval);
    var (s1, l) := ParseF(src, s, doEval);
    if l != Err {
      var (s2, o) := NextToken(src, s1, doEval);
      if o == Or {
        BarPushedE(src, s2, if l == False then doEval else false);
      }
    }
  }

  /** An operand is looked for at the beginning and behind these lexemes only. */
  predicate OperandPlace(text: seq<Lexeme>, i: nat) {
    i == 0 || (i <= |text| && var x := text[i - 1]; x == Ampersand || x == Bar || x == Bang || x == Open)
  }

  predicate InPlace(src: Source, p: Decision) {
    p.OperandAt? ==> OperandPlace(src.lexemes, p.pos)
  }

  lemma {:induction false} InPlaceT(src: Source, s: State)
    requires s.pushBack == None && s.pos <= |src.lexemes| && OperandPlace(src.lexemes, s.pos)
    ensures InPlace(src, DecidingT(src, s))
    decreases |src.lexemes| - s.pos, 0
  {
    hide ParseE, DecidingE;
    if s.pos < |src.lexemes| {
      var next := NextToken(src, s, true).0;
      match src.lexemes[s.pos]
      case Open => InPlaceE(src, next);
      case Bang => InPlaceT(src, next);
      case _ =>
    }
  }

  lemma {:induction false} InPlaceF(src: Source, s: State)
    requires s.pushBack == None && s.pos <= |src.lexemes| && OperandPlace(src.lexemes, s.pos)
    ensures InPlace(src, DecidingF(src, s))
    decreases |src.lexemes| - s.pos, 1
  {
    hide ParseT, DecidingT;
    InPlaceT(src, s);
    var (s1, l) := ParseT(src, s, true);
    var (s2, o) := NextToken(src, s1, true);
    if l == True && o == And {
      InPlaceF(src, s2);
    }
  }

  lemma {:induction false} InPlaceE(src: Source, s: State)
    requires s.pushBack == None && s.pos <= |src.lexemes| && OperandPlace(src.lexemes, s.pos)
    ensures InPlace(src, DecidingE(src, s))
    decreases |src.lexemes| - s.pos, 2
  {
    hide ParseF, DecidingF;
    InPlaceF(src, s);
    BarPushedF(src, s, true);
    var (s1, l) := ParseF(src, s, true);
    var (s2, o) := NextToken(src, s1, true);
    if l == False && o == Or {
      InPlaceE(src, s2);
    }
  }

  /** What a caller can check on the text: no operator or closing parenthesis where
      an operand is looked for. Then the value is set, or the text rejected. */
  lemma ValueSetOnTidyText(src: Source)
    requires forall i :: 0 <= i < |src.lexemes| && IsStray(src.lexemes[i]) ==> !OperandPlace(src.lexemes, i)
    ensures Evaluate(src, true).1 == Evaluate(src, false).1
  {
    hide ParseE, DecidingE, Evaluate, OperandPlace;
    var s := State(0, None, []);
    assert OperandPlace(src.lexemes, 0) by {
      StartIsPlace(src.lexemes);
    }
    InPlaceE(src, s);
    ValueSetIff(src);
  }

  lemma StartIsPlace(text: seq<Lexeme>)
    ensures OperandPlace(text, 0)
  {
  }

  lemma StrayDecides(src: Source, s: State)
    requires s.pushBack == None && s.pos < |src.lexemes| && IsStray(src.lexemes[s.pos])
    ensures DecidingE(src, s) == OperandAt(s.pos)
  {
    DecidedT(src, s);
    hide ParseT, DecidingT;
    assert DecidingF(src, s) == OperandAt(s.pos);
    hide ParseF, DecidingF;
    DecidedF(src, s);
  }

  /** A text that starts with an operator or a closing parenthesis is accepted
      whatever follows. */
  lemma LeadingOperatorAccepted(src: Source, value: bool)
    requires src.lexemes != [] && IsStray(src.lexemes[0])
    ensures Evaluate(src, value).1 == Valid(value)
  {
    hide DecidingE, Evaluate;
    StrayDecides(src, State(0, None, []));
    ValueSetIff(src);
  }

  /** One more such text: "x || )" when x does not hold. */
  lemma StrayOperandAccepted(value: bool)
    ensures Evaluate(Source([Operand(0, false), Bar, Close], _ => false), value).1 == Valid(value)
  {
    var src := Source([Operand(0, false), Bar, Close], _ => false);
    var s := State(0, None, []);
    var next := State(2, None, [0]);
    OperandThenBar(src);
    StrayDecides(src, next);
    hide ParseF, DecidingE, Evaluate;
    AlternativeDecides(src, s, next);
    ValueSetIff(src);
  }

  lemma OperandThenBar(src: Source)
    requires |src.lexemes| == 3 && src.lexemes[0] == Operand(0, false) && src.lexemes[1] == Bar && !src.env(0)
    ensures ParseF(src, State(0, None, []), true) == (State(2, Or, [0]), False)
  {
    hide ParseE, ParseF;
    var s := State(0, None, []);
    assert s.evaluated + [0] == [0];
    assert ParseT(src, s, true) == (State(1, None, [0]), False);
    FactorIs(src, s, true);
  }

  lemma AlternativeDecides(src: Source, s: State, next: State)
    requires s.pushBack == None && s.pos <= |src.lexemes|
    requires ParseF(src, s, true) == (next.(pushBack := Or), False) && next.pushBack == None
    ensures s.pos < next.pos <= |src.lexemes| && DecidingE(src, s) == DecidingE(src, next)
  {
    hide ParseF, DecidingF;
  }
}
