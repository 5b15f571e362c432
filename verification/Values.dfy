/**
 * The numbers that expressions and arithmetic programs compute: plain integer
 * arithmetic modulo 2^32, folded from left to right.
 */
module Values {
  import opened Wrappers
  import opened Machine
  import opened Exec
  import opened Arithmetic
  import opened Symbols
  import opened Lexing
  import opened Spelling
  import opened Grammar
  import opened Expressions

  // ---- the operators ----

  /** The operators on numbers, by the character they are written with; no result when dividing by zero. */
  function OnNumbers(op: char, x: nat, y: nat): Option<nat> {
    if op == '+' then Some((x + y) % MODULUS)
    else if op == '-' then Some((x - y) % MODULUS)
    else if op == '*' then Some((x * y) % MODULUS)
    else if y == 0 then None
    else if op == '/' then Some(x / y)
    else Some(x % y)
  }

  lemma {:induction false} ZeroValue(b: Word)
    ensures NumberOf(b) == 0 <==> b == 0
  {
    hide Less1;
  }

  /** Each operator computes on words what it computes on their values. */
  lemma {:induction false} OperatorsAreNumeric(op: BinOp, a: Word, b: Word)
    ensures (match OpMeaning(op, a, b)
             case Some(v) => Some(NumberOf(v))
             case None => None)
         == OnNumbers(OpChar(op), NumberOf(a), NumberOf(b))
  {
    hide AddW, SubW, MulW, DivW, ModW, NumberOf;
    ZeroValue(b);
    match op
    case Plus => AddIsModular(a, b);
    case Minus => SubIsModular(a, b);
    case Times => MulIsModular(a, b);
    case Over => DivIsInteger(a, b);
    case Rem =>
      if b != 0 {
        ModIsInteger(a, b);
      }
  }

  /** So do the arithmetic primitives of the stack machine, where division by zero yields zero. */
  lemma {:induction false} PrimitivesAreNumeric(a: Word, b: Word)
    ensures NumberOf(Arith(ADD, a, b)) == (NumberOf(a) + NumberOf(b)) % MODULUS
    ensures NumberOf(Arith(SUB, a, b)) == (NumberOf(a) - NumberOf(b)) % MODULUS
    ensures NumberOf(Arith(MUL, a, b)) == (NumberOf(a) * NumberOf(b)) % MODULUS
    ensures NumberOf(Arith(DIV, a, b)) == if NumberOf(b) == 0 then 0 else NumberOf(a) / NumberOf(b)
  {
    hide AddW, SubW, MulW, DivW, NumberOf;
    AddIsModular(a, b);
    SubIsModular(a, b);
    MulIsModular(a, b);
    DivIsInteger(a, b);
  }

  // ---- trees ----

  /** What a tree comes to: a number, or the first fault met from the left. */
  datatype Outcome = Number(n: nat) | Unknown | ZeroDivisor

  predicate TermQuiet(t: Term) {
    match t
    case PeekAt(_) => false
    case Group(e) => TreeQuiet(e)
    case _ => true
  }

  /** No memory is read. */
  predicate TreeQuiet(e: Tree) {
    match e
    case One(t) => TermQuiet(t)
    case More(front, _, t) => TreeQuiet(front) && TermQuiet(t)
  }

  function TermNumber(env: Env, t: Term): Outcome
    requires TermQuiet(t)
    decreases t
  {
    match t
    case Num(v) => Number(NumberOf(v as Word))
    case Name(id) => if id in env then Number(NumberOf(env[id])) else Unknown
    case Group(e) => TreeNumber(env, e)
  }

  function TreeNumber(env: Env, e: Tree): Outcome
    requires TreeQuiet(e)
    decreases e
  {
    match e
    case One(t) => TermNumber(env, t)
    case More(front, op, t) =>
      var left := TreeNumber(env, front);
      var right := TermNumber(env, t);
      if !left.Number? then left
      else if !right.Number? then right
      else OutcomeOf(OnNumbers(OpChar(op), left.n, right.n))
  }

  function OutcomeOf(r: Option<nat>): Outcome {
    match r
    case Some(n) => Number(n)
    case None => ZeroDivisor
  }

  function Seen(m: Meaning): Outcome {
    match m
    case Val(v, _) => Number(NumberOf(v))
    case Fault(UnknownSymbol, _) => Unknown
    case Fault(_, _) => ZeroDivisor
  }

  /** Folding a quiet term or tree reads nothing and comes to its number, or to its first fault. */
  lemma {:induction false} TermIsNumeric(sc: Scope, t: Term, trace: Trace)
    requires TermQuiet(t)
    ensures var m := TermMeaning(sc, t, trace);
            Seen(m) == TermNumber(sc.env, t) && m.trace == trace &&
            (m.Fault? ==> m.error == UnknownSymbol || m.error == DivByZero)
    decreases t
  {
    match t
    case Group(e) => TreeIsNumeric(sc, e, trace);
    case _ =>
  }

  lemma {:induction false} TreeIsNumeric(sc: Scope, e: Tree, trace: Trace)
    requires TreeQuiet(e)
    ensures var m := TreeMeaning(sc, e, trace);
            Seen(m) == TreeNumber(sc.env, e) && m.trace == trace &&
            (m.Fault? ==> m.error == UnknownSymbol || m.error == DivByZero)
    decreases e
  {
    hide OpMeaning, OnNumbers, NumberOf;
    match e
    case One(t) => TermIsNumeric(sc, t, trace);
    case More(front, op, t) =>
      TreeIsNumeric(sc, front, trace);
      TermIsNumeric(sc, t, trace);
      match TreeMeaning(sc, front, trace)
      case Fault(_, _) =>
      case Val(a, _) =>
        match TermMeaning(sc, t, trace)
        case Fault(_, _) =>
        case Val(b, _) => OperatorsAreNumeric(op, a, b);
  }

  /** The text of a quiet expression evaluates to its number, or fails with the fault its number runs into. */
  lemma {:induction false} TextIsNumeric(sc: Scope, e: Tree, words: seq<string>, gaps: seq<string>, tail: string,
                                         trace: Trace)
    requires TreeOk(e) && TreeQuiet(e) && WriteAll(TreeToks(e), words)
    requires |gaps| == |words| && Separated(words, gaps, tail) && !IsBinary(Head(Tokens(tail)))
    ensures var r := Whole(sc, Tokens(Spell(words, gaps, tail)), trace);
            match TreeNumber(sc.env, e)
            case Number(n) => r.Good? && NumberOf(r.value) == n && r.toks == Tokens(tail) && r.trace == trace
            case Unknown => r == Bad(UnknownSymbol, trace)
            case ZeroDivisor => r == Bad(DivByZero, trace)
  {
    hide Tokens, Spell, Separated, WriteAll, TreeToks, TreeMeaning, TreeNumber, Whole, NumberOf;
    TextEvaluates(sc, e, words, gaps, tail, trace);
    TreeIsNumeric(sc, e, trace);
  }
}
