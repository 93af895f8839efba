/** The operators of #if expressions by name: what each compares, and which binds more tightly. */
module UnifdefOperators {
  import opened Wrappers
  import opened UnifdefEval

  /** The second operator takes its left operand away from the first. */
  predicate Tighter(q: BinOp, p: BinOp) {
    (p == OrOr && q != OrOr) ||
    (p == AndAnd && q !in {OrOr, AndAnd}) ||
    (p in {EqEq, NotEq} && q in {Lt, LtEq, Gt, GtEq})
  }

  /** No operator that binds as tightly as the row goes on behind. */
  predicate Ends(toks: seq<Token>, level: nat, pos: nat) {
    pos < |toks| && toks[pos].Binary? ==> UnifdefEval.Level(toks[pos].op) < level
  }

  /** A row whose first operand is known, with no operator of the row behind it. */
  lemma RowOf(toks: seq<Token>, syms: Symbols, level: nat, pos: nat, left: Tree, mid: nat)
    requires level < UNARY && pos <= mid <= |toks| && ParseInner(toks, syms, level + 1, pos) == Some((left, mid))
    ensures ParseInner(toks, syms, level, pos) == ParseRest(toks, syms, level, left, mid)
    ensures Ends(toks, level, mid) ==> ParseInner(toks, syms, level, pos) == Some((left, mid))
  {
  }

  /** One turn of the row. */
  lemma TurnOf(toks: seq<Token>, syms: Symbols, level: nat, left: Tree, mid: nat, right: Tree, end: nat)
    requires level < UNARY && OperatorAt(toks, level, mid) && mid < end <= |toks|
    requires ParseInner(toks, syms, level + 1, mid + 1) == Some((right, end))
    ensures ParseRest(toks, syms, level, left, mid) == ParseRest(toks, syms, level, Bin(toks[mid].op, left, right), end)
  {
  }

  lemma {:induction false} NumberAlone(toks: seq<Token>, syms: Symbols, level: nat, pos: nat)
    requires pos < |toks| && toks[pos].Number? && level <= UNARY && Ends(toks, level, pos + 1)
    ensures ParseInner(toks, syms, level, pos) == Some((Num(toks[pos].n), pos + 1))
    decreases UNARY - level
  {
    if level < UNARY {
      NumberAlone(toks, syms, level + 1, pos);
      RowOf(toks, syms, level, pos, Num(toks[pos].n), pos + 1);
    }
  }

  predicate TwoAt(toks: seq<Token>, pos: nat) {
    pos + 3 <= |toks| && toks[pos].Number? && toks[pos + 1].Binary? && toks[pos + 2].Number?
  }

  lemma {:induction false} TwoAlone(toks: seq<Token>, syms: Symbols, level: nat, pos: nat)
    requires TwoAt(toks, pos) && level <= UnifdefEval.Level(toks[pos + 1].op) && Ends(toks, level, pos + 3)
    ensures ParseInner(toks, syms, level, pos) == Some((Bin(toks[pos + 1].op, Num(toks[pos].n), Num(toks[pos + 2].n)), pos + 3))
    decreases UNARY - level
  {
    if level == UnifdefEval.Level(toks[pos + 1].op) {
      NumberAlone(toks, syms, level + 1, pos);
      NumberAlone(toks, syms, level + 1, pos + 2);
      RowOf(toks, syms, level, pos, Num(toks[pos].n), pos + 1);
      TurnOf(toks, syms, level, Num(toks[pos].n), pos + 1, Num(toks[pos + 2].n), pos + 3);
    } else {
      TwoAlone(toks, syms, level + 1, pos);
      RowOf(toks, syms, level, pos, Bin(toks[pos + 1].op, Num(toks[pos].n), Num(toks[pos + 2].n)), pos + 3);
    }
  }

  function Three(a: int, p: BinOp, b: int, q: BinOp, c: int): seq<Token> {
    [Number(a), Binary(p), Number(b), Binary(q), Number(c)]
  }

  lemma TighterLevel(q: BinOp, p: BinOp)
    ensures Tighter(q, p) <==> UnifdefEval.Level(q) > UnifdefEval.Level(p)
  {
  }

  lemma {:induction false} ThreeAt(toks: seq<Token>, syms: Symbols, level: nat)
    requires |toks| == 5 && TwoAt(toks, 0) && TwoAt(toks, 2)
    requires level <= UnifdefEval.Level(toks[1].op) && level <= UnifdefEval.Level(toks[3].op)
    ensures
      var p, q, a, b, c := toks[1].op, toks[3].op, Num(toks[0].n), Num(toks[2].n), Num(toks[4].n);
      ParseInner(toks, syms, level, 0) == Some((if Tighter(q, p) then Bin(p, a, Bin(q, b, c)) else Bin(q, Bin(p, a, b), c), 5))
    decreases UNARY - level
  {
    var o, r := toks[1].op, toks[3].op;
    var p, q := UnifdefEval.Level(o), UnifdefEval.Level(r);
    var a, b, c := Num(toks[0].n), Num(toks[2].n), Num(toks[4].n);
    TighterLevel(r, o);
    if level < p && level < q {
      ThreeAt(toks, syms, level + 1);
      RowOf(toks, syms, level, 0, if Tighter(r, o) then Bin(o, a, Bin(r, b, c)) else Bin(r, Bin(o, a, b), c), 5);
    } else if level < p {
      TwoAlone(toks, syms, level + 1, 0);
      NumberAlone(toks, syms, level + 1, 4);
      RowOf(toks, syms, level, 0, Bin(o, a, b), 3);
      TurnOf(toks, syms, level, Bin(o, a, b), 3, c, 5);
    } else if level < q {
      NumberAlone(toks, syms, level + 1, 0);
      TwoAlone(toks, syms, level + 1, 2);
      RowOf(toks, syms, level, 0, a, 1);
      TurnOf(toks, syms, level, a, 1, Bin(r, b, c), 5);
    } else {
      NumberAlone(toks, syms, level + 1, 0);
      NumberAlone(toks, syms, level + 1, 2);
      NumberAlone(toks, syms, level + 1, 4);
      RowOf(toks, syms, level, 0, a, 1);
      TurnOf(toks, syms, level, a, 1, b, 3);
      TurnOf(toks, syms, level, Bin(o, a, b), 3, c, 5);
    }
  }

  /** Which of two operators comes first: || is the loosest, then &&, then == and !=, then the
      orderings, and of two alike the left one comes first. */
  lemma Precedence(a: int, p: BinOp, b: int, q: BinOp, c: int, syms: Symbols)
    ensures
      ParseLine(Three(a, p, b, q, c), syms) ==
      Some(if Tighter(q, p) then Bin(p, Num(a), Bin(q, Num(b), Num(c))) else Bin(q, Bin(p, Num(a), Num(b)), Num(c)))
  {
    ThreeAt(Three(a, p, b, q, c), syms, 0);
  }

  predicate FitsInt(n: int) {
    -0x8000_0000 <= n <= 0x7fff_ffff
  }

  /** What an operator says of two numbers. */
  predicate Says(op: BinOp, a: int, b: int) {
    match op
    case OrOr => a != 0 || b != 0
    case AndAnd => a != 0 && b != 0
    case EqEq => a == b
    case NotEq => a != b
    case Lt => a < b
    case LtEq => a <= b
    case Gt => a > b
    case GtEq => a >= b
  }

  lemma BothSettled(op: BinOp, strictlogic: bool, a: int, b: int)
    ensures SettledBy(op, strictlogic, Some(a), Some(b)).Some?
    ensures SettledBy(op, strictlogic, Some(a), Some(b)).value != 0 <==> Says(op, a, b)
  {
  }

  /** Two numbers that fit are judged by what the operator says of them. */
  lemma Compared(op: BinOp, a: int, b: int, syms: Symbols, strictlogic: bool, junk: (nat, nat) -> int)
    requires FitsInt(a) && FitsInt(b)
    ensures
      IfEval(Context([Number(a), Binary(op), Number(b)], syms, strictlogic, junk), true) ==
      if Says(op, a, b) then True else False
  {
    var toks := [Number(a), Binary(op), Number(b)];
    TwoAlone(toks, syms, 0, 0);
    IfEvalExactly(Context(toks, syms, strictlogic, junk), true);
    var t := Bin(op, Num(a), Num(b));
    assert ParseLine(toks, syms) == Some(t);
    StoredIsInt(a);
    StoredIsInt(b);
    assert !HasText(Num(a), syms) && !HasText(Num(b), syms) && !HasText(t, syms);
    assert Settled(t, syms, strictlogic) == SettledBy(op, strictlogic, Some(a), Some(b));
    BothSettled(op, strictlogic, a, b);
  }
}
