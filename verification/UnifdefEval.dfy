/** The evaluator for #if expressions.  It answers true or false only when the answer does not
    depend on anything unknown; everything else is answered with If. */
module UnifdefEval {
  import opened Wrappers

  datatype BinOp = OrOr | AndAnd | EqEq | NotEq | LtEq | GtEq | Lt | Gt

  datatype Token =
    | Bang | LParen | RParen | Defined
    | Number(n: int)
    | Ident(name: string)
    | Binary(op: BinOp)
    | Junk

  // The row of the precedence table an operator is in.
  function Level(op: BinOp): nat {
    match op
    case OrOr => 0
    case AndAnd => 1
    case EqEq => 2
    case NotEq => 2
    case _ => 3
  }

  const UNARY: nat := 4

  /** A symbol given on the command line: undefined, or defined with a text that is a number
      or is not. */
  datatype Known = Undefined | DefinedAs(n: Option<int>)

  type Symbols = map<string, Known>

  // ----- The evaluator -----

  datatype Truth = If | True | False

  /** The type of the result, the content of *valp, where the expression ended, and whether
      no symbol was consulted. */
  datatype Result = Error | Result(lt: Truth, val: int, pos: nat, constexpr: bool)

  function TruthOf(v: int): Truth {
    if v != 0 then True else False
  }

  /** What is left of a number after strtol has returned a long and it was stored as an int. */
  function StoredInt(n: int): int {
    var long := if n > 0x7fff_ffff_ffff_ffff then 0x7fff_ffff_ffff_ffff
                else if n < -0x8000_0000_0000_0000 then -0x8000_0000_0000_0000 else n;
    (long + 0x8000_0000) % 0x1_0000_0000 - 0x8000_0000
  }

  function Bool(b: bool): int {
    if b then 1 else 0
  }

  function Compute(op: BinOp, a: int, b: int): int {
    match op
    case OrOr => Bool(a != 0 || b != 0)
    case AndAnd => Bool(a != 0 && b != 0)
    case EqEq => Bool(a == b)
    case NotEq => Bool(a != b)
    case LtEq => Bool(a <= b)
    case GtEq => Bool(a >= b)
    case Lt => Bool(a < b)
    case Gt => Bool(a > b)
  }

  /** The type and value after an operator; the value is not touched when the type is If. */
  function Operate(op: BinOp, strictlogic: bool, at: Truth, a: int, bt: Truth, b: int): (Truth, int) {
    if op == OrOr && !strictlogic && (at == True || bt == True) then (True, 1)
    else if op == AndAnd && !strictlogic && (at == False || bt == False) then (False, 0)
    else if at == If || bt == If then (If, a)
    else (TruthOf(Compute(op, a, b)), Compute(op, a, b))
  }

  /** The end of a parenthesised group entered at nesting level. */
  function MatchParen(toks: seq<Token>, p: nat, level: int): (r: Option<nat>)
    requires p <= |toks|
    ensures r.Some? ==> p < r.value <= |toks| && toks[r.value - 1] == RParen
    decreases |toks| - p
  {
    if p == |toks| then None
    else
      var l := if toks[p] == LParen then level + 1 else if toks[p] == RParen then level - 1 else level;
      if l == 0 && toks[p] == RParen then Some(p + 1) else MatchParen(toks, p + 1, l)
  }

  /** Skips macro arguments; a group that does not end is left for the syntax error later. */
  function SkipArgs(toks: seq<Token>, p: nat): (q: nat)
    requires p <= |toks|
    ensures p <= q <= |toks|
    ensures q != p ==> q >= p + 2 && toks[p] == LParen && toks[q - 1] == RParen
  {
    if p < |toks| && toks[p] == LParen then
      var r := MatchParen(toks, p, 0);
      if r.Some? then r.value else p
    else p
  }

  /** A line to be evaluated; junk is what the uninitialised variable of each call of the table
      evaluator holds, told apart by its row and where it starts. */
  datatype Context = Context(toks: seq<Token>, syms: Symbols, strictlogic: bool, junk: (nat, nat) -> int)

  /** Made of symbol characters.  A number and the word defined are, but are in no table. */
  predicate NameLike(t: Token) {
    t.Ident? || t.Number? || t == Defined
  }

  function EvalDefined(c: Context, pos: nat, val: int): (r: Result)
    requires pos < |c.toks| && c.toks[pos] == Defined
    ensures r.Result? ==> pos < r.pos <= |c.toks|
  {
    var paren := pos + 1 < |c.toks| && c.toks[pos + 1] == LParen;
    var p := if paren then pos + 2 else pos + 1;
    var named := p < |c.toks| && NameLike(c.toks[p]);
    var q := if named then p + 1 else p;
    var known := named && c.toks[p].Ident? && c.toks[p].name in c.syms;
    var v := if known then Bool(c.syms[c.toks[p].name] != Undefined) else val;
    var lt := if known then TruthOf(v) else If;
    if !paren then Result(lt, v, q, false)
    else if q < |c.toks| && c.toks[q] == RParen then Result(lt, v, q + 1, false)
    else Error
  }

  function EvalSymbol(c: Context, pos: nat, val: int): (r: Result)
    requires pos < |c.toks| && c.toks[pos].Ident?
    ensures r.Result? ==> pos < r.pos <= |c.toks|
  {
    var name := c.toks[pos].name;
    if name !in c.syms then Result(If, val, SkipArgs(c.toks, pos + 1), false)
    else match c.syms[name]
      case Undefined => Result(False, 0, pos + 1, false)
      case DefinedAs(None) => Error
      case DefinedAs(Some(n)) => Result(TruthOf(StoredInt(n)), StoredInt(n), SkipArgs(c.toks, pos + 1), false)
  }

  function EvalUnary(c: Context, pos: nat, val: int, constexpr: bool): (r: Result)
    requires pos <= |c.toks|
    ensures r.Result? ==> pos < r.pos <= |c.toks|
    decreases |c.toks| - pos, 0
  {
    if pos == |c.toks| then Error
    else match c.toks[pos]
      case Bang =>
        var r := EvalUnary(c, pos + 1, val, constexpr);
        if r.Error? || r.lt == If then r
        else Result(TruthOf(Bool(r.val == 0)), Bool(r.val == 0), r.pos, r.constexpr)
      case LParen =>
        var r := EvalTable(c, 0, pos + 1, val, constexpr);
        if r.Error? then r
        else if r.pos < |c.toks| && c.toks[r.pos] == RParen then r.(pos := r.pos + 1)
        else Error
      case Number(n) => Result(TruthOf(StoredInt(n)), StoredInt(n), pos + 1, constexpr)
      case Defined => EvalDefined(c, pos, val)
      case Ident(_) => EvalSymbol(c, pos, val)
      case _ => Error
  }

  function EvalInner(c: Context, level: nat, pos: nat, val: int, constexpr: bool): (r: Result)
    requires pos <= |c.toks| && level <= UNARY
    ensures r.Result? ==> pos < r.pos <= |c.toks|
    decreases |c.toks| - pos, 1 + 2 * (UNARY - level)
  {
    if level == UNARY then EvalUnary(c, pos, val, constexpr) else EvalTable(c, level, pos, val, constexpr)
  }

  /** One row of the precedence table: an operand of the next row, then operators of this one. */
  function EvalTable(c: Context, level: nat, pos: nat, val: int, constexpr: bool): (r: Result)
    requires pos <= |c.toks| && level < UNARY
    ensures r.Result? ==> pos < r.pos <= |c.toks|
    decreases |c.toks| - pos, 2 * (UNARY - level)
  {
    var r := EvalInner(c, level + 1, pos, val, constexpr);
    if r.Error? then r else EvalRest(c, level, r, c.junk(level, pos))
  }

  predicate OperatorAt(toks: seq<Token>, level: nat, pos: nat) {
    pos < |toks| && toks[pos].Binary? && Level(toks[pos].op) == level
  }

  /** The loop over the operators of one row.  The value of the right operand is kept in one
      variable for all of them, which starts out undetermined. */
  function EvalRest(c: Context, level: nat, left: Result, local: int): (r: Result)
    requires left.Result? && left.pos <= |c.toks| && level < UNARY
    ensures r.Result? ==> left.pos <= r.pos <= |c.toks|
    decreases |c.toks| - left.pos, 0
  {
    if !OperatorAt(c.toks, level, left.pos) then left
    else
      var r := EvalInner(c, level + 1, left.pos + 1, local, left.constexpr);
      if r.Error? then r
      else
        var (lt, v) := Operate(c.toks[left.pos].op, c.strictlogic, left.lt, left.val, r.lt, r.val);
        EvalRest(c, level, Result(lt, v, r.pos, r.constexpr), r.val)
  }

  /** The answer for a whole line: If unless every token was used, no error was found and, if
      constants are to be kept, some symbol was consulted. */
  function IfEval(c: Context, killconsts: bool): Truth {
    var r := EvalTable(c, 0, 0, 0, !killconsts);
    if r.Error? || r.constexpr || r.pos != |c.toks| then If else r.lt
  }

  // ----- What an expression means -----

  /** A syntax tree with its parentheses. */
  datatype Tree =
    | Num(n: int)
    | Sym(name: string, args: seq<Token>)
    | Def(paren: bool, operand: Option<Token>)
    | Neg(arg: Tree)
    | Paren(inner: Tree)
    | Bin(op: BinOp, left: Tree, right: Tree)

  function Yield(t: Tree): seq<Token> {
    match t
    case Num(n) => [Number(n)]
    case Sym(name, args) => [Ident(name)] + args
    case Def(paren, operand) =>
      [Defined] + (if paren then [LParen] else []) + (if operand.Some? then [operand.value] else []) +
      (if paren then [RParen] else [])
    case Neg(a) => [Bang] + Yield(a)
    case Paren(a) => [LParen] + Yield(a) + [RParen]
    case Bin(op, l, r) => Yield(l) + [Binary(op)] + Yield(r)
  }

  function TreeLevel(t: Tree): nat {
    if t.Bin? then Level(t.op) else UNARY
  }

  /** C precedence and left associativity: a left operand binds at least as tightly as the
      operator, a right operand more tightly. */
  predicate Grouped(t: Tree) {
    match t
    case Neg(a) => TreeLevel(a) == UNARY && Grouped(a)
    case Paren(a) => Grouped(a)
    case Bin(op, l, r) => TreeLevel(l) >= Level(op) && TreeLevel(r) > Level(op) && Grouped(l) && Grouped(r)
    case Sym(_, args) => args == [] || (args[0] == LParen && MatchParen(args, 0, 0) == Some(|args|))
    case _ => true
  }

  /** Everything the symbol table does not say. */
  datatype Env = Env(value: (string, seq<Token>) -> int, isDefined: Option<Token> -> bool)

  /** A number as C has it, or as it is stored in an int. */
  function Reading(n: int, stored: bool): int {
    if stored then StoredInt(n) else n
  }

  function Meaning(t: Tree, syms: Symbols, env: Env, stored: bool): int {
    match t
    case Num(n) => Reading(n, stored)
    case Sym(name, args) =>
      if name in syms then
        (match syms[name] case DefinedAs(Some(n)) => Reading(n, stored) case _ => 0)
      else env.value(name, args)
    case Def(_, operand) =>
      (match operand
       case Some(Ident(name)) => if name in syms then Bool(syms[name] != Undefined) else Bool(env.isDefined(operand))
       case _ => Bool(env.isDefined(operand)))
    case Neg(a) => Bool(Meaning(a, syms, env, stored) == 0)
    case Paren(a) => Meaning(a, syms, env, stored)
    case Bin(op, l, r) => Compute(op, Meaning(l, syms, env, stored), Meaning(r, syms, env, stored))
  }

  /** Some symbol in the tree is not in the table. */
  predicate HasUnknown(t: Tree, syms: Symbols) {
    match t
    case Num(_) => false
    case Sym(name, _) => name !in syms
    case Def(_, operand) => !(operand.Some? && operand.value.Ident? && operand.value.name in syms)
    case Neg(a) => HasUnknown(a, syms)
    case Paren(a) => HasUnknown(a, syms)
    case Bin(_, l, r) => HasUnknown(l, syms) || HasUnknown(r, syms)
  }

  /** Every number fits an int. */
  predicate TokensFit(toks: seq<Token>) {
    forall i :: 0 <= i < |toks| && toks[i].Number? ==> StoredInt(toks[i].n) == toks[i].n
  }

  predicate SymbolsFit(syms: Symbols) {
    forall s :: s in syms && syms[s].DefinedAs? && syms[s].n.Some? ==> StoredInt(syms[s].n.value) == syms[s].n.value
  }

  /** Storing numbers that fit changes no meaning. */
  lemma {:induction false} StoredMeaning(t: Tree, syms: Symbols, env: Env)
    requires TokensFit(Yield(t)) && SymbolsFit(syms)
    ensures Meaning(t, syms, env, true) == Meaning(t, syms, env, false)
  {
    match t
    case Num(n) => assert Yield(t)[0] == Number(n);
    case Sym(_, _) =>
    case Def(_, _) =>
    case Neg(a) =>
      PartFits(Yield(t), [Bang], Yield(a), []);
      StoredMeaning(a, syms, env);
    case Paren(a) =>
      PartFits(Yield(t), [LParen], Yield(a), [RParen]);
      StoredMeaning(a, syms, env);
    case Bin(op, l, r) =>
      PartFits(Yield(t), [], Yield(l), [Binary(op)] + Yield(r));
      PartFits(Yield(t), Yield(l) + [Binary(op)], Yield(r), []);
      StoredMeaning(l, syms, env);
      StoredMeaning(r, syms, env);
  }

  lemma PartFits(whole: seq<Token>, a: seq<Token>, b: seq<Token>, c: seq<Token>)
    requires TokensFit(whole) && whole == a + b + c
    ensures TokensFit(b)
  {
    forall i | 0 <= i < |b| && b[i].Number? ensures StoredInt(b[i].n) == b[i].n {
      assert whole[|a| + i] == b[i];
    }
  }

  // ----- The parser behind the evaluator -----

  type Parse = Option<(Tree, nat)>

  function DefinedEnd(toks: seq<Token>, pos: nat): Option<nat>
    requires pos < |toks|
  {
    var paren := pos + 1 < |toks| && toks[pos + 1] == LParen;
    var p := if paren then pos + 2 else pos + 1;
    var q := if p < |toks| && NameLike(toks[p]) then p + 1 else p;
    if !paren then Some(q) else if q < |toks| && toks[q] == RParen then Some(q + 1) else None
  }

  function DefinedTree(toks: seq<Token>, pos: nat): Tree
    requires pos < |toks|
  {
    var paren := pos + 1 < |toks| && toks[pos + 1] == LParen;
    var p := if paren then pos + 2 else pos + 1;
    Def(paren, if p < |toks| && NameLike(toks[p]) then Some(toks[p]) else None)
  }

  /** A symbol that is known to be undefined takes no arguments. */
  function SymbolEnd(toks: seq<Token>, syms: Symbols, pos: nat): (q: nat)
    requires pos < |toks| && toks[pos].Ident?
    ensures pos < q <= |toks|
  {
    var name := toks[pos].name;
    if name in syms && syms[name] == Undefined then pos + 1 else SkipArgs(toks, pos + 1)
  }

  /** Recursive descent without any evaluation. */
  function ParseUnary(toks: seq<Token>, syms: Symbols, pos: nat): (r: Parse)
    requires pos <= |toks|
    ensures r.Some? ==> pos < r.value.1 <= |toks|
    decreases |toks| - pos, 0
  {
    if pos == |toks| then None
    else match toks[pos]
      case Bang =>
        var r := ParseUnary(toks, syms, pos + 1);
        if r.None? then None else Some((Neg(r.value.0), r.value.1))
      case LParen =>
        var r := ParseTable(toks, syms, 0, pos + 1);
        if r.None? || r.value.1 == |toks| || toks[r.value.1] != RParen then None
        else Some((Paren(r.value.0), r.value.1 + 1))
      case Number(n) => Some((Num(n), pos + 1))
      case Defined =>
        var q := DefinedEnd(toks, pos);
        if q.None? then None else Some((DefinedTree(toks, pos), q.value))
      case Ident(name) => Some((Sym(name, toks[pos + 1..SymbolEnd(toks, syms, pos)]), SymbolEnd(toks, syms, pos)))
      case _ => None
  }

  function ParseInner(toks: seq<Token>, syms: Symbols, level: nat, pos: nat): (r: Parse)
    requires pos <= |toks| && level <= UNARY
    ensures r.Some? ==> pos < r.value.1 <= |toks|
    decreases |toks| - pos, 1 + 2 * (UNARY - level)
  {
    if level == UNARY then ParseUnary(toks, syms, pos) else ParseTable(toks, syms, level, pos)
  }

  function ParseTable(toks: seq<Token>, syms: Symbols, level: nat, pos: nat): (r: Parse)
    requires pos <= |toks| && level < UNARY
    ensures r.Some? ==> pos < r.value.1 <= |toks|
    decreases |toks| - pos, 2 * (UNARY - level)
  {
    var r := ParseInner(toks, syms, level + 1, pos);
    if r.None? then None else ParseRest(toks, syms, level, r.value.0, r.value.1)
  }

  function ParseRest(toks: seq<Token>, syms: Symbols, level: nat, left: Tree, pos: nat): (r: Parse)
    requires pos <= |toks| && level < UNARY
    ensures r.Some? ==> pos <= r.value.1 <= |toks|
    decreases |toks| - pos, 0
  {
    if !OperatorAt(toks, level, pos) then Some((left, pos))
    else
      var r := ParseInner(toks, syms, level + 1, pos + 1);
      if r.None? then None else ParseRest(toks, syms, level, Bin(toks[pos].op, left, r.value.0), r.value.1)
  }

  /** The tree of a whole line, if all of it is one expression. */
  function ParseLine(toks: seq<Token>, syms: Symbols): Option<Tree> {
    var r := ParseTable(toks, syms, 0, 0);
    if r.None? || r.value.1 != |toks| then None else Some(r.value.0)
  }

  // ----- What is parsed is grouped as in C -----

  /** The tree is made of these tokens and binds as tightly as the row. */
  predicate Spelled(t: Tree, toks: seq<Token>, level: nat, pos: nat, end: nat) {
    pos <= end <= |toks| && Yield(t) == toks[pos..end] && TreeLevel(t) >= level && Grouped(t)
  }

  predicate AllSpelled(p: Parse, toks: seq<Token>, level: nat, pos: nat) {
    p.Some? ==> Spelled(p.value.0, toks, level, pos, p.value.1)
  }

  lemma DefinedSpelled(toks: seq<Token>, pos: nat)
    requires pos < |toks| && toks[pos] == Defined && DefinedEnd(toks, pos).Some?
    ensures Spelled(DefinedTree(toks, pos), toks, UNARY, pos, DefinedEnd(toks, pos).value)
  {
  }

  lemma {:induction false} MatchInside(toks: seq<Token>, p: nat, i: nat, level: int)
    requires p <= i <= |toks| && MatchParen(toks, i, level).Some?
    ensures
      var e := MatchParen(toks, i, level).value;
      i - p <= e - p <= |toks[p..e]| && MatchParen(toks[p..e], i - p, level) == Some(e - p)
    decreases |toks| - i
  {
    var e := MatchParen(toks, i, level).value;
    var l := if toks[i] == LParen then level + 1 else if toks[i] == RParen then level - 1 else level;
    assert toks[p..e][i - p] == toks[i];
    if !(l == 0 && toks[i] == RParen) {
      MatchInside(toks, p, i + 1, l);
    }
  }

  lemma SymbolSpelled(toks: seq<Token>, syms: Symbols, pos: nat)
    requires pos < |toks| && toks[pos].Ident?
    ensures Spelled(Sym(toks[pos].name, toks[pos + 1..SymbolEnd(toks, syms, pos)]), toks, UNARY, pos, SymbolEnd(toks, syms, pos))
  {
    var e := SymbolEnd(toks, syms, pos);
    if e != pos + 1 { MatchInside(toks, pos + 1, pos + 1, 0); }
  }

  lemma NegSpelled(toks: seq<Token>, pos: nat, a: Tree, end: nat)
    requires pos < |toks| && toks[pos] == Bang && Spelled(a, toks, UNARY, pos + 1, end)
    ensures Spelled(Neg(a), toks, UNARY, pos, end)
  {
    assert toks[pos..end] == [Bang] + toks[pos + 1..end];
  }

  lemma ParenSpelled(toks: seq<Token>, pos: nat, a: Tree, end: nat)
    requires pos < |toks| && toks[pos] == LParen && Spelled(a, toks, 0, pos + 1, end)
    requires end < |toks| && toks[end] == RParen
    ensures Spelled(Paren(a), toks, UNARY, pos, end + 1)
  {
    assert toks[pos..end + 1] == [LParen] + toks[pos + 1..end] + [RParen];
  }

  lemma OperatorSpelled(toks: seq<Token>, level: nat, pos: nat, l: Tree, mid: nat, r: Tree, end: nat)
    requires Spelled(l, toks, level, pos, mid) && OperatorAt(toks, level, mid) && Spelled(r, toks, level + 1, mid + 1, end)
    ensures Spelled(Bin(toks[mid].op, l, r), toks, level, pos, end)
  {
    assert toks[pos..end] == toks[pos..mid] + [Binary(toks[mid].op)] + toks[mid + 1..end];
  }

  lemma {:induction false} UnarySpelled(toks: seq<Token>, syms: Symbols, pos: nat)
    requires pos <= |toks|
    ensures AllSpelled(ParseUnary(toks, syms, pos), toks, UNARY, pos)
    decreases |toks| - pos, 0
  {
    if ParseUnary(toks, syms, pos).Some? {
      match toks[pos]
      case Bang =>
        UnarySpelled(toks, syms, pos + 1);
        NegSpelled(toks, pos, ParseUnary(toks, syms, pos + 1).value.0, ParseUnary(toks, syms, pos + 1).value.1);
      case LParen =>
        TableSpelled(toks, syms, 0, pos + 1);
        ParenSpelled(toks, pos, ParseTable(toks, syms, 0, pos + 1).value.0, ParseTable(toks, syms, 0, pos + 1).value.1);
      case Defined => DefinedSpelled(toks, pos);
      case Ident(_) => SymbolSpelled(toks, syms, pos);
      case _ =>
    }
  }

  lemma {:induction false} InnerSpelled(toks: seq<Token>, syms: Symbols, level: nat, pos: nat)
    requires pos <= |toks| && level <= UNARY
    ensures AllSpelled(ParseInner(toks, syms, level, pos), toks, level, pos)
    decreases |toks| - pos, 1 + 2 * (UNARY - level)
  {
    if level == UNARY {
      UnarySpelled(toks, syms, pos);
    } else {
      TableSpelled(toks, syms, level, pos);
    }
  }

  lemma {:induction false} TableSpelled(toks: seq<Token>, syms: Symbols, level: nat, pos: nat)
    requires pos <= |toks| && level < UNARY
    ensures AllSpelled(ParseTable(toks, syms, level, pos), toks, level, pos)
    decreases |toks| - pos, 2 * (UNARY - level)
  {
    InnerSpelled(toks, syms, level + 1, pos);
    var r := ParseInner(toks, syms, level + 1, pos);
    if r.Some? { RestSpelled(toks, syms, level, pos, r.value.0, r.value.1); }
  }

  lemma {:induction false} RestSpelled(toks: seq<Token>, syms: Symbols, level: nat, start: nat, left: Tree, pos: nat)
    requires level < UNARY && Spelled(left, toks, level, start, pos)
    ensures AllSpelled(ParseRest(toks, syms, level, left, pos), toks, level, start)
    decreases |toks| - pos, 0
  {
    if OperatorAt(toks, level, pos) {
      InnerSpelled(toks, syms, level + 1, pos + 1);
      var r := ParseInner(toks, syms, level + 1, pos + 1);
      if r.Some? {
        OperatorSpelled(toks, level, start, left, pos, r.value.0, r.value.1);
        RestSpelled(toks, syms, level, start, Bin(toks[pos].op, left, r.value.0), r.value.1);
      }
    }
  }

  // ----- Three-valued meaning -----

  /** The value that is settled by what is known, with numbers as they are stored; || and && are
      settled by one side unless logic is strict. */
  function Settled(t: Tree, syms: Symbols, strictlogic: bool): Option<int> {
    match t
    case Num(n) => Some(StoredInt(n))
    case Sym(name, _) =>
      if name !in syms then None
      else (match syms[name] case DefinedAs(Some(n)) => Some(StoredInt(n)) case _ => Some(0))
    case Def(_, operand) =>
      (match operand
       case Some(Ident(name)) => if name in syms then Some(Bool(syms[name] != Undefined)) else None
       case _ => None)
    case Neg(a) =>
      var x := Settled(a, syms, strictlogic);
      if x.None? then None else Some(Bool(x.value == 0))
    case Paren(a) => Settled(a, syms, strictlogic)
    case Bin(op, l, r) => SettledBy(op, strictlogic, Settled(l, syms, strictlogic), Settled(r, syms, strictlogic))
  }

  function SettledBy(op: BinOp, strictlogic: bool, a: Option<int>, b: Option<int>): Option<int> {
    var decides := if op == OrOr then (x: Option<int>) => x.Some? && x.value != 0 else (x: Option<int>) => x == Some(0);
    if (op == OrOr || op == AndAnd) && !strictlogic && (decides(a) || decides(b)) then Some(Bool(op == OrOr))
    else if a.None? || b.None? then None
    else Some(Compute(op, a.value, b.value))
  }

  /** A settled value is the value whatever the unknown symbols are; an unsettled one has an
      unknown symbol to blame. */
  lemma {:induction false} SettledSound(t: Tree, syms: Symbols, strictlogic: bool)
    ensures
      var v := Settled(t, syms, strictlogic);
      if v.None? then HasUnknown(t, syms) else forall env :: Meaning(t, syms, env, true) == v.value
  {
    match t
    case Num(_) =>
    case Sym(_, _) =>
    case Def(_, _) =>
    case Neg(a) => SettledSound(a, syms, strictlogic);
    case Paren(a) => SettledSound(a, syms, strictlogic);
    case Bin(op, l, r) =>
      SettledSound(l, syms, strictlogic);
      SettledSound(r, syms, strictlogic);
      SettledOperator(op, l, r, syms, strictlogic);
  }

  lemma SettledOperator(op: BinOp, l: Tree, r: Tree, syms: Symbols, strictlogic: bool)
    requires Settled(l, syms, strictlogic).Some? ==> forall env :: Meaning(l, syms, env, true) == Settled(l, syms, strictlogic).value
    requires Settled(r, syms, strictlogic).Some? ==> forall env :: Meaning(r, syms, env, true) == Settled(r, syms, strictlogic).value
    ensures
      var v := Settled(Bin(op, l, r), syms, strictlogic);
      v.Some? ==> forall env :: Meaning(Bin(op, l, r), syms, env, true) == v.value
  {
    var v := Settled(Bin(op, l, r), syms, strictlogic);
    if v.Some? {
      forall env ensures Meaning(Bin(op, l, r), syms, env, true) == v.value {
        var x, y := Meaning(l, syms, env, true), Meaning(r, syms, env, true);
        assert Meaning(Bin(op, l, r), syms, env, true) == Compute(op, x, y);
      }
    }
  }

  // ----- The evaluator does just that -----

  /** Some symbol is defined as something that is no number. */
  predicate HasText(t: Tree, syms: Symbols) {
    match t
    case Sym(name, _) => name in syms && syms[name] == DefinedAs(None)
    case Neg(a) => HasText(a, syms)
    case Paren(a) => HasText(a, syms)
    case Bin(_, l, r) => HasText(l, syms) || HasText(r, syms)
    case _ => false
  }

  /** Some symbol is consulted. */
  predicate HasSymbol(t: Tree) {
    match t
    case Num(_) => false
    case Sym(_, _) => true
    case Def(_, _) => true
    case Neg(a) => HasSymbol(a)
    case Paren(a) => HasSymbol(a)
    case Bin(_, l, r) => HasSymbol(l) || HasSymbol(r)
  }

  predicate Says(lt: Truth, val: int, v: Option<int>) {
    if v.None? then lt == If else lt == TruthOf(v.value) && val == v.value
  }

  /** The result for a tree that ends at end, when constexpr was the flag before. */
  predicate ToldOf(r: Result, t: Tree, end: nat, c: Context, constexpr: bool) {
    r.Result? && r.pos == end && r.constexpr == (constexpr && !HasSymbol(t)) && Says(r.lt, r.val, Settled(t, c.syms, c.strictlogic))
  }

  /** The evaluator fails exactly where there is nothing to parse or a text is met; otherwise it
      tells what is settled. */
  predicate Told(r: Result, p: Parse, c: Context, constexpr: bool) {
    if p.None? || HasText(p.value.0, c.syms) then r.Error? else ToldOf(r, p.value.0, p.value.1, c, constexpr)
  }

  lemma DefinedTold(c: Context, pos: nat, val: int, constexpr: bool)
    requires pos < |c.toks| && c.toks[pos] == Defined
    ensures Told(EvalUnary(c, pos, val, constexpr), ParseUnary(c.toks, c.syms, pos), c, constexpr)
  {
  }

  lemma SymbolTold(c: Context, pos: nat, val: int, constexpr: bool)
    requires pos < |c.toks| && c.toks[pos].Ident?
    ensures Told(EvalUnary(c, pos, val, constexpr), ParseUnary(c.toks, c.syms, pos), c, constexpr)
  {
  }

  lemma NegTold(c: Context, pos: nat, val: int, constexpr: bool)
    requires pos < |c.toks| && c.toks[pos] == Bang
    requires Told(EvalUnary(c, pos + 1, val, constexpr), ParseUnary(c.toks, c.syms, pos + 1), c, constexpr)
    ensures Told(EvalUnary(c, pos, val, constexpr), ParseUnary(c.toks, c.syms, pos), c, constexpr)
  {
  }

  lemma ParenTold(c: Context, pos: nat, val: int, constexpr: bool)
    requires pos < |c.toks| && c.toks[pos] == LParen
    requires Told(EvalTable(c, 0, pos + 1, val, constexpr), ParseTable(c.toks, c.syms, 0, pos + 1), c, constexpr)
    ensures Told(EvalUnary(c, pos, val, constexpr), ParseUnary(c.toks, c.syms, pos), c, constexpr)
  {
  }

  lemma {:induction false} UnaryTold(c: Context, pos: nat, val: int, constexpr: bool)
    requires pos <= |c.toks|
    ensures Told(EvalUnary(c, pos, val, constexpr), ParseUnary(c.toks, c.syms, pos), c, constexpr)
    decreases |c.toks| - pos, 0
  {
    if pos < |c.toks| {
      match c.toks[pos]
      case Bang =>
        UnaryTold(c, pos + 1, val, constexpr);
        NegTold(c, pos, val, constexpr);
      case LParen =>
        TableTold(c, 0, pos + 1, val, constexpr);
        ParenTold(c, pos, val, constexpr);
      case Defined => DefinedTold(c, pos, val, constexpr);
      case Ident(_) => SymbolTold(c, pos, val, constexpr);
      case _ =>
    }
  }

  lemma {:induction false} InnerTold(c: Context, level: nat, pos: nat, val: int, constexpr: bool)
    requires pos <= |c.toks| && level <= UNARY
    ensures Told(EvalInner(c, level, pos, val, constexpr), ParseInner(c.toks, c.syms, level, pos), c, constexpr)
    decreases |c.toks| - pos, 1 + 2 * (UNARY - level)
  {
    if level == UNARY {
      UnaryTold(c, pos, val, constexpr);
    } else {
      TableTold(c, level, pos, val, constexpr);
    }
  }

  /** One row of the table. */
  lemma {:induction false} TableTold(c: Context, level: nat, pos: nat, val: int, constexpr: bool)
    requires pos <= |c.toks| && level < UNARY
    ensures Told(EvalTable(c, level, pos, val, constexpr), ParseTable(c.toks, c.syms, level, pos), c, constexpr)
    decreases |c.toks| - pos, 2 * (UNARY - level)
  {
    InnerTold(c, level + 1, pos, val, constexpr);
    var r, p := EvalInner(c, level + 1, pos, val, constexpr), ParseInner(c.toks, c.syms, level + 1, pos);
    if r.Result? {
      RestTold(c, level, p.value.0, r, c.junk(level, pos), constexpr);
    } else if p.Some? {
      TextStays(c.toks, c.syms, level, p.value.0, p.value.1);
    }
  }

  /** A text that has been met makes the whole line an error. */
  lemma {:induction false} TextStays(toks: seq<Token>, syms: Symbols, level: nat, left: Tree, pos: nat)
    requires level < UNARY && pos <= |toks| && HasText(left, syms)
    ensures ParseRest(toks, syms, level, left, pos).Some? ==> HasText(ParseRest(toks, syms, level, left, pos).value.0, syms)
    decreases |toks| - pos
  {
    if OperatorAt(toks, level, pos) {
      var r := ParseInner(toks, syms, level + 1, pos + 1);
      if r.Some? { TextStays(toks, syms, level, Bin(toks[pos].op, left, r.value.0), r.value.1); }
    }
  }

  /** What the evaluator goes on with after an operator and its right operand. */
  function After(c: Context, left: Result, r: Result): Result
    requires left.Result? && left.pos < |c.toks| && c.toks[left.pos].Binary? && r.Result?
  {
    var (lt, v) := Operate(c.toks[left.pos].op, c.strictlogic, left.lt, left.val, r.lt, r.val);
    Result(lt, v, r.pos, r.constexpr)
  }

  /** An operator settles what its operands settle. */
  lemma OperateSays(op: BinOp, strictlogic: bool, at: Truth, a: int, x: Option<int>, bt: Truth, b: int, y: Option<int>)
    requires Says(at, a, x) && Says(bt, b, y)
    ensures
      var (lt, v) := Operate(op, strictlogic, at, a, bt, b);
      Says(lt, v, SettledBy(op, strictlogic, x, y))
  {
  }

  lemma OperatorTold(c: Context, tree: Tree, left: Result, right: Tree, r: Result, constexpr: bool)
    requires left.Result? && left.pos < |c.toks| && c.toks[left.pos].Binary?
    requires ToldOf(left, tree, left.pos, c, constexpr) && r.Result? && ToldOf(r, right, r.pos, c, left.constexpr)
    ensures ToldOf(After(c, left, r), Bin(c.toks[left.pos].op, tree, right), r.pos, c, constexpr)
  {
    OperateSays(c.toks[left.pos].op, c.strictlogic, left.lt, left.val, Settled(tree, c.syms, c.strictlogic),
                r.lt, r.val, Settled(right, c.syms, c.strictlogic));
  }

  lemma {:induction false} RestTold(c: Context, level: nat, tree: Tree, left: Result, local: int, constexpr: bool)
    requires level < UNARY && left.Result? && left.pos <= |c.toks|
    requires ToldOf(left, tree, left.pos, c, constexpr) && !HasText(tree, c.syms)
    ensures Told(EvalRest(c, level, left, local), ParseRest(c.toks, c.syms, level, tree, left.pos), c, constexpr)
    decreases |c.toks| - left.pos, 0
  {
    if OperatorAt(c.toks, level, left.pos) {
      InnerTold(c, level + 1, left.pos + 1, local, left.constexpr);
      var r, p := EvalInner(c, level + 1, left.pos + 1, local, left.constexpr), ParseInner(c.toks, c.syms, level + 1, left.pos + 1);
      if r.Result? {
        OperatorTold(c, tree, left, p.value.0, r, constexpr);
        RestTold(c, level, Bin(c.toks[left.pos].op, tree, p.value.0), After(c, left, r), r.val, constexpr);
      } else if p.Some? {
        TextStays(c.toks, c.syms, level, Bin(c.toks[left.pos].op, tree, p.value.0), p.value.1);
      }
    }
  }

  /** The answer for a line as a function of its tree. */
  function AnswerFor(toks: seq<Token>, syms: Symbols, strictlogic: bool, killconsts: bool): Truth {
    var t := ParseLine(toks, syms);
    if t.None? || HasText(t.value, syms) || (!killconsts && !HasSymbol(t.value)) then If
    else
      var v := Settled(t.value, syms, strictlogic);
      if v.None? then If else TruthOf(v.value)
  }

  /** The evaluator answers if and only if the tokens parse, no text stands for a number, the line
      is no constant to be kept, and its value is settled; and then it answers with that value.
      Neither stale values nor uninitialised variables have a say. */
  lemma IfEvalExactly(c: Context, killconsts: bool)
    ensures IfEval(c, killconsts) == AnswerFor(c.toks, c.syms, c.strictlogic, killconsts)
  {
    TableTold(c, 0, 0, 0, !killconsts);
  }

  /** The evaluator is sound: when it answers, the line is one expression, grouped as in C, and
      with its numbers as they are stored it is nonzero or zero for every value of the unknown
      symbols; if its numbers fit an int, that is its value in C. */
  lemma IfEvalSound(c: Context, killconsts: bool)
    requires IfEval(c, killconsts) != If
    ensures ParseLine(c.toks, c.syms).Some?
    ensures
      var t := ParseLine(c.toks, c.syms).value;
      Yield(t) == c.toks && Grouped(t) &&
      (forall env :: Meaning(t, c.syms, env, true) != 0 <==> IfEval(c, killconsts) == True) &&
      (TokensFit(c.toks) && SymbolsFit(c.syms) ==>
         forall env :: Meaning(t, c.syms, env, false) != 0 <==> IfEval(c, killconsts) == True)
  {
    IfEvalExactly(c, killconsts);
    TableSpelled(c.toks, c.syms, 0, 0);
    assert c.toks[0..|c.toks|] == c.toks;
    var t := ParseLine(c.toks, c.syms).value;
    SettledSound(t, c.syms, c.strictlogic);
    if TokensFit(c.toks) && SymbolsFit(c.syms) {
      forall env ensures Meaning(t, c.syms, env, false) == Meaning(t, c.syms, env, true) {
        StoredMeaning(t, c.syms, env);
      }
    }
  }

  // ----- Numbers that do not fit -----

  const INT_MAX: int := 0x7fff_ffff
  const LONG_MAX: int := 0x7fff_ffff_ffff_ffff

  /** A number alone is judged rightly exactly when it is zero, or is not a multiple of 2^32 and
      not below the range of long, or lies beyond that range. */
  lemma NumberJudged(n: int)
    ensures TruthOf(StoredInt(n)) == TruthOf(n) <==>
            n == 0 || n > LONG_MAX || (n >= -LONG_MAX - 1 && n % 0x1_0000_0000 != 0)
  {
    if -LONG_MAX - 1 <= n <= LONG_MAX {
      var m := n + 0x8000_0000;
      assert StoredInt(n) == 0 <==> m % 0x1_0000_0000 == 0x8000_0000;
      MultipleShifted(n);
    }
  }

  lemma MultipleShifted(n: int)
    ensures (n + 0x8000_0000) % 0x1_0000_0000 == 0x8000_0000 <==> n % 0x1_0000_0000 == 0
  {
  }

  lemma StoredIsInt(n: int)
    ensures -INT_MAX - 1 <= StoredInt(n) <= INT_MAX
    ensures StoredInt(n) == n <==> -INT_MAX - 1 <= n <= INT_MAX
  {
  }

  /** Every number of the line and the symbols fits an int or is n. */
  predicate FitsButFor(c: Context, n: int) {
    (forall i :: 0 <= i < |c.toks| && c.toks[i].Number? ==> StoredInt(c.toks[i].n) == c.toks[i].n || c.toks[i].n == n) &&
    (forall s :: s in c.syms && c.syms[s].DefinedAs? && c.syms[s].n.Some? ==>
       StoredInt(c.syms[s].n.value) == c.syms[s].n.value || c.syms[s].n.value == n)
  }

  /** The answer for the line is its value in C. */
  ghost predicate Judged(c: Context, killconsts: bool) {
    IfEval(c, killconsts) != If ==>
      ParseLine(c.toks, c.syms).Some? &&
      forall env :: Meaning(ParseLine(c.toks, c.syms).value, c.syms, env, false) != 0 <==> IfEval(c, killconsts) == True
  }

  /** A number can do no harm in any line whose other numbers fit. */
  ghost predicate Harmless(n: int) {
    forall c, killconsts :: FitsButFor(c, n) ==> Judged(c, killconsts)
  }

  /** The line A == n, with A defined as what is stored of n. */
  function Comparison(n: int, strictlogic: bool, junk: (nat, nat) -> int): Context {
    Context([Ident("A"), Binary(EqEq), Number(n)], map["A" := DefinedAs(Some(StoredInt(n)))], strictlogic, junk)
  }

  lemma ComparisonTree(toks: seq<Token>, syms: Symbols, n: int)
    requires toks == [Ident("A"), Binary(EqEq), Number(n)] && "A" in syms && syms["A"] != Undefined
    ensures ParseLine(toks, syms) == Some(Bin(EqEq, Sym("A", []), Num(n)))
  {
    var a, b := Sym("A", []), Num(n);
    assert SymbolEnd(toks, syms, 0) == 1 && toks[1..1] == [];
    assert ParseInner(toks, syms, UNARY, 0) == Some((a, 1)) && ParseInner(toks, syms, UNARY, 2) == Some((b, 3));
    assert ParseTable(toks, syms, 3, 0) == ParseRest(toks, syms, 3, a, 1) == Some((a, 1));
    assert ParseTable(toks, syms, 3, 2) == ParseRest(toks, syms, 3, b, 3) == Some((b, 3));
    assert ParseInner(toks, syms, 3, 0) == Some((a, 1)) && ParseInner(toks, syms, 3, 2) == Some((b, 3));
    assert ParseTable(toks, syms, 2, 0) == ParseRest(toks, syms, 2, a, 1) == ParseRest(toks, syms, 2, Bin(EqEq, a, b), 3);
    assert ParseInner(toks, syms, 2, 0) == Some((Bin(EqEq, a, b), 3));
    assert ParseTable(toks, syms, 1, 0) == ParseRest(toks, syms, 1, Bin(EqEq, a, b), 3) == Some((Bin(EqEq, a, b), 3));
    assert ParseInner(toks, syms, 1, 0) == Some((Bin(EqEq, a, b), 3));
    assert ParseTable(toks, syms, 0, 0) == ParseRest(toks, syms, 0, Bin(EqEq, a, b), 3) == Some((Bin(EqEq, a, b), 3));
  }

  /** A number that does not fit is misjudged: A == n is said to be true, and is false. */
  lemma NumberMisjudged(n: int, strictlogic: bool, junk: (nat, nat) -> int, killconsts: bool)
    requires StoredInt(n) != n
    ensures
      var c := Comparison(n, strictlogic, junk);
      FitsButFor(c, n) && IfEval(c, killconsts) == True && ParseLine(c.toks, c.syms).Some? &&
      forall env :: Meaning(ParseLine(c.toks, c.syms).value, c.syms, env, false) == 0
  {
    var c := Comparison(n, strictlogic, junk);
    ComparisonTree(c.toks, c.syms, n);
    IfEvalExactly(c, killconsts);
    StoredIsInt(n);
    StoredIsInt(StoredInt(n));
    var t := Bin(EqEq, Sym("A", []), Num(n));
    var m := StoredInt(n);
    assert Settled(Sym("A", []), c.syms, strictlogic) == Some(m) && Settled(Num(n), c.syms, strictlogic) == Some(m);
    assert SettledBy(EqEq, strictlogic, Some(m), Some(m)) == Some(1);
    assert Settled(t, c.syms, strictlogic) == Some(1) && HasSymbol(Sym("A", [])) && HasSymbol(t) && !HasText(t, c.syms);
  }

  /** A number can do no harm if and only if it fits an int. */
  lemma HarmlessExactly(n: int)
    ensures Harmless(n) <==> -INT_MAX - 1 <= n <= INT_MAX
  {
    StoredIsInt(n);
    if StoredInt(n) == n {
      forall c, killconsts | FitsButFor(c, n) ensures Judged(c, killconsts) {
        if IfEval(c, killconsts) != If { IfEvalSound(c, killconsts); }
      }
    } else {
      var c := Comparison(n, false, (level, pos) => 0);
      NumberMisjudged(n, false, c.junk, true);
      var env := Env((name, args) => 0, operand => false);
      assert Meaning(ParseLine(c.toks, c.syms).value, c.syms, env, false) == 0;
      assert !Judged(c, true);
    }
  }

  // ----- The evaluator as it is written -----

  /** The flag for constant expressions is shared; values and cursors are passed around. */
  class Evaluator {
    const c: Context
    var constexpr: bool

    constructor (context: Context)
      ensures c == context
    {
      c := context;
      constexpr := true;
    }

    ghost predicate Delivers(r: Result, lt: Option<Truth>, val: int, pos: nat)
      reads this
    {
      if r.Error? then lt == None else lt == Some(r.lt) && val == r.val && pos == r.pos && constexpr == r.constexpr
    }

    method Unary(start: nat, valIn: int) returns (lt: Option<Truth>, val: int, pos: nat)
      requires start <= |c.toks|
      modifies this`constexpr
      ensures Delivers(EvalUnary(c, start, valIn, old(constexpr)), lt, val, pos)
      decreases |c.toks| - start, 0
    {
      lt, val, pos := None, valIn, start;
      if start == |c.toks| { return; }
      match c.toks[start]
      case Bang =>
        lt, val, pos := Unary(start + 1, valIn);
        if lt != None && lt != Some(If) {
          val := Bool(val == 0);
          lt := Some(TruthOf(val));
        }
      case LParen =>
        lt, val, pos := Table(0, start + 1, valIn);
        if lt != None {
          if pos < |c.toks| && c.toks[pos] == RParen { pos := pos + 1; } else { lt := None; }
        }
      case Number(n) =>
        val := StoredInt(n);
        lt, pos := Some(TruthOf(val)), start + 1;
      case Defined =>
        var r := EvalDefined(c, start, valIn);
        if r.Result? { lt, val, pos, constexpr := Some(r.lt), r.val, r.pos, false; }
      case Ident(_) =>
        var r := EvalSymbol(c, start, valIn);
        if r.Result? { lt, val, pos, constexpr := Some(r.lt), r.val, r.pos, false; }
      case _ =>
    }

    method Inner(level: nat, start: nat, valIn: int) returns (lt: Option<Truth>, val: int, pos: nat)
      requires start <= |c.toks| && level <= UNARY
      modifies this`constexpr
      ensures Delivers(EvalInner(c, level, start, valIn, old(constexpr)), lt, val, pos)
      decreases |c.toks| - start, 1 + 2 * (UNARY - level)
    {
      if level == UNARY {
        lt, val, pos := Unary(start, valIn);
      } else {
        lt, val, pos := Table(level, start, valIn);
      }
    }

    method Table(level: nat, start: nat, valIn: int) returns (lt: Option<Truth>, val: int, pos: nat)
      requires start <= |c.toks| && level < UNARY
      modifies this`constexpr
      ensures Delivers(EvalTable(c, level, start, valIn, old(constexpr)), lt, val, pos)
      decreases |c.toks| - start, 2 * (UNARY - level)
    {
      lt, val, pos := Inner(level + 1, start, valIn);
      if lt == None { return; }
      var local := c.junk(level, start);
      while OperatorAt(c.toks, level, pos)
        invariant lt.Some? && start < pos <= |c.toks|
        invariant EvalTable(c, level, start, valIn, old(constexpr)) ==
                  EvalRest(c, level, Result(lt.value, val, pos, constexpr), local)
        decreases |c.toks| - pos
      {
        var op := c.toks[pos].op;
        var rt;
        rt, local, pos := Inner(level + 1, pos + 1, local);
        if rt == None {
          lt := None;
          return;
        }
        var (t, v) := Operate(op, c.strictlogic, lt.value, val, rt.value, local);
        lt, val := Some(t), v;
      }
    }

    /** The answer for a whole line; the caller looks whether every token was used. */
    method IfEvalLine(killconsts: bool) returns (lt: Truth, pos: nat)
      modifies this`constexpr
      ensures IfEval(c, killconsts) == if pos == |c.toks| then lt else If
    {
      constexpr := !killconsts;
      var ret, val;
      ret, val, pos := Table(0, 0, 0);
      lt := if constexpr || ret == None then If else ret.value;
    }
  }
}
