/** Expressions of the configuration language: their shape, and the three-valued
    meaning that every rewriting in the other Kconfig modules is measured against. */
module KconfigExpr {
  import opened Wrappers

  datatype SymbolType = UnknownType | Boolean | Tristate | IntType | HexType | StringType

  /** A symbol stands for its address.  Yes, Mod and No are the three predefined constants;
      every other symbol is told apart by its name, type and the constant flag. */
  datatype Symbol = Yes | Mod | No | Sym(name: string, typ: SymbolType, isConst: bool)
  {
    function Type(): SymbolType {
      if Sym? then typ else UnknownType
    }

    predicate Const() {
      Sym? ==> isConst
    }
  }

  // n < m < y
  type Tri = x: int | 0 <= x <= 2

  datatype Op = OrOp | AndOp

  datatype Relation = Equal | Unequal | Less | LessEq | Greater | GreaterEq

  datatype Expr =
    | Ref(sym: Symbol)
    | Not(arg: Expr)
    | Binary(op: Op, left: Expr, right: Expr)
    | Compare(rel: Relation, lhs: Symbol, rhs: Symbol)

  function Size(e: Expr): (n: nat)
    ensures n >= 1
  {
    match e
    case Ref(_) => 1
    case Compare(_, _, _) => 1
    case Not(a) => 1 + Size(a)
    case Binary(_, l, r) => 1 + Size(l) + Size(r)
  }

  predicate IsOp(e: Expr, op: Op) {
    e.Binary? && e.op == op
  }

  function Neutral(op: Op): Expr {
    if op == OrOp then Ref(No) else Ref(Yes)
  }

  // ----- Values -----

  /** What symbol evaluation would deliver: the tristate of each menu symbol, the text of
      each int, hex or string symbol, and the reading of a text as a number in base 0, 10
      or 16 (None when it is not entirely a number). */
  datatype Valuation = Valuation(
    tri: Symbol -> Tri,
    text: Symbol -> string,
    number: (string, nat) -> Option<int>)

  function OpValue(op: Op, a: Tri, b: Tri): Tri {
    if op == OrOp then (if a > b then a else b) else (if a < b then a else b)
  }

  /** A boolean symbol never settles on m, and a symbol that is neither boolean nor
      tristate has the tristate n. */
  function TriValue(v: Valuation, s: Symbol): Tri {
    match s
    case Yes => 2
    case Mod => 1
    case No => 0
    case Sym(_, Boolean, _) => if v.tri(s) == 0 then 0 else 2
    case Sym(_, Tristate, _) => v.tri(s)
    case _ => 0
  }

  function TriName(t: Tri): string {
    if t == 0 then "n" else if t == 1 then "m" else "y"
  }

  function StringValue(v: Valuation, s: Symbol): string {
    match s
    case Yes => "y"
    case Mod => "m"
    case No => "n"
    case Sym(_, Boolean, _) => TriName(TriValue(v, s))
    case Sym(_, Tristate, _) => TriName(TriValue(v, s))
    case Sym(name, UnknownType, _) => name
    case _ => v.text(s)
  }

  datatype Parsed = KString | KSigned(n: int) | KUnsigned(n: int)

  function ParseNumber(v: Valuation, str: string, base: nat): Option<int> {
    if str in {"y", "m", "n"} then None else v.number(str, base)
  }

  function ParseString(v: Valuation, str: string, typ: SymbolType): Parsed {
    match typ
    case Boolean => KSigned(if str == "n" then 0 else if str == "m" then 1 else if str == "y" then 2 else -1)
    case Tristate => KSigned(if str == "n" then 0 else if str == "m" then 1 else if str == "y" then 2 else -1)
    case IntType => var n := ParseNumber(v, str, 10); if n.Some? then KSigned(n.value) else KString
    case HexType => var n := ParseNumber(v, str, 16); if n.Some? then KUnsigned(n.value) else KString
    case _ => var n := ParseNumber(v, str, 0); if n.Some? then KSigned(n.value) else KString
  }

  function Sign(a: int, b: int): int {
    if a < b then -1 else if a > b then 1 else 0
  }

  function StrCmp(a: string, b: string): (r: int)
    ensures r == 0 <==> a == b
  {
    if a == [] && b == [] then 0
    else if a == [] then -1
    else if b == [] then 1
    else if a[0] != b[0] then (if a[0] < b[0] then -1 else 1)
    else
      assert a == [a[0]] + a[1..] && b == [b[0]] + b[1..];
      StrCmp(a[1..], b[1..])
  }

  /** A signed reading put beside an unsigned one is compared as 64 unsigned bits. */
  function CompareSymbols(v: Valuation, a: Symbol, b: Symbol): int {
    var s, t := StringValue(v, a), StringValue(v, b);
    if a.Type() == StringType && b.Type() == StringType then StrCmp(s, t)
    else
      var x, y := ParseString(v, s, a.Type()), ParseString(v, t, b.Type());
      if x.KString? || y.KString? then StrCmp(s, t)
      else if x.KUnsigned? || y.KUnsigned? then
        Sign(x.n % 0x1_0000_0000_0000_0000, y.n % 0x1_0000_0000_0000_0000)
      else Sign(x.n, y.n)
  }

  predicate Holds(rel: Relation, c: int) {
    match rel
    case Equal => c == 0
    case Unequal => c != 0
    case Less => c < 0
    case LessEq => c <= 0
    case Greater => c > 0
    case GreaterEq => c >= 0
  }

  function Calc(e: Expr, v: Valuation): Tri {
    match e
    case Ref(s) => TriValue(v, s)
    case Not(a) => 2 - Calc(a, v)
    case Binary(op, l, r) => OpValue(op, Calc(l, v), Calc(r, v))
    case Compare(rel, a, b) => if Holds(rel, CompareSymbols(v, a, b)) then 2 else 0
  }

  /** An absent expression is y. */
  function CalcOpt(e: Option<Expr>, v: Valuation): Tri {
    if e.None? then 2 else Calc(e.value, v)
  }

  predicate TriTyped(s: Symbol) {
    s.Type() == Boolean || s.Type() == Tristate
  }

  predicate IsTriConstant(s: Symbol) {
    !s.Sym?
  }

  /** Comparing a boolean or tristate symbol with y, m or n compares their tristates. */
  lemma CompareWithTriConstant(v: Valuation, s: Symbol, c: Symbol)
    requires TriTyped(s) && IsTriConstant(c)
    ensures CompareSymbols(v, s, c) == 0 <==> TriValue(v, s) == TriValue(v, c)
  {
    var str := StringValue(v, c);
    assert ParseNumber(v, str, 0) == None;
    var t := TriValue(v, s);
    assert TriName(t)[0] == (if t == 0 then 'n' else if t == 1 then 'm' else 'y');
    assert str[0] == (if c == No then 'n' else if c == Mod then 'm' else 'y');
  }

  // ----- Constants that a tristate symbol cannot be confused about -----

  /** y, m, n, or a constant whose text is neither of these nor a number: a number such as
      "2" would be read as a tristate when a tristate symbol is compared with it. */
  predicate PlainConstant(v: Valuation, c: Symbol) {
    IsTriConstant(c) ||
    (c.typ == UnknownType && c.name !in {"y", "m", "n"} && v.number(c.name, 0) == None)
  }

  predicate PlainConstants(v: Valuation, e: Expr) {
    match e
    case Ref(_) => true
    case Not(a) => PlainConstants(v, a)
    case Binary(_, l, r) => PlainConstants(v, l) && PlainConstants(v, r)
    case Compare(_, a, b) => a.Type() == Tristate && b.Const() ==> PlainConstant(v, b)
  }

  lemma PlainConstantNeverEqual(v: Valuation, s: Symbol, c: Symbol)
    requires s.Type() == Tristate && PlainConstant(v, c) && !IsTriConstant(c)
    ensures CompareSymbols(v, s, c) != 0
  {
    assert TriName(TriValue(v, s)) in {"y", "m", "n"};
  }

  /** Negation only in front of a symbol other than y, m and n. */
  predicate Nnf(e: Expr) {
    match e
    case Ref(_) => true
    case Compare(_, _, _) => true
    case Not(a) => a.Ref? && !IsTriConstant(a.sym)
    case Binary(_, l, r) => Nnf(l) && Nnf(r)
  }
}
