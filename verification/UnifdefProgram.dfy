/** Unifdef from the directives of a file to the lines it writes: the evaluator decides what is
    known, the state machine acts on it. */
module UnifdefProgram {
  import opened UnifdefEval
  import M = UnifdefMachine
  import opened Wrappers

  /** A line as it stands in the file. */
  datatype Source =
    | IfLine(toks: seq<Token>)
    | ElifLine(toks: seq<Token>)
    | IfdefLine(negated: bool, toks: seq<Token>)
    | ElseLine
    | EndifLine
    | PlainLine(id: nat)

  /** A dodgy directive has a comment that goes across its line. */
  datatype SourceLine = SourceLine(source: Source, dodgy: bool)

  /** The symbols from the command line, and those whose groups are to be left alone. */
  datatype Options = Options(syms: Symbols, ignored: set<string>, strictlogic: bool, killconsts: bool, iocccok: bool)

  // ----- What the line parser finds out -----

  function Answer(lt: Truth): M.Truth {
    match lt
    case If => M.Unknown
    case True => M.KnownTrue
    case False => M.KnownFalse
  }

  function LineContext(toks: seq<Token>, o: Options, junk: (nat, nat) -> int): Context {
    Context(toks, o.syms, o.strictlogic, junk)
  }

  /** #ifdef or #ifndef of one name on the command line and nothing more. */
  predicate NamesKnown(toks: seq<Token>, o: Options) {
    |toks| == 1 && toks[0].Ident? && toks[0].name in o.syms
  }

  function Classified(l: SourceLine, i: nat, o: Options): M.Line {
    match l.source
    case IfLine(toks) => M.Line(M.IfLine(i), Answer(AnswerFor(toks, o.syms, o.strictlogic, o.killconsts)), false, l.dodgy)
    case ElifLine(toks) => M.Line(M.ElifLine(i), Answer(AnswerFor(toks, o.syms, o.strictlogic, o.killconsts)), false, l.dodgy)
    case IfdefLine(negated, toks) =>
      if !NamesKnown(toks, o) then M.Line(M.IfLine(i), M.Unknown, false, l.dodgy)
      else
        var holds := (o.syms[toks[0].name] != Undefined) != negated;
        M.Line(M.IfLine(i), if holds then M.KnownTrue else M.KnownFalse, toks[0].name in o.ignored, l.dodgy)
    case ElseLine => M.Line(M.ElseLine, M.Unknown, false, l.dodgy)
    case EndifLine => M.Line(M.EndifLine, M.Unknown, false, l.dodgy)
    case PlainLine(id) => M.Line(M.PlainLine(id), M.Unknown, false, l.dodgy)
  }

  /** Every line; its condition is known by the number of the line. */
  function AllClassified(lines: seq<SourceLine>, o: Options): (r: seq<M.Line>)
    ensures |r| == |lines| && forall i :: 0 <= i < |lines| ==> r[i] == Classified(lines[i], i, o)
  {
    seq(|lines|, i requires 0 <= i < |lines| => Classified(lines[i], i, o))
  }

  // ----- What the lines mean -----

  function DefinedIn(name: string, o: Options, env: Env): bool {
    if name in o.syms then o.syms[name] != Undefined else env.isDefined(Some(Ident(name)))
  }

  /** The truth of a condition in an environment, where its meaning is settled. */
  predicate TrueTo(l: SourceLine, o: Options, env: Env, stored: bool, truth: bool) {
    match l.source
    case IfLine(toks) => TrueToTokens(toks, o, env, stored, truth)
    case ElifLine(toks) => TrueToTokens(toks, o, env, stored, truth)
    case IfdefLine(negated, toks) => |toks| == 1 && toks[0].Ident? ==> truth == (DefinedIn(toks[0].name, o, env) != negated)
    case _ => true
  }

  predicate TrueToTokens(toks: seq<Token>, o: Options, env: Env, stored: bool, truth: bool) {
    var t := ParseLine(toks, o.syms);
    t.Some? ==> truth == (Meaning(t.value, o.syms, env, stored) != 0)
  }

  /** A truth assignment to the conditions that fits an environment for the unknown symbols;
      numbers are taken as they are stored, or as C has them. */
  ghost predicate Interprets(lines: seq<SourceLine>, o: Options, env: Env, stored: bool, truth: nat -> bool) {
    forall i :: 0 <= i < |lines| ==> TrueTo(lines[i], o, env, stored, truth(i))
  }

  predicate NumbersFit(lines: seq<SourceLine>, o: Options) {
    SymbolsFit(o.syms) &&
    forall i :: 0 <= i < |lines| && (lines[i].source.IfLine? || lines[i].source.ElifLine?) ==> TokensFit(lines[i].source.toks)
  }

  // ----- Preservation -----

  lemma TokensAgree(toks: seq<Token>, o: Options, env: Env, stored: bool, truth: bool)
    requires TrueToTokens(toks, o, env, stored, truth)
    requires stored || (TokensFit(toks) && SymbolsFit(o.syms))
    ensures
      var a := Answer(AnswerFor(toks, o.syms, o.strictlogic, o.killconsts));
      (a == M.KnownTrue ==> truth) && (a == M.KnownFalse ==> !truth)
  {
    var c := LineContext(toks, o, (level, pos) => 0);
    IfEvalExactly(c, o.killconsts);
    if IfEval(c, o.killconsts) != If { IfEvalSound(c, o.killconsts); }
  }

  /** What is known of a line is true in every environment. */
  lemma ClassifiedAgrees(lines: seq<SourceLine>, i: nat, o: Options, env: Env, stored: bool, truth: nat -> bool)
    requires Interprets(lines, o, env, stored, truth) && i < |lines| && (stored || NumbersFit(lines, o))
    ensures M.Agrees(Classified(lines[i], i, o), truth)
  {
    match lines[i].source
    case IfLine(toks) => TokensAgree(toks, o, env, stored, truth(i));
    case ElifLine(toks) => TokensAgree(toks, o, env, stored, truth(i));
    case _ =>
  }

  /** The same plain lines are kept of both texts, and neither leaves a group open. */
  ghost predicate SameSelection(before: seq<M.Text>, after: seq<M.Text>, truth: nat -> bool) {
    var b, a := M.Select(before, truth), M.Select(after, truth);
    b.Some? && a.Some? && b.value.frames == a.value.frames == M.NoGroup && b.value.kept == a.value.kept
  }

  /** Unifdef preserves meaning from end to end: whatever the unknown symbols are, conditional
      inclusion keeps the same lines of the file read and of the file written. */
  lemma OutputMeansInput(lines: seq<SourceLine>, o: Options, env: Env, stored: bool, truth: nat -> bool)
    requires M.Process(AllClassified(lines, o), o.iocccok).Ok?
    requires Interprets(lines, o, env, stored, truth) && (stored || NumbersFit(lines, o))
    ensures SameSelection(M.Texts(AllClassified(lines, o)), M.Process(AllClassified(lines, o), o.iocccok).m.output, truth)
  {
    var ls := AllClassified(lines, o);
    forall i | 0 <= i < |ls| ensures M.Agrees(ls[i], truth) {
      ClassifiedAgrees(lines, i, o, env, stored, truth);
    }
    M.ProcessPreservesMeaning(ls, o.iocccok, truth);
  }

  // ----- What is known is resolved -----

  /** What the command line alone decides: an #ifdef or #ifndef of one of its names and nothing
      more, or a condition that is an expression whose value is settled, that does not use a text
      as a number, and that is not a constant to be kept. */
  predicate Resolved(l: SourceLine, o: Options) {
    match l.source
    case IfdefLine(_, toks) => |toks| == 1 && toks[0].Ident? && toks[0].name in o.syms
    case IfLine(toks) => ResolvedTokens(toks, o)
    case ElifLine(toks) => ResolvedTokens(toks, o)
    case _ => false
  }

  predicate ResolvedTokens(toks: seq<Token>, o: Options) {
    var t := ParseLine(toks, o.syms);
    t.Some? && Settled(t.value, o.syms, o.strictlogic).Some? && !HasText(t.value, o.syms) &&
    (o.killconsts || HasSymbol(t.value))
  }

  predicate Conditional(l: SourceLine) {
    l.source.IfLine? || l.source.ElifLine? || l.source.IfdefLine?
  }

  /** Exactly these conditions are known. */
  lemma KnownExactly(l: SourceLine, i: nat, o: Options)
    requires Conditional(l)
    ensures Classified(l, i, o).truth != M.Unknown <==> Resolved(l, o)
  {
  }

  /** No condition that is decided is written out, be it as #if or as #elif; with the option for
      obfuscated lines it may be, if its line is one. */
  ghost predicate AllResolved(lines: seq<SourceLine>, o: Options, output: seq<M.Text>) {
    forall i :: 0 <= i < |lines| && Resolved(lines[i], o) && !(o.iocccok && lines[i].dodgy) ==>
      M.IfLine(i) !in output && M.ElifLine(i) !in output
  }

  /** A condition that is decided is not among the unknown ones. */
  lemma ResolvedIsKnown(lines: seq<SourceLine>, o: Options, i: nat)
    requires i < |lines| && Resolved(lines[i], o) && !(o.iocccok && lines[i].dodgy)
    ensures i !in M.UnknownConditions(AllClassified(lines, o), o.iocccok)
  {
    var ls := AllClassified(lines, o);
    KnownExactly(lines[i], i, o);
    forall j | 0 <= j < |ls| ensures !M.LeavesCondition(ls[j], o.iocccok, i) {
      OwnCondition(lines[j], j, o);
    }
  }

  lemma OwnCondition(l: SourceLine, j: nat, o: Options)
    ensures M.HasCondition(Classified(l, j, o).text) ==> Classified(l, j, o).text.cond == j
    ensures Classified(l, j, o).dodgy == l.dodgy
  {
  }

  lemma KnownIsResolved(lines: seq<SourceLine>, o: Options)
    requires M.Process(AllClassified(lines, o), o.iocccok).Ok?
    ensures AllResolved(lines, o, M.Process(AllClassified(lines, o), o.iocccok).m.output)
  {
    var ls := AllClassified(lines, o);
    M.StepsLeaveUnknown(ls, o.iocccok);
    forall i | 0 <= i < |lines| && Resolved(lines[i], o) && !(o.iocccok && lines[i].dodgy)
      ensures i !in M.UnknownConditions(ls, o.iocccok)
    {
      ResolvedIsKnown(lines, o, i);
    }
  }

  // ----- The program -----

  method EvalLine(toks: seq<Token>, o: Options, junk: (nat, nat) -> int) returns (truth: M.Truth)
    ensures truth == Answer(AnswerFor(toks, o.syms, o.strictlogic, o.killconsts))
  {
    var c := LineContext(toks, o, junk);
    IfEvalExactly(c, o.killconsts);
    var e := new Evaluator(c);
    var lt, pos := e.IfEvalLine(o.killconsts);
    truth := Answer(if pos == |toks| then lt else If);
  }

  /** One line; junk is what the evaluator's uninitialised variables happen to hold. */
  method ParseSourceLine(l: SourceLine, i: nat, o: Options, junk: (nat, nat) -> int) returns (line: M.Line)
    ensures line == Classified(l, i, o)
  {
    match l.source {
      case IfLine(toks) =>
        var truth := EvalLine(toks, o, junk);
        line := M.Line(M.IfLine(i), truth, false, l.dodgy);
      case ElifLine(toks) =>
        var truth := EvalLine(toks, o, junk);
        line := M.Line(M.ElifLine(i), truth, false, l.dodgy);
      case IfdefLine(negated, toks) =>
        var truth, ignore := M.Unknown, false;
        if |toks| > 0 && toks[0].Ident? && toks[0].name in o.syms {
          var name := toks[0].name;
          truth := if negated then M.KnownFalse else M.KnownTrue;
          if o.syms[name] == Undefined { truth := if truth == M.KnownTrue then M.KnownFalse else M.KnownTrue; }
          ignore := name in o.ignored;
          if |toks| > 1 { truth, ignore := M.Unknown, false; }
        }
        line := M.Line(M.IfLine(i), truth, ignore, l.dodgy);
      case ElseLine => line := M.Line(M.ElseLine, M.Unknown, false, l.dodgy);
      case EndifLine => line := M.Line(M.EndifLine, M.Unknown, false, l.dodgy);
      case PlainLine(id) => line := M.Line(M.PlainLine(id), M.Unknown, false, l.dodgy);
    }
  }

  /** The whole run: what it writes means what it read, in every environment, and nothing that is
      decided is left in it. */
  method Run(lines: seq<SourceLine>, o: Options, junk: (nat, nat) -> int) returns (failure: Option<M.Failure>, output: seq<M.Text>)
    ensures failure == None <==> M.Process(AllClassified(lines, o), o.iocccok).Ok?
    ensures failure == None ==>
              forall env, stored, truth :: Interprets(lines, o, env, stored, truth) && (stored || NumbersFit(lines, o)) ==>
                SameSelection(M.Texts(AllClassified(lines, o)), output, truth)
    ensures failure == None ==> AllResolved(lines, o, output)
  {
    var parsed: seq<M.Line> := [];
    for i := 0 to |lines|
      invariant |parsed| == i && forall j :: 0 <= j < i ==> parsed[j] == Classified(lines[j], j, o)
    {
      var line := ParseSourceLine(lines[i], i, o, junk);
      parsed := parsed + [line];
    }
    assert parsed == AllClassified(lines, o);
    var u := new M.Unifdef(o.iocccok);
    failure := u.ProcessFile(parsed);
    output := u.output;
    if failure == None {
      KnownIsResolved(lines, o);
      forall env, stored, truth | Interprets(lines, o, env, stored, truth) && (stored || NumbersFit(lines, o))
        ensures SameSelection(M.Texts(AllClassified(lines, o)), output, truth)
      {
        OutputMeansInput(lines, o, env, stored, truth);
      }
    }
  }
}
