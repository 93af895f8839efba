/** The state machine that removes known #if groups, and the proof that what it writes means
    what it read: conditional inclusion keeps the same plain lines in both. */
module UnifdefMachine {
  import opened Wrappers

  // ----- Lines -----

  /** A line of text: a directive with the number of its condition, or a plain line. */
  datatype Text =
    | IfLine(cond: nat)
    | ElifLine(cond: nat)
    | ElseLine
    | EndifLine
    | PlainLine(id: nat)

  datatype Truth = Unknown | KnownTrue | KnownFalse

  /** An input line with what the line parser found out about it.  A known #if may be marked
      to have its contents ignored; a dodgy directive is not on one line. */
  datatype Line = Line(text: Text, truth: Truth, ignore: bool, dodgy: bool)

  datatype Directive =
    | TrueI | FalseI | If | True | False | Elif | ElTrue | ElFalse | Else | Endif

  datatype LineType = Clean(d: Directive) | Dodgy(d: Directive) | Plain

  function DirectiveOf(l: Line): Directive
    requires !l.text.PlainLine?
  {
    match l.text
    case IfLine(_) =>
      (match l.truth
       case Unknown => If
       case KnownTrue => if l.ignore then TrueI else True
       case KnownFalse => if l.ignore then FalseI else False)
    case ElifLine(_) =>
      (match l.truth
       case Unknown => Elif
       case KnownTrue => ElTrue
       case KnownFalse => ElFalse)
    case ElseLine => Else
    case EndifLine => Endif
  }

  function LineTypeOf(l: Line): LineType {
    if l.text.PlainLine? then Plain
    else if l.dodgy then Dodgy(DirectiveOf(l))
    else Clean(DirectiveOf(l))
  }

  // ----- The transition table -----

  /** Where a level stands: in which part of its group it is, whether that part is kept, and
      whether any directive of the group has been written out. */
  datatype IfState =
    | Outside         // no group is open
    | FalsePrefix     // nothing kept or written yet, every condition so far was false
    | TruePrefix      // nothing written; the branch being read is the one to keep
    | PassMiddle      // written out from its start, in a branch whose condition is open
    | FalseMiddle     // written out, but in a branch that cannot be taken
    | TrueMiddle      // written out, in the branch that is taken if no earlier one is
    | PassElse        // written out, in the last branch, which stays as it is
    | FalseElse       // in the last branch of a group that was decided before it
    | TrueElse        // nothing written; the last branch is the one to keep
    | FalseTrailer    // decided; every further condition is passed over

  datatype Action =
    | Eelif | Eelse | Eendif | Eioccc | Print | Drop
    | Strue | Sfalse | Selse
    | Pelif | Pelse | Pendif
    | Dfalse | Delif | Delse | Dendif
    | Fdrop | Fpass | Ftrue | Ffalse
    | Oiffy | Oif | Oelif
    | Idrop | Itrue | Ifalse
    | Mpass | Mtrue | Melif | Melse

  /** One row of the table: the action for each directive, in the order of Directive. */
  datatype Row = Row(
    trueI: Action, falseI: Action, if_: Action, true_: Action, false_: Action,
    elif: Action, elTrue: Action, elFalse: Action, else_: Action, endif: Action)
  {
    function For(d: Directive): Action {
      match d
      case TrueI => trueI
      case FalseI => falseI
      case If => if_
      case True => true_
      case False => false_
      case Elif => elif
      case ElTrue => elTrue
      case ElFalse => elFalse
      case Else => else_
      case Endif => endif
    }
  }

  function CleanRow(s: IfState): Row {
    match s
    case Outside =>      Row(Itrue, Ifalse, Fpass, Ftrue, Ffalse, Eelif, Eelif, Eelif, Eelse, Eendif)
    case FalsePrefix =>  Row(Idrop, Idrop, Fdrop, Fdrop, Fdrop, Mpass, Strue, Sfalse, Selse, Dendif)
    case TruePrefix =>   Row(Itrue, Ifalse, Fpass, Ftrue, Ffalse, Dfalse, Dfalse, Dfalse, Delse, Dendif)
    case PassMiddle =>   Row(Itrue, Ifalse, Fpass, Ftrue, Ffalse, Pelif, Mtrue, Delif, Pelse, Pendif)
    case FalseMiddle =>  Row(Idrop, Idrop, Fdrop, Fdrop, Fdrop, Pelif, Mtrue, Delif, Pelse, Pendif)
    case TrueMiddle =>   Row(Itrue, Ifalse, Fpass, Ftrue, Ffalse, Melif, Melif, Melif, Melse, Pendif)
    case PassElse =>     Row(Itrue, Ifalse, Fpass, Ftrue, Ffalse, Eelif, Eelif, Eelif, Eelse, Pendif)
    case FalseElse =>    Row(Idrop, Idrop, Fdrop, Fdrop, Fdrop, Eelif, Eelif, Eelif, Eelse, Dendif)
    case TrueElse =>     Row(Itrue, Ifalse, Fpass, Ftrue, Ffalse, Eelif, Eelif, Eelif, Eelse, Dendif)
    case FalseTrailer => Row(Idrop, Idrop, Fdrop, Fdrop, Fdrop, Dfalse, Dfalse, Dfalse, Delse, Dendif)
  }

  function DodgyRow(s: IfState): Row {
    match s
    case Outside =>      Row(Oiffy, Oiffy, Fpass, Oif, Oif, Eelif, Eelif, Eelif, Eelse, Eendif)
    case FalsePrefix =>  Row(Idrop, Idrop, Fdrop, Fdrop, Fdrop, Mpass, Eioccc, Eioccc, Eioccc, Eioccc)
    case TruePrefix =>   Row(Oiffy, Oiffy, Fpass, Oif, Oif, Eioccc, Eioccc, Eioccc, Eioccc, Eioccc)
    case PassMiddle =>   Row(Oiffy, Oiffy, Fpass, Oif, Oif, Pelif, Oelif, Oelif, Pelse, Pendif)
    case FalseMiddle =>  Row(Idrop, Idrop, Fdrop, Fdrop, Fdrop, Eioccc, Eioccc, Eioccc, Eioccc, Eioccc)
    case TrueMiddle =>   Row(Oiffy, Oiffy, Fpass, Oif, Oif, Eioccc, Eioccc, Eioccc, Eioccc, Pendif)
    case PassElse =>     Row(Oiffy, Oiffy, Fpass, Oif, Oif, Eelif, Eelif, Eelif, Eelse, Pendif)
    case FalseElse =>    Row(Idrop, Idrop, Fdrop, Fdrop, Fdrop, Eelif, Eelif, Eelif, Eelse, Eioccc)
    case TrueElse =>     Row(Oiffy, Oiffy, Fpass, Oif, Oif, Eelif, Eelif, Eelif, Eelse, Eioccc)
    case FalseTrailer => Row(Idrop, Idrop, Fdrop, Fdrop, Fdrop, Dfalse, Dfalse, Dfalse, Delse, Eioccc)
  }

  /** States whose plain lines are written out. */
  predicate Printing(s: IfState) {
    s in {Outside, TruePrefix, PassMiddle, TrueMiddle, PassElse, TrueElse}
  }

  function Transition(s: IfState, t: LineType): Action {
    match t
    case Clean(d) => CleanRow(s).For(d)
    case Dodgy(d) => DodgyRow(s).For(d)
    case Plain => if Printing(s) then Print else Drop
  }

  // ----- The machine -----

  const MAXDEPTH: nat := 64

  datatype Failure =
    | InappropriateElif | InappropriateElse | InappropriateEndif
    | PrematureEof | Obfuscated | TooDeep

  /** The open levels, deepest first, each with its state and whether it ignores comments. */
  datatype Levels = Bottom | Level(state: IfState, ignoring: bool, below: Levels)

  function TopState(ls: Levels): IfState {
    if ls.Bottom? then Outside else ls.state
  }

  predicate TopIgnoring(ls: Levels) {
    ls.Level? && ls.ignoring
  }

  function Depth(ls: Levels): nat {
    if ls.Bottom? then 0 else 1 + Depth(ls.below)
  }

  datatype Machine = Machine(levels: Levels, output: seq<Text>)

  datatype Outcome = Ok(m: Machine) | Failed(why: Failure)

  const Start: Machine := Machine(Bottom, [])

  /** Outside is the state of no level. */
  predicate ValidLevels(ls: Levels) {
    ls.Level? ==> ls.state != Outside && ValidLevels(ls.below)
  }

  /** What an action does to the stack and the output. */
  datatype Effect =
    | Fail(why: Failure)
    | Stay(write: Option<Text>)
    | OpenLevel(state: IfState, ignore: bool, write: Option<Text>)
    | ChangeLevel(state: IfState, ignoreOff: bool, write: Option<Text>)
    | CloseLevel(write: Option<Text>)

  function EffectOf(a: Action, t: Text, iocccok: bool): Effect
    requires a == Mpass ==> t.ElifLine?
  {
    match a
    case Eelif => Fail(InappropriateElif)
    case Eelse => Fail(InappropriateElse)
    case Eendif => Fail(InappropriateEndif)
    case Eioccc => Fail(Obfuscated)
    case Print => Stay(Some(t))
    case Drop => Stay(None)
    case Strue => ChangeLevel(TruePrefix, true, None)
    case Sfalse => ChangeLevel(FalsePrefix, true, None)
    case Selse => ChangeLevel(TrueElse, false, None)
    case Pelif => ChangeLevel(PassMiddle, true, Some(t))
    case Pelse => ChangeLevel(PassElse, false, Some(t))
    case Pendif => CloseLevel(Some(t))
    case Dfalse => ChangeLevel(FalseTrailer, true, None)
    case Delif => ChangeLevel(FalseMiddle, true, None)
    case Delse => ChangeLevel(FalseElse, false, None)
    case Dendif => CloseLevel(None)
    case Fdrop => OpenLevel(FalseTrailer, false, None)
    case Fpass => OpenLevel(PassMiddle, false, Some(t))
    case Ftrue => OpenLevel(TruePrefix, false, None)
    case Ffalse => OpenLevel(FalsePrefix, false, None)
    case Oiffy => if iocccok then OpenLevel(PassMiddle, true, Some(t)) else Fail(Obfuscated)
    case Oif => if iocccok then OpenLevel(PassMiddle, false, Some(t)) else Fail(Obfuscated)
    case Oelif => if iocccok then ChangeLevel(PassMiddle, true, Some(t)) else Fail(Obfuscated)
    case Idrop => OpenLevel(FalseTrailer, true, None)
    case Itrue => OpenLevel(TruePrefix, true, None)
    case Ifalse => OpenLevel(FalsePrefix, true, None)
    case Mpass => ChangeLevel(PassMiddle, true, Some(IfLine(t.cond)))
    case Mtrue => ChangeLevel(TrueMiddle, false, Some(ElseLine))
    case Melif => ChangeLevel(FalseTrailer, false, Some(EndifLine))
    case Melse => ChangeLevel(FalseElse, false, Some(EndifLine))
  }

  /** The effect of a line on a level in state s. */
  function LineEffect(s: IfState, l: Line, iocccok: bool): Effect {
    EffectOf(Transition(s, LineTypeOf(l)), l.text, iocccok)
  }

  /** What the table says of an #if on a level that is written out. */
  function PrintingIf(l: Line): Action
    requires l.text.IfLine?
  {
    match l.truth
    case Unknown => Fpass
    case KnownTrue => if l.dodgy then (if l.ignore then Oiffy else Oif) else if l.ignore then Itrue else Ftrue
    case KnownFalse => if l.dodgy then (if l.ignore then Oiffy else Oif) else if l.ignore then Ifalse else Ffalse
  }

  lemma IfColumn(s: IfState, l: Line)
    requires l.text.IfLine?
    ensures if Printing(s) then Transition(s, LineTypeOf(l)) == PrintingIf(l)
            else Transition(s, LineTypeOf(l)) == if l.truth != Unknown && l.ignore then Idrop else Fdrop
  {
  }

  /** Only an #if opens a level, and only an open level is changed or closed. */
  predicate Fits(s: IfState, t: Text, e: Effect) {
    match e
    case Fail(_) => !t.PlainLine?
    case Stay(w) => t.PlainLine? && w == (if Printing(s) then Some(t) else None)
    case OpenLevel(s', _, _) => t.IfLine? && s' != Outside
    case ChangeLevel(s', _, _) => s != Outside && s' != Outside && (t.ElifLine? || t.ElseLine?)
    case CloseLevel(_) => s != Outside && t.EndifLine?
  }

  lemma ElifFits(s: IfState, l: Line, iocccok: bool)
    requires l.text.ElifLine?
    ensures Fits(s, l.text, LineEffect(s, l, iocccok))
  {
  }

  lemma ElseFits(s: IfState, l: Line, iocccok: bool)
    requires l.text.ElseLine? || l.text.EndifLine?
    ensures Fits(s, l.text, LineEffect(s, l, iocccok))
  {
  }

  lemma EffectFits(s: IfState, l: Line, iocccok: bool)
    ensures Fits(s, l.text, LineEffect(s, l, iocccok))
  {
    match l.text
    case IfLine(_) => IfColumn(s, l);
    case ElifLine(_) => ElifFits(s, l, iocccok);
    case ElseLine => ElseFits(s, l, iocccok);
    case EndifLine => ElseFits(s, l, iocccok);
    case _ =>
  }

  function Append(out: seq<Text>, w: Option<Text>): seq<Text> {
    if w.None? then out else out + [w.value]
  }

  /** The levels after an effect other than failing.  A new #if or #elif group ignores
      comments if the level around it does. */
  function ApplyLevels(ls: Levels, e: Effect): Levels
    requires !e.Fail? && (e.ChangeLevel? || e.CloseLevel? ==> ls.Level?)
  {
    match e
    case Stay(_) => ls
    case OpenLevel(s, ignore, _) => Level(s, ignore || TopIgnoring(ls), ls)
    case ChangeLevel(s, ignoreOff, _) =>
      Level(s, if ignoreOff then TopIgnoring(ls.below) else ls.ignoring, ls.below)
    case CloseLevel(_) => ls.below
  }

  function Apply(m: Machine, e: Effect): Outcome
    requires e.ChangeLevel? || e.CloseLevel? ==> m.levels.Level?
  {
    if e.Fail? then Failed(e.why)
    else if e.OpenLevel? && Depth(m.levels) == MAXDEPTH - 1 then Failed(TooDeep)
    else Ok(Machine(ApplyLevels(m.levels, e), Append(m.output, e.write)))
  }

  function Step(m: Machine, l: Line, iocccok: bool): (o: Outcome)
    requires ValidLevels(m.levels)
    ensures o.Ok? ==> ValidLevels(o.m.levels)
  {
    EffectFits(TopState(m.levels), l, iocccok);
    Apply(m, LineEffect(TopState(m.levels), l, iocccok))
  }

  function Steps(lines: seq<Line>, iocccok: bool): (o: Outcome)
    ensures o.Ok? ==> ValidLevels(o.m.levels)
  {
    if lines == [] then Ok(Start)
    else
      var o := Steps(lines[..|lines| - 1], iocccok);
      if o.Failed? then o else Step(o.m, lines[|lines| - 1], iocccok)
  }

  /** The end of the file is fine only outside every group. */
  function Process(lines: seq<Line>, iocccok: bool): Outcome {
    var o := Steps(lines, iocccok);
    if o.Failed? then o else if o.m.levels != Bottom then Failed(PrematureEof) else o
  }

  // ----- Conditional inclusion -----

  /** One open group: whether the text around it is kept, whether a group of it has been
      taken, whether the current group is kept, whether its #else has been seen. */
  datatype Frame = Frame(parent: bool, taken: bool, active: bool, sawElse: bool)

  /** The open groups, innermost first. */
  datatype Frames = NoGroup | Group(frame: Frame, outer: Frames)

  predicate Active(fs: Frames) {
    fs.Group? ==> fs.frame.active
  }

  function CppIf(parent: bool, value: bool): Frame {
    Frame(parent, value, parent && value, false)
  }

  function CppElif(f: Frame, value: bool): Frame {
    Frame(f.parent, f.taken || value, f.parent && !f.taken && value, false)
  }

  function CppElse(f: Frame): Frame {
    Frame(f.parent, true, f.parent && !f.taken, true)
  }

  function CppChange(f: Frame, t: Text, env: nat -> bool): Frame
    requires t.ElifLine? || t.ElseLine?
  {
    if t.ElifLine? then CppElif(f, env(t.cond)) else CppElse(f)
  }

  /** The open groups after one line, or None for a directive that does not belong there
      (ISO/IEC 9899:1999 section 6.10.1). */
  function CppStep(fs: Frames, t: Text, env: nat -> bool): Option<Frames> {
    match t
    case PlainLine(_) => Some(fs)
    case IfLine(c) => Some(Group(CppIf(Active(fs), env(c)), fs))
    case EndifLine => if fs.NoGroup? then None else Some(fs.outer)
    case _ =>
      if fs.NoGroup? || fs.frame.sawElse then None
      else Some(Group(CppChange(fs.frame, t, env), fs.outer))
  }

  /** The open groups after the lines, and the plain lines kept so far. */
  datatype Selection = Selection(frames: Frames, kept: seq<nat>)

  function SelectStep(r: Selection, t: Text, env: nat -> bool): Option<Selection> {
    var fs := CppStep(r.frames, t, env);
    if fs.None? then None
    else Some(Selection(fs.value, if t.PlainLine? && Active(r.frames) then r.kept + [t.id] else r.kept))
  }

  function Select(ts: seq<Text>, env: nat -> bool): Option<Selection> {
    if ts == [] then Some(Selection(NoGroup, []))
    else
      var r := Select(ts[..|ts| - 1], env);
      if r.None? then None else SelectStep(r.value, ts[|ts| - 1], env)
  }

  function Texts(lines: seq<Line>): seq<Text> {
    if lines == [] then [] else Append(Texts(lines[..|lines| - 1]), Some(lines[|lines| - 1].text))
  }

  /** A truth assignment that agrees with everything the parser knew. */
  predicate Agrees(l: Line, env: nat -> bool) {
    l.text.IfLine? || l.text.ElifLine? ==>
      (l.truth == KnownTrue ==> env(l.text.cond)) && (l.truth == KnownFalse ==> !env(l.text.cond))
  }

  // ----- Simulation -----

  predicate HasOutputGroup(s: IfState) {
    s in {PassMiddle, FalseMiddle, TrueMiddle, PassElse}
  }

  /** How the input's group f relates to a state with no group open in the output. */
  predicate ClosedLevel(s: IfState, f: Frame) {
    match s
    case FalsePrefix => !f.taken && !f.active && !f.sawElse
    case TruePrefix => f.taken && f.active == f.parent && !f.sawElse
    case FalseElse => !f.active && f.sawElse
    case TrueElse => f.active == f.parent && f.sawElse
    case FalseTrailer => !f.active && !f.sawElse && (f.taken || !f.parent)
    case _ => false
  }

  /** How the input's group f relates to the output's group g. */
  predicate SharedLevel(s: IfState, f: Frame, g: Frame) {
    match s
    case PassMiddle => g == f && !f.sawElse
    case FalseMiddle => g.parent == f.parent && g.taken == f.taken && !f.active && !f.sawElse && !g.sawElse
    case TrueMiddle => g.parent == f.parent && g.active == f.active && f.taken && !f.sawElse && g.sawElse
    case PassElse => g == f && f.sawElse
    case _ => false
  }

  /** Level by level, the machine's states tie the groups open in the input to those open in
      the output; below a level that drops its lines every level stays dropped. */
  predicate Related(ls: Levels, fin: Frames, fout: Frames) {
    match ls
    case Bottom => fin.NoGroup? && fout.NoGroup?
    case Level(s, _, below) =>
      fin.Group? && fin.frame.parent == Active(fin.outer) &&
      (Printing(TopState(below)) || s == FalseTrailer || s == FalseElse) &&
      if HasOutputGroup(s) then
        fout.Group? && SharedLevel(s, fin.frame, fout.frame) && Related(below, fin.outer, fout.outer)
      else
        ClosedLevel(s, fin.frame) && Related(below, fin.outer, fout)
  }

  lemma {:induction false} RelatedActivity(ls: Levels, fin: Frames, fout: Frames)
    requires Related(ls, fin, fout)
    ensures if Printing(TopState(ls)) then Active(fin) == Active(fout) else !Active(fin)
  {
    if ls.Level? {
      RelatedActivity(ls.below, fin.outer, if HasOutputGroup(ls.state) then fout.outer else fout);
    }
  }

  /** What an #if does: a level that drops its lines opens a dropped level; a printing level
      passes the line on, or opens a level whose state tells the truth of the condition. */
  lemma IfEffect(s: IfState, l: Line, iocccok: bool, parent: bool, env: nat -> bool)
    requires l.text.IfLine? && Agrees(l, env) && !LineEffect(s, l, iocccok).Fail?
    requires !Printing(s) ==> !parent
    ensures
      var e := LineEffect(s, l, iocccok);
      e.OpenLevel? &&
      if e.write.Some? then Printing(s) && e.state == PassMiddle && e.write == Some(l.text)
      else
        (Printing(s) || e.state == FalseTrailer) && !HasOutputGroup(e.state) &&
        ClosedLevel(e.state, CppIf(parent, env(l.text.cond)))
  {
    IfColumn(s, l);
  }

  /** The change of a level with a group in the output: that group is closed, or it stays
      related, as it is or after the #elif or #else that is written. */
  ghost predicate SharedChange(e: Effect, t: Text, f: Frame, g: Frame, env: nat -> bool)
    requires t.ElifLine? || t.ElseLine?
  {
    !f.sawElse && e.ChangeLevel? &&
    var f' := CppChange(f, t, env);
    if e.write == Some(EndifLine) then !HasOutputGroup(e.state) && ClosedLevel(e.state, f')
    else if e.write == None then HasOutputGroup(e.state) && SharedLevel(e.state, f', g)
    else
      var w := e.write.value;
      (w.ElifLine? || w.ElseLine?) && !g.sawElse && HasOutputGroup(e.state) &&
      SharedLevel(e.state, f', CppChange(g, w, env))
  }

  /** The change of a level without a group in the output: none is opened, or one is opened
      by an #elif written as #if. */
  ghost predicate ClosedChange(s: IfState, e: Effect, t: Text, f: Frame, env: nat -> bool)
    requires t.ElifLine? || t.ElseLine?
  {
    !f.sawElse && e.ChangeLevel? &&
    (e.state == FalseTrailer || e.state == FalseElse || (s != FalseTrailer && s != FalseElse)) &&
    if e.write == None then !HasOutputGroup(e.state) && ClosedLevel(e.state, CppChange(f, t, env))
    else t.ElifLine? && e.write == Some(IfLine(t.cond)) && e.state == PassMiddle && !f.taken
  }

  lemma ChangeClosed(s: IfState, l: Line, iocccok: bool, f: Frame, env: nat -> bool)
    requires l.text.ElifLine? || l.text.ElseLine?
    requires Agrees(l, env) && !LineEffect(s, l, iocccok).Fail?
    requires ClosedLevel(s, f)
    ensures ClosedChange(s, LineEffect(s, l, iocccok), l.text, f, env)
  {
  }

  /** What the table says of an #elif on a level with a group in the output. */
  function SharedElif(s: IfState, l: Line): Action
    requires l.text.ElifLine?
  {
    if s == PassElse then Eelif
    else if l.dodgy && s != PassMiddle then Eioccc
    else if s == TrueMiddle then Melif
    else match l.truth
      case Unknown => Pelif
      case KnownTrue => if l.dodgy then Oelif else Mtrue
      case KnownFalse => if l.dodgy then Oelif else Delif
  }

  lemma SharedElifColumn(s: IfState, l: Line)
    requires l.text.ElifLine? && HasOutputGroup(s)
    ensures Transition(s, LineTypeOf(l)) == SharedElif(s, l)
  {
  }

  lemma ElifShared(s: IfState, l: Line, iocccok: bool, f: Frame, g: Frame, env: nat -> bool)
    requires l.text.ElifLine? && Agrees(l, env) && !LineEffect(s, l, iocccok).Fail?
    requires SharedLevel(s, f, g)
    ensures SharedChange(LineEffect(s, l, iocccok), l.text, f, g, env)
  {
    SharedElifColumn(s, l);
  }

  lemma ElseShared(s: IfState, l: Line, iocccok: bool, f: Frame, g: Frame, env: nat -> bool)
    requires l.text.ElseLine? && !LineEffect(s, l, iocccok).Fail?
    requires SharedLevel(s, f, g)
    ensures SharedChange(LineEffect(s, l, iocccok), l.text, f, g, env)
  {
  }

  /** What an #endif does. */
  lemma EndifEffect(s: IfState, l: Line, iocccok: bool)
    requires l.text.EndifLine? && !LineEffect(s, l, iocccok).Fail?
    ensures s != Outside
    ensures LineEffect(s, l, iocccok) == CloseLevel(if HasOutputGroup(s) then Some(EndifLine) else None)
  {
  }

  /** Everything the simulation needs to know about the effect of a line. */
  ghost predicate Contract(s: IfState, t: Text, e: Effect, env: nat -> bool) {
    match t
    case PlainLine(_) => e == Stay(if Printing(s) then Some(t) else None)
    case IfLine(c) =>
      e.OpenLevel? &&
      if e.write.Some? then Printing(s) && e.state == PassMiddle && e.write == Some(t)
      else
        (Printing(s) || e.state == FalseTrailer) && !HasOutputGroup(e.state) &&
        forall parent :: (parent ==> Printing(s)) ==> ClosedLevel(e.state, CppIf(parent, env(c)))
    case EndifLine => e == CloseLevel(if HasOutputGroup(s) then Some(EndifLine) else None)
    case _ =>
      e.ChangeLevel? &&
      (forall f :: ClosedLevel(s, f) ==> ClosedChange(s, e, t, f, env)) &&
      (forall f, g :: SharedLevel(s, f, g) ==> SharedChange(e, t, f, g, env))
  }

  lemma LineContract(s: IfState, l: Line, iocccok: bool, env: nat -> bool)
    requires Agrees(l, env) && !LineEffect(s, l, iocccok).Fail?
    ensures Contract(s, l.text, LineEffect(s, l, iocccok), env)
  {
    match l.text
    case PlainLine(_) =>
    case IfLine(c) =>
      IfEffect(s, l, iocccok, false, env);
      if Printing(s) { IfEffect(s, l, iocccok, true, env); }
    case EndifLine => EndifEffect(s, l, iocccok);
    case _ => ChangeContract(s, l, iocccok, env);
  }

  lemma ChangeContract(s: IfState, l: Line, iocccok: bool, env: nat -> bool)
    requires l.text.ElifLine? || l.text.ElseLine?
    requires Agrees(l, env) && !LineEffect(s, l, iocccok).Fail?
    ensures Contract(s, l.text, LineEffect(s, l, iocccok), env)
  {
    EffectFits(s, l, iocccok);
    forall f | ClosedLevel(s, f) {
      ChangeClosed(s, l, iocccok, f, env);
    }
    forall f, g | SharedLevel(s, f, g) ensures SharedChange(LineEffect(s, l, iocccok), l.text, f, g, env) {
      if l.text.ElifLine? {
        ElifShared(s, l, iocccok, f, g, env);
      } else {
        ElseShared(s, l, iocccok, f, g, env);
      }
    }
  }

  /** The output's groups after the line a step wrote, if it wrote one. */
  function WriteStep(fout: Frames, w: Option<Text>, env: nat -> bool): Option<Frames> {
    if w.None? then Some(fout) else CppStep(fout, w.value, env)
  }

  /** A directive takes related groups to related groups. */
  lemma EffectKeepsRelated(ls: Levels, t: Text, e: Effect, fin: Frames, fout: Frames, env: nat -> bool)
    requires Related(ls, fin, fout) && !t.PlainLine?
    requires Fits(TopState(ls), t, e) && !e.Fail? && Contract(TopState(ls), t, e, env)
    ensures e.write.Some? ==> !e.write.value.PlainLine?
    ensures CppStep(fin, t, env).Some? && WriteStep(fout, e.write, env).Some?
    ensures Related(ApplyLevels(ls, e), CppStep(fin, t, env).value, WriteStep(fout, e.write, env).value)
  {
    RelatedActivity(ls, fin, fout);
    if t.ElifLine? || t.ElseLine? {
      ChangeKeepsRelated(ls, t, e, fin, fout, env);
    }
  }

  lemma ChangeKeepsRelated(ls: Levels, t: Text, e: Effect, fin: Frames, fout: Frames, env: nat -> bool)
    requires Related(ls, fin, fout) && ls.Level? && (t.ElifLine? || t.ElseLine?)
    requires e.ChangeLevel? && Contract(ls.state, t, e, env)
    ensures e.write.Some? ==> !e.write.value.PlainLine?
    ensures CppStep(fin, t, env).Some? && WriteStep(fout, e.write, env).Some?
    ensures Related(ApplyLevels(ls, e), CppStep(fin, t, env).value, WriteStep(fout, e.write, env).value)
  {
    if HasOutputGroup(ls.state) {
      assert SharedChange(e, t, fin.frame, fout.frame, env);
    } else {
      assert ClosedChange(ls.state, e, t, fin.frame, env);
      RelatedActivity(ls.below, fin.outer, fout);
    }
  }

  /** The simulation: input and output have opened related groups and kept the same lines. */
  ghost predicate Simulates(m: Machine, r: Option<Selection>, env: nat -> bool) {
    var w := Select(m.output, env);
    r.Some? && w.Some? && Related(m.levels, r.value.frames, w.value.frames) && r.value.kept == w.value.kept
  }

  lemma SelectAppend(ts: seq<Text>, w: Option<Text>, env: nat -> bool)
    requires Select(ts, env).Some?
    ensures Select(Append(ts, w), env) ==
            if w.None? then Select(ts, env) else SelectStep(Select(ts, env).value, w.value, env)
  {
    if w.Some? { assert (ts + [w.value])[..|ts|] == ts; }
  }

  lemma ApplySimulates(m: Machine, r: Selection, t: Text, e: Effect, env: nat -> bool)
    requires Simulates(m, Some(r), env)
    requires Fits(TopState(m.levels), t, e) && Contract(TopState(m.levels), t, e, env)
    requires Apply(m, e).Ok?
    ensures Simulates(Apply(m, e).m, SelectStep(r, t, env), env)
  {
    var fout := Select(m.output, env).value.frames;
    SelectAppend(m.output, e.write, env);
    if t.PlainLine? {
      RelatedActivity(m.levels, r.frames, fout);
    } else {
      EffectKeepsRelated(m.levels, t, e, r.frames, fout, env);
    }
  }

  lemma StepSimulates(m: Machine, r: Selection, l: Line, iocccok: bool, env: nat -> bool)
    requires ValidLevels(m.levels) && Simulates(m, Some(r), env) && Agrees(l, env)
    requires Step(m, l, iocccok).Ok?
    ensures Simulates(Step(m, l, iocccok).m, SelectStep(r, l.text, env), env)
  {
    EffectFits(TopState(m.levels), l, iocccok);
    LineContract(TopState(m.levels), l, iocccok, env);
    ApplySimulates(m, r, l.text, LineEffect(TopState(m.levels), l, iocccok), env);
  }

  lemma {:induction false} StepsSimulate(lines: seq<Line>, iocccok: bool, env: nat -> bool)
    requires Steps(lines, iocccok).Ok?
    requires forall i :: 0 <= i < |lines| ==> Agrees(lines[i], env)
    ensures Simulates(Steps(lines, iocccok).m, Select(Texts(lines), env), env)
  {
    if lines != [] {
      var n := |lines| - 1;
      StepsSimulate(lines[..n], iocccok, env);
      var r := Select(Texts(lines[..n]), env);
      StepSimulates(Steps(lines[..n], iocccok).m, r.value, lines[n], iocccok, env);
      SelectAppend(Texts(lines[..n]), Some(lines[n].text), env);
    }
  }

  /** Unifdef preserves meaning.  Whatever it accepts, under every truth assignment that
      agrees with the known conditions, conditional inclusion is well formed on the input and
      on the output, ends outside every group on both, and keeps the same plain lines. */
  lemma ProcessPreservesMeaning(lines: seq<Line>, iocccok: bool, env: nat -> bool)
    requires Process(lines, iocccok).Ok?
    requires forall i :: 0 <= i < |lines| ==> Agrees(lines[i], env)
    ensures
      var before, after := Select(Texts(lines), env), Select(Process(lines, iocccok).m.output, env);
      before.Some? && after.Some? && before.value.frames == after.value.frames == NoGroup &&
      before.value.kept == after.value.kept
  {
    StepsSimulate(lines, iocccok, env);
  }

  // ----- Nothing known is left -----

  predicate HasCondition(t: Text) {
    t.IfLine? || t.ElifLine?
  }

  /** The conditions that are unknown, and those that obfuscated lines keep. */
  function UnknownConditions(lines: seq<Line>, iocccok: bool): (r: set<nat>)
    ensures forall c :: c in r <==> exists i :: 0 <= i < |lines| && LeavesCondition(lines[i], iocccok, c)
  {
    if lines == [] then {}
    else
      var l := lines[|lines| - 1];
      UnknownConditions(lines[..|lines| - 1], iocccok) + (if Undecided(l, iocccok) then {l.text.cond} else {})
  }

  /** A condition that is unknown or, with the option for obfuscated lines, on a dodgy line. */
  predicate Undecided(l: Line, iocccok: bool) {
    HasCondition(l.text) && (l.truth == Unknown || (iocccok && l.dodgy))
  }

  predicate LeavesCondition(l: Line, iocccok: bool, c: nat) {
    Undecided(l, iocccok) && l.text.cond == c
  }

  predicate ConditionsIn(out: seq<Text>, conds: set<nat>) {
    forall t :: t in out && HasCondition(t) ==> t.cond in conds
  }

  lemma WrittenUnknown(s: IfState, l: Line, iocccok: bool)
    requires !LineEffect(s, l, iocccok).Fail?
    ensures
      var w := LineEffect(s, l, iocccok).write;
      w.Some? && HasCondition(w.value) ==> Undecided(l, iocccok) && l.text.cond == w.value.cond
  {
    if l.text.IfLine? { IfColumn(s, l); }
    if l.text.ElifLine? { ElifWritten(s, l, iocccok); }
  }

  lemma ElifWritten(s: IfState, l: Line, iocccok: bool)
    requires l.text.ElifLine? && !LineEffect(s, l, iocccok).Fail?
    ensures
      var w := LineEffect(s, l, iocccok).write;
      w.Some? && HasCondition(w.value) ==> Undecided(l, iocccok) && l.text.cond == w.value.cond
  {
  }

  lemma StepLeavesUnknown(m: Machine, conds: set<nat>, l: Line, iocccok: bool)
    requires ValidLevels(m.levels) && ConditionsIn(m.output, conds) && Step(m, l, iocccok).Ok?
    ensures ConditionsIn(Step(m, l, iocccok).m.output, conds + if Undecided(l, iocccok) then {l.text.cond} else {})
  {
    WrittenUnknown(TopState(m.levels), l, iocccok);
    var w := LineEffect(TopState(m.levels), l, iocccok).write;
    assert Step(m, l, iocccok).m.output == Append(m.output, w);
  }

  /** Every condition written out was unknown, or on an obfuscated line that may be passed on. */
  lemma {:induction false} StepsLeaveUnknown(lines: seq<Line>, iocccok: bool)
    requires Steps(lines, iocccok).Ok?
    ensures ConditionsIn(Steps(lines, iocccok).m.output, UnknownConditions(lines, iocccok))
  {
    if lines != [] {
      var n := |lines| - 1;
      StepsLeaveUnknown(lines[..n], iocccok);
      StepLeavesUnknown(Steps(lines[..n], iocccok).m, UnknownConditions(lines[..n], iocccok), lines[n], iocccok);
    }
  }

  // ----- Nothing is known -----

  predicate AllUnknown(lines: seq<Line>) {
    forall i :: 0 <= i < |lines| ==> lines[i].truth == Unknown
  }

  /** No level has been decided. */
  predicate Undisturbed(ls: Levels) {
    ls.Level? ==> (ls.state == PassMiddle || ls.state == PassElse) && Undisturbed(ls.below)
  }

  lemma UnknownEffect(s: IfState, l: Line, iocccok: bool)
    requires l.truth == Unknown && s in {Outside, PassMiddle, PassElse}
    ensures
      var e := LineEffect(s, l, iocccok);
      !e.Fail? ==> e.write == Some(l.text) && (e.OpenLevel? ==> e.state == PassMiddle) &&
                   (e.ChangeLevel? ==> e.state in {PassMiddle, PassElse})
  {
    if l.text.IfLine? { IfColumn(s, l); }
  }

  /** When nothing is known, what is accepted is written out as it is, dodgy or not. */
  lemma {:induction false} NothingKnown(lines: seq<Line>, iocccok: bool)
    requires AllUnknown(lines) && Steps(lines, iocccok).Ok?
    ensures Steps(lines, iocccok).m.output == Texts(lines) && Undisturbed(Steps(lines, iocccok).m.levels)
  {
    if lines != [] {
      var n := |lines| - 1;
      NothingKnown(lines[..n], iocccok);
      UnknownEffect(TopState(Steps(lines[..n], iocccok).m.levels), lines[n], iocccok);
      EffectFits(TopState(Steps(lines[..n], iocccok).m.levels), lines[n], iocccok);
    }
  }

  // ----- What is rejected -----

  lemma CleanElifFailure(s: IfState, l: Line, iocccok: bool)
    requires !l.dodgy && (l.text.ElifLine? || l.text.ElseLine?)
    requires LineEffect(s, l, iocccok).Fail?
    ensures s in {Outside, PassElse, FalseElse, TrueElse}
  {
  }

  lemma CleanFailure(s: IfState, l: Line, iocccok: bool)
    requires !l.dodgy && LineEffect(s, l, iocccok).Fail?
    ensures match l.text
            case EndifLine => s == Outside
            case ElifLine(_) => s in {Outside, PassElse, FalseElse, TrueElse}
            case ElseLine => s in {Outside, PassElse, FalseElse, TrueElse}
            case _ => false
  {
    match l.text
    case IfLine(_) => IfColumn(s, l);
    case ElifLine(_) => CleanElifFailure(s, l, iocccok);
    case ElseLine => CleanElifFailure(s, l, iocccok);
    case _ =>
  }

  lemma MisplacedDirective(ls: Levels, t: Text, fin: Frames, fout: Frames, env: nat -> bool)
    requires Related(ls, fin, fout)
    requires match t
             case EndifLine => TopState(ls) == Outside
             case ElifLine(_) => TopState(ls) in {Outside, PassElse, FalseElse, TrueElse}
             case ElseLine => TopState(ls) in {Outside, PassElse, FalseElse, TrueElse}
             case _ => false
    ensures CppStep(fin, t, env) == None
  {
  }

  lemma UnknownFailure(s: IfState, l: Line, iocccok: bool)
    requires l.truth == Unknown && s in {Outside, PassMiddle, PassElse} && LineEffect(s, l, iocccok).Fail?
    ensures match l.text
            case EndifLine => s == Outside
            case ElifLine(_) => s in {Outside, PassElse}
            case ElseLine => s in {Outside, PassElse}
            case _ => false
  {
    if l.text.IfLine? { IfColumn(s, l); }
  }

  /** Every directive is on one line, or nothing is known. */
  predicate Straight(lines: seq<Line>) {
    (forall i :: 0 <= i < |lines| ==> !lines[i].dodgy) || AllUnknown(lines)
  }

  /** Without dodgy directives, or without known ones, a file is refused only for too deep a
      nesting, or because its directives are not nested properly under any assignment. */
  lemma {:induction false} StepsRefuse(lines: seq<Line>, iocccok: bool, env: nat -> bool)
    requires Steps(lines, iocccok).Failed? && Steps(lines, iocccok).why != TooDeep
    requires Straight(lines) && forall i :: 0 <= i < |lines| ==> Agrees(lines[i], env)
    ensures Select(Texts(lines), env) == None
  {
    var n := |lines| - 1;
    var o := Steps(lines[..n], iocccok);
    if o.Failed? {
      StepsRefuse(lines[..n], iocccok, env);
      SelectNone(Texts(lines[..n]), lines[n].text, env);
    } else {
      StepsSimulate(lines[..n], iocccok, env);
      var r := Select(Texts(lines[..n]), env).value;
      assert Steps(lines, iocccok) == Step(o.m, lines[n], iocccok);
      assert LineEffect(TopState(o.m.levels), lines[n], iocccok).Fail?;
      if lines[n].dodgy {
        NothingKnown(lines[..n], iocccok);
        UnknownFailure(TopState(o.m.levels), lines[n], iocccok);
      } else {
        CleanFailure(TopState(o.m.levels), lines[n], iocccok);
      }
      MisplacedDirective(o.m.levels, lines[n].text, r.frames, Select(o.m.output, env).value.frames, env);
      SelectAppend(Texts(lines[..n]), Some(lines[n].text), env);
    }
  }

  lemma SelectNone(ts: seq<Text>, t: Text, env: nat -> bool)
    requires Select(ts, env) == None
    ensures Select(Append(ts, Some(t)), env) == None
  {
    assert (ts + [t])[..|ts|] == ts;
  }

  lemma ProcessRefuses(lines: seq<Line>, iocccok: bool, env: nat -> bool)
    requires Straight(lines) && forall i :: 0 <= i < |lines| ==> Agrees(lines[i], env)
    requires Process(lines, iocccok) != Failed(TooDeep)
    ensures Process(lines, iocccok).Ok? <==>
            Select(Texts(lines), env).Some? && Select(Texts(lines), env).value.frames == NoGroup
  {
    if Steps(lines, iocccok).Failed? {
      StepsRefuse(lines, iocccok, env);
    } else {
      StepsSimulate(lines, iocccok, env);
    }
  }

  // ----- Dodgy directives -----

  /** A dodgy #if is refused exactly where text is written out, its condition is known, and
      obfuscated lines are not allowed; where text is written it is passed on. */
  lemma DodgyIf(s: IfState, l: Line, iocccok: bool)
    requires l.text.IfLine? && l.dodgy
    ensures LineEffect(s, l, iocccok).Fail? <==> Printing(s) && l.truth != Unknown && !iocccok
    ensures Printing(s) ==> LineEffect(s, l, iocccok).Fail? || PassedOn(LineEffect(s, l, iocccok), l)
  {
    IfColumn(s, l);
  }

  predicate PassedOn(e: Effect, l: Line) {
    e.OpenLevel? && e.state == PassMiddle && e.write == Some(l.text)
  }

  /** Where a dodgy directive is accepted inside a group: it stays between text that is written,
      or between text that is dropped, or it is the first unknown #elif after false conditions. */
  predicate DodgyAllowed(s: IfState, l: Line, iocccok: bool) {
    match l.text
    case ElifLine(_) => (s == PassMiddle && iocccok) || (s in {PassMiddle, FalsePrefix} && l.truth == Unknown) || s == FalseTrailer
    case ElseLine => s in {PassMiddle, FalseTrailer}
    case EndifLine => s in {PassMiddle, TrueMiddle, PassElse}
    case _ => false
  }

  /** The same directive on one line; in a group that is passed on its condition counts as unknown. */
  function Undodged(s: IfState, l: Line): Line {
    l.(dodgy := false, truth := if s == PassMiddle then Unknown else l.truth)
  }

  lemma DodgyElif(s: IfState, l: Line, iocccok: bool)
    requires l.text.ElifLine? && l.dodgy
    ensures !LineEffect(s, l, iocccok).Fail? <==> DodgyAllowed(s, l, iocccok)
    ensures DodgyAllowed(s, l, iocccok) ==> LineEffect(s, l, iocccok) == LineEffect(s, Undodged(s, l), iocccok)
  {
  }

  lemma DodgyElse(s: IfState, l: Line, iocccok: bool)
    requires (l.text.ElseLine? || l.text.EndifLine?) && l.dodgy
    ensures !LineEffect(s, l, iocccok).Fail? <==> DodgyAllowed(s, l, iocccok)
    ensures DodgyAllowed(s, l, iocccok) ==> LineEffect(s, l, iocccok) == LineEffect(s, Undodged(s, l), iocccok)
  {
  }

  /** Exactly these are accepted, and then they do what the directive on one line does. */
  lemma DodgyExactly(s: IfState, l: Line, iocccok: bool)
    requires (l.text.ElifLine? || l.text.ElseLine? || l.text.EndifLine?) && l.dodgy
    ensures !LineEffect(s, l, iocccok).Fail? <==> DodgyAllowed(s, l, iocccok)
    ensures DodgyAllowed(s, l, iocccok) ==> LineEffect(s, l, iocccok) == LineEffect(s, Undodged(s, l), iocccok)
  {
    if l.text.ElifLine? { DodgyElif(s, l, iocccok); } else { DodgyElse(s, l, iocccok); }
  }

  // ----- The machine as it is written -----

  function LevelsOf(states: seq<IfState>, ignoring: seq<bool>, depth: nat): Levels
    requires depth < |states| && depth < |ignoring|
  {
    if depth == 0 then Bottom
    else Level(states[depth], ignoring[depth], LevelsOf(states, ignoring, depth - 1))
  }

  lemma {:induction false} LevelsOfFrame(s: seq<IfState>, s': seq<IfState>, g: seq<bool>, g': seq<bool>, depth: nat)
    requires depth < |s| == |s'| && depth < |g| == |g'|
    requires forall i :: 1 <= i <= depth ==> s[i] == s'[i] && g[i] == g'[i]
    ensures LevelsOf(s, g, depth) == LevelsOf(s', g', depth)
  {
    if depth > 0 { LevelsOfFrame(s, s', g, g', depth - 1); }
  }

  /** The stacks are two arrays with a common depth; index 0 belongs to the outside. */
  class Unifdef {
    const iocccok: bool
    const ifstate: array<IfState>
    const ignoring: array<bool>
    var depth: nat
    var output: seq<Text>

    ghost predicate Valid()
      reads this, ifstate, ignoring
    {
      ifstate.Length == MAXDEPTH && ignoring.Length == MAXDEPTH && depth < MAXDEPTH &&
      ifstate[0] == Outside && !ignoring[0] && ValidLevels(Stack())
    }

    ghost function Stack(): Levels
      requires ifstate.Length == MAXDEPTH && ignoring.Length == MAXDEPTH && depth < MAXDEPTH
      reads this, ifstate, ignoring
    {
      LevelsOf(ifstate[..], ignoring[..], depth)
    }

    constructor (obfuscatedOk: bool)
      ensures Valid() && iocccok == obfuscatedOk && Stack() == Bottom && output == []
      ensures fresh(ifstate) && fresh(ignoring)
    {
      iocccok := obfuscatedOk;
      ifstate := new IfState[MAXDEPTH](_ => Outside);
      ignoring := new bool[MAXDEPTH](_ => false);
      depth := 0;
      output := [];
    }

    method Flushline(keep: bool, t: Text)
      modifies this`output
      ensures output == Append(old(output), if keep then Some(t) else None)
    {
      if keep { output := output + [t]; }
    }

    /** Opens a level; the caller then sets its state and its ignore flag. */
    method Nest() returns (ok: bool)
      requires depth < MAXDEPTH
      modifies this`depth
      ensures ok == (old(depth) < MAXDEPTH - 1)
      ensures depth == if ok then old(depth) + 1 else old(depth)
    {
      ok := depth != MAXDEPTH - 1;
      if ok { depth := depth + 1; }
    }

    method State(s: IfState)
      requires ifstate.Length == MAXDEPTH && ignoring.Length == MAXDEPTH && 0 < depth < MAXDEPTH
      modifies ifstate
      ensures old(Stack()).Level? && Stack() == old(Stack()).(state := s)
      ensures ifstate[0] == old(ifstate[0])
    {
      ifstate[depth] := s;
      LevelsOfFrame(old(ifstate[..]), ifstate[..], ignoring[..], ignoring[..], depth - 1);
    }

    method Ignore(on: bool)
      requires ifstate.Length == MAXDEPTH && ignoring.Length == MAXDEPTH && 0 < depth < MAXDEPTH && !ignoring[0]
      modifies ignoring
      ensures old(Stack()).Level? && Stack() == old(Stack()).(ignoring := on || TopIgnoring(old(Stack()).below))
      ensures !ignoring[0]
    {
      if on {
        ignoring[depth] := true;
      } else {
        ignoring[depth] := ignoring[depth - 1];
      }
      LevelsOfFrame(ifstate[..], ifstate[..], old(ignoring[..]), ignoring[..], depth - 1);
    }

    /** Carries out an effect on the arrays. */
    method Execute(e: Effect) returns (failure: Option<Failure>)
      requires Valid() && (e.ChangeLevel? || e.CloseLevel? ==> Stack().Level?)
      requires e.OpenLevel? || e.ChangeLevel? ==> e.state != Outside
      modifies this`depth, this`output, ifstate, ignoring
      ensures
        var o := Apply(Machine(old(Stack()), old(output)), e);
        if o.Failed? then failure == Some(o.why)
        else failure == None && Valid() && Machine(Stack(), output) == o.m
    {
      failure := None;
      DepthOf(ifstate[..], ignoring[..], depth);
      match e
      case Fail(why) => failure := Some(why);
      case Stay(w) =>
        if w.Some? { Flushline(true, w.value); }
      case OpenLevel(s, ignore, w) =>
        var ok := Nest();
        if !ok {
          failure := Some(TooDeep);
        } else {
          if w.Some? { Flushline(true, w.value); }
          Ignore(ignore);
          State(s);
        }
      case ChangeLevel(s, ignoreOff, w) =>
        if w.Some? { Flushline(true, w.value); }
        if ignoreOff { Ignore(false); }
        State(s);
      case CloseLevel(w) =>
        if w.Some? { Flushline(true, w.value); }
        depth := depth - 1;
    }

    /** One line: looks up the action and carries it out. */
    method ProcessLine(l: Line) returns (failure: Option<Failure>)
      requires Valid()
      modifies this`depth, this`output, ifstate, ignoring
      ensures
        var o := Step(Machine(old(Stack()), old(output)), l, iocccok);
        if o.Failed? then failure == Some(o.why)
        else failure == None && Valid() && Machine(Stack(), output) == o.m
    {
      assert ifstate[depth] == TopState(Stack());
      EffectFits(ifstate[depth], l, iocccok);
      failure := Execute(LineEffect(ifstate[depth], l, iocccok));
    }

    /** The machine has read the lines and not failed. */
    ghost predicate HasRead(lines: seq<Line>)
      reads this, ifstate, ignoring
    {
      Valid() && Steps(lines, iocccok) == Ok(Machine(Stack(), output))
    }

    method ReadLine(lines: seq<Line>, i: nat) returns (failure: Option<Failure>)
      requires i < |lines| && HasRead(lines[..i])
      modifies this`depth, this`output, ifstate, ignoring
      ensures if failure.Some? then Steps(lines, iocccok) == Failed(failure.value) else HasRead(lines[..i + 1])
    {
      StepsNext(lines, i, iocccok);
      failure := ProcessLine(lines[i]);
      if failure.Some? { FailureLasts(lines, i + 1, iocccok); }
    }

    /** Feeds the lines to the machine until one fails or the file ends. */
    method ProcessFile(lines: seq<Line>) returns (failure: Option<Failure>)
      requires Valid() && Stack() == Bottom && output == []
      modifies this`depth, this`output, ifstate, ignoring
      ensures
        var o := Process(lines, iocccok);
        if o.Failed? then failure == Some(o.why) else failure == None && output == o.m.output
    {
      assert lines[..0] == [];
      var i := 0;
      while i < |lines|
        invariant 0 <= i <= |lines| && HasRead(lines[..i])
      {
        failure := ReadLine(lines, i);
        if failure.Some? { return; }
        i := i + 1;
      }
      assert lines[..i] == lines;
      failure := if depth == 0 then None else Some(PrematureEof);
    }
  }

  lemma {:induction false} DepthOf(states: seq<IfState>, ignoring: seq<bool>, depth: nat)
    requires depth < |states| && depth < |ignoring|
    ensures Depth(LevelsOf(states, ignoring, depth)) == depth
  {
    if depth > 0 { DepthOf(states, ignoring, depth - 1); }
  }

  lemma StepsNext(lines: seq<Line>, i: nat, iocccok: bool)
    requires i < |lines| && Steps(lines[..i], iocccok).Ok?
    ensures Steps(lines[..i + 1], iocccok) == Step(Steps(lines[..i], iocccok).m, lines[i], iocccok)
  {
    assert lines[..i + 1][..i] == lines[..i];
  }

  lemma {:induction false} FailureLasts(lines: seq<Line>, n: nat, iocccok: bool)
    requires n <= |lines| && Steps(lines[..n], iocccok).Failed?
    ensures Steps(lines, iocccok) == Steps(lines[..n], iocccok)
    decreases |lines| - n
  {
    if n == |lines| {
      assert lines[..n] == lines;
    } else {
      assert lines[..n + 1][..n] == lines[..n];
      FailureLasts(lines, n + 1, iocccok);
    }
  }
}
