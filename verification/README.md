# Verified models of the kernel build tools

The repository carries the `scripts/` directory of the Linux kernel: programs that parse the
configuration, strip preprocessor conditionals, compile device trees, compress the symbol table,
generate ASN.1 decoders, compute symbol versions and patch object files.  This project models the
algorithms at the heart of eight of them and proves what each is for.  `dafny verify dfyconfig.toml`
checks everything.

Each algorithm appears twice.  A specification on values says what the result is, and lemmas say
what that means; the program as it is written, with its loops, cursors, counters, buffers and linked
nodes, is proved to compute that result.  The modules:

- **Kconfig expressions.**  `KconfigExpr` gives the three-valued meaning.  `KconfigEliminate`,
  `KconfigDups` and `KconfigTransform` specify the rewritings and prove that each keeps the value
  under every valuation, that the fixpoint loops end, and what form the results have;
  `KconfigEquality` says what equality of expressions comes to, `KconfigTidy` which operands are
  joined and that no such pair is left.
  `KconfigNodes`, `KconfigSlots` and `KconfigRewriter` do all of it on linked nodes that are
  overwritten, relinked and allocated, with the global count of rewrites.
- **Kconfig menus.**  `KconfigMenu` specifies the re-nesting of the menu tree; `KconfigMenuLinks` is
  menu_finalize on nodes whose links change while they are walked.  `KconfigSubmenus` puts the test
  for automatic submenus in, `KconfigDependence` says when it is passed, and `KconfigOwners` below
  which node each node ends up.
- **unifdef.**  `UnifdefMachine` is the 10-state machine with its table, `UnifdefEval` the expression
  evaluator, `UnifdefOperators` its operators, `UnifdefProgram` all together: the file written means
  what the file read means, and nothing that is known is left in it.
- **Device tree compiler.**  `DtcTree`, `DtcWrite`, `DtcRead` and `DtcBlob` specify the writer and the
  reader of blobs and prove the round trip and the layout; `DtcBuffers` and `DtcProgram` are the
  programs.  `DtcFormat` and `DtcFormatBlob` describe the bytes of a blob without the writer's or the
  reader's names: what is written has this form, and what has it is read.  `DtcMerge` is the
  overlaying of trees, `DtcMarkers` the marker arithmetic.
- **kallsyms.**  `KallsymsCoding` proves the compression lossless; `KallsymsTable` is the compressor
  on its buffers with its table of pair counts.
- **asn1_compiler.**  `Asn1Render` specifies one pass of the renderer and compares two;
  `Asn1Listing` reads the entries off the grammar; `Asn1Nesting` says for which grammars rendering
  ends; `Asn1Passes` is the renderer with its flags, counters and linked work list.
- **genksyms.**  `GenksymsExpand` specifies the expansion of definitions, `GenksymsOrder` says when
  the order of exports matters, `GenksymsWords` spells out the words, `GenksymsTrail` is the
  recursion with its trail.
- **recordmcount.**  `RecordmcountFile` is the file in two parts, `RecordmcountAppend` the appending
  of sections, `RecordmcountReader` reads the result from its file header on, `RecordmcountSift` is
  the search for calls.
- **sortextable.**  `Sortextable` sorts exception tables in place.

`Wrappers` holds the optional value that they share.

Where the code does not do what one would expect of it, the model keeps the code's behaviour and
says exactly when the expectation holds:

- `a='b' && a!='c'` is joined into `a='b'` whenever `b` and `c` are different symbols; this is wrong
  exactly when the symbol's value equals both, which takes a constant such as `"2"`
  (`JoinAndValue`, `NumericConstantBreaksJoin`).
- The comment above `expr_eq` (kconfig/expr.c:247-252) says that operators are equal when every
  operand of one equals some operand of the other.  The code cancels operands in pairs, and is sound
  (`EqSound`); on one level it demands that every operand occurs as often on both sides
  (`EqExactly`), so the comment is right when the operands of each side are pairwise different, and
  fails for `A && A && A` against `A && A` (`EqOfDifferent`, `EqOfSameSet`, `RepetitionMatters`).
- `expr_trans_bool` keeps whether an expression is n on a negation normal form; below a negation it
  fails exactly when the symbol is m (`TransBoolBelowNot`).
- `expr_trans_compare` misreads a negated tristate symbol exactly when it is m, and a symbol without
  a type unless it is called n (`TransCompareNoNegated`, `TransCompareNoUntyped`).
- The evaluator of unifdef stores a long in an int.  A number can do no harm if and only if it fits an
  int: for any other there is a line that is judged true and is false (`HarmlessExactly`,
  `NumberMisjudged`).  By itself a number is misjudged exactly when it lies below a long, or within a
  long and is a multiple of 2^32 other than 0 (`NumberJudged`).
- The name property that the device tree compiler adds in old versions has a length that agrees with
  its bytes exactly when the node's name is empty or does not start with an at-sign
  (`NamePropLength`).  Reservations are read up to the first empty one (`ReservesRoundTrip`), a blob
  of version 1 does not keep the boot processor (`BlobRoundTrip`), and the blob of a deleted root
  cannot be read (`DeletedRoot`).
- `expand_and_crc_sym` enters undefined types in the symbol table, under the tag by which they are met
  first.  What an export puts out is the same as without the exports before it if and only if the
  undefined types it shares with them are met first under the same tags (`ExportsIndependentExactly`);
  so it is when no undefined type is called, say, a struct in one place and a union in another
  (`ExportsIndependent`), and is not in `MixedTagsMatter`.
- `uwrite` fails when data ends exactly at the end of the mapped file and nothing has been appended
  yet (`OutFile.Write`), so `append_func` fails exactly when the section name table is empty
  (`AppendFunc`).
- What is proved of the renderer of asn1_compiler asks that some depth bounds how far elements are
  rendered inside one another, wherever rendering comes to; on other grammars its recursion has no end.
  A type that contains itself behind an alternative of a choice meets this (`RankedExactly`,
  `RecursiveRanked`).
- `sift_rel_mcount` uses symbol number 0 for "not found yet", and so tests relocations without a symbol
  that come before the first call as if they were calls (`PickedExactly`).

## Model

| member | source | states |
|---|---|---|
| KconfigExpr.CompareWithTriConstant | notes/Makefile研究/scripts/kconfig/expr.c:1024-1096 | comparing a boolean or tristate symbol with y, m or n through the text comparison compares their tristates |
| KconfigExpr.PlainConstantNeverEqual | notes/Makefile研究/scripts/kconfig/expr.c:992-1022 | a tristate symbol never equals a constant whose text is neither y, m, n nor a number |
| KconfigEliminate.EliminateYnValue | notes/Makefile研究/scripts/kconfig/expr.c:310-391 | folding y and n away keeps the value under every valuation |
| KconfigEliminate.EliminateYnShrinks | notes/Makefile研究/scripts/kconfig/expr.c:310-391 | folding leaves no operand y or n, removes a node if and only if there was one, and otherwise returns the expression itself |
| KconfigEliminate.EliminateYnKeeps | notes/Makefile研究/scripts/kconfig/expr.c:310-391 | folding keeps negation normal form and the condition on comparison constants |
| KconfigEliminate.CancelEqualFactor | notes/Makefile研究/scripts/kconfig/expr.c:151-191 | whatever is cancelled is one common factor: each side had the value of its remainder joined with the same third value |
| KconfigEliminate.EqSound | notes/Makefile研究/scripts/kconfig/expr.c:253-297 | expressions that compare equal have the same value under every valuation |
| KconfigEquality.EqExactly | notes/Makefile研究/scripts/kconfig/expr.c:244-297 | expressions of symbols, comparisons and their negations under one operator are equal if and only if they have the same operands, each as often, in whatever order and grouping |
| KconfigEquality.EqOfDifferent | notes/Makefile研究/scripts/kconfig/expr.c:247-252 | when the operands of each side are pairwise different, they are equal if and only if each operand of one is an operand of the other, as the comment says |
| KconfigEquality.EqOfSameSet | notes/Makefile研究/scripts/kconfig/expr.c:247-252 | with the same operands on both sides they are equal if and only if each occurs as often in both |
| KconfigEquality.RepetitionMatters | notes/Makefile研究/scripts/kconfig/expr.c:247-252 | the comment fails for A and A and A against A and A, which have the same operands and are not equal |
| KconfigEquality.CancelRemaining | notes/Makefile研究/scripts/kconfig/expr.c:151-191 | cancelling leaves on each side what it has more of than the other |
| KconfigEliminate.SupersetTest | notes/Makefile研究/scripts/kconfig/menu.c:466-475 | when cancelling turns the second expression into y, the first never exceeds the second: the implication test is sound |
| KconfigEliminate.CancelLevelsMonotone | notes/Makefile研究/scripts/kconfig/expr.c:222-242 | if what is left of the second expression is y, the first was at most the second before cancelling |
| KconfigDups.JoinOrValue | notes/Makefile研究/scripts/kconfig/expr.c:425-487 | every joining rule under or yields the value of the two operands joined |
| KconfigDups.JoinAndValue | notes/Makefile研究/scripts/kconfig/expr.c:489-581 | every joining rule under && yields the value of the two operands joined if and only if the constants of a='b' && a!='c' do not clash: not both equal to the symbol's value while being different symbols |
| KconfigDups.PlainConstantsNeverClash | notes/Makefile研究/scripts/kconfig/expr.c:543-560 | constants y, m, n, and constants that read as neither these nor a number, never clash |
| KconfigDups.NumericConstantBreaksJoin | notes/Makefile研究/scripts/kconfig/expr.c:543-560 | the clash is real: with A=y, A="2" && A!=y is n, and is joined into A="2", which is y |
| KconfigDups.JoinKeeps | notes/Makefile研究/scripts/kconfig/expr.c:425-581 | a join keeps negation normal form, plain constants and, with plain constants, the value |
| KconfigDups.JoinShape | notes/Makefile研究/scripts/kconfig/expr.c:425-581 | a join is a copy of the first operand or a single leaf, so it never grows the tree |
| KconfigDups.JoinNeutral | notes/Makefile研究/scripts/kconfig/expr.c:425-581 | a neutral operand joins only with its like, so a slot made neutral once stays neutral |
| KconfigDups.EliminateDups1Meaning | notes/Makefile研究/scripts/kconfig/expr.c:590-645 | one walk over all pairs of leaves keeps value, negation normal form and plain constants, although it rewrites the tree it walks |
| KconfigDups.EliminateDups1Progress | notes/Makefile研究/scripts/kconfig/expr.c:590-645 | a walk that counted something leaves an operand y or n to fold away; a walk that counted nothing changed nothing: this is why the loop ends |
| KconfigDups.EliminateDupsMeaning | notes/Makefile研究/scripts/kconfig/expr.c:658-680 | removing duplicates keeps the value under every valuation, negation normal form and plain constants |
| KconfigDups.EliminateDupsFixpoint | notes/Makefile研究/scripts/kconfig/expr.c:658-680 | the result is a fixpoint: one more walk would count nothing |
| KconfigDups.WalkTriesAllPairs | notes/Makefile研究/scripts/kconfig/expr.c:583-645 | a walk that counts nothing has tried every pair of different leaves of its level |
| KconfigDups.EliminateDupsLeavesNoPair | notes/Makefile研究/scripts/kconfig/expr.c:647-680 | no two operands of the result are equal and no joining rule applies to any two of them |
| KconfigTidy.JoinsExactly | notes/Makefile研究/scripts/kconfig/expr.c:425-581 | two operands are joined if and only if they are equal or, under or, say both s=m and s=y, s=y and s=n, s=m and s=n of a tristate s or s and !s of a boolean s, or, under &&, one of the pairs of s, s=b, s!=c of which one settles or excludes the other |
| KconfigTidy.EliminateDupsTidies | notes/Makefile研究/scripts/kconfig/expr.c:583-680 | on no level of the result, at any depth, are two operands left that are equal or such a pair |
| KconfigTransform.DeMorganValue | notes/Makefile研究/scripts/kconfig/expr.c:788-805 | the rewriting of a negated operator has the value of the negation |
| KconfigTransform.TransformValue | notes/Makefile研究/scripts/kconfig/expr.c:688-843 | the transformed expression has the same value under every valuation, through all its re-calls |
| KconfigTransform.TransformNormal | notes/Makefile研究/scripts/kconfig/expr.c:688-843 | the result is in negation normal form, without any comparison of a boolean symbol with y, m or n |
| KconfigTransform.TransformIdempotent | notes/Makefile研究/scripts/kconfig/expr.c:688-843 | transforming twice is transforming once |
| KconfigTransform.TransformKeepsConstants | notes/Makefile研究/scripts/kconfig/expr.c:688-843 | transforming introduces no comparison constant that could clash |
| KconfigTransform.TransBoolKeepsNo | notes/Makefile研究/scripts/kconfig/expr.c:393-420 | on a negation normal form whether the value is n stays, and the value never rises |
| KconfigTransform.TransBoolBelowNot | notes/Makefile研究/scripts/kconfig/expr.c:393-420 | below a negation being n does not stay: !(A!=n) becomes !A, which is n when it should not be exactly when A is m |
| KconfigTransform.TransBoolLeavesNone | notes/Makefile研究/scripts/kconfig/expr.c:393-420 | no A!=n of a tristate A is left at any depth, and an expression without one comes back as it is |
| KconfigTransform.RewriteMValue | notes/Makefile研究/scripts/kconfig/menu.c:77-104 | without modules a bare m reads as n, with modules nothing changes |
| KconfigTransform.TransCompareNoValue | notes/Makefile研究/scripts/kconfig/expr.c:916-979 | comparing an expression with n answers whether it is n, if nothing negated is m and each symbol reads as n exactly when its value is n |
| KconfigTransform.TransCompareNoNegated | notes/Makefile研究/scripts/kconfig/expr.c:935-936 | a negated tristate symbol is misread exactly when the symbol is m |
| KconfigTransform.TransCompareNoUntyped | notes/Makefile研究/scripts/kconfig/expr.c:971-972 | a symbol that was never given a type is read rightly exactly when it is called n |
| KconfigTransform.PropagateDepValue | notes/Makefile研究/scripts/kconfig/menu.c:339-349 | rewriting, normalising, joining with the parent's dependency and removing duplicates yields the lower of the two dependencies |
| KconfigTransform.PropagateDepNnf | notes/Makefile研究/scripts/kconfig/menu.c:339-349 | a dependency put together from a parent's in negation normal form is in negation normal form |
| KconfigTransform.PropagateBoolDepValue | notes/Makefile研究/scripts/kconfig/menu.c:384-394 | the condition of a property of a symbol that is not tristate is n exactly when its own or its parent's is |
| KconfigTransform.DependsSymbolSound | notes/Makefile研究/scripts/kconfig/expr.c:873-900 | an expression said to depend on a symbol is n whenever the symbol is n |
| KconfigTransform.DependsContains | notes/Makefile研究/scripts/kconfig/expr.c:845-900 | an expression that depends on a symbol contains it |
| KconfigTransform.NotNoFormValue | notes/Makefile研究/scripts/kconfig/menu.c:454-464 | the normalised form of "is not n" that the submenu test compares is y when the expression is not n and n when it is |
| KconfigTransform.GoesInSubmenuSound | notes/Makefile研究/scripts/kconfig/menu.c:442-481 | an entry goes into the submenu of s only if, whenever it is not n, s is not n, or the condition s stands under is not n |
| KconfigDependence.ContainsExactly | notes/Makefile研究/scripts/kconfig/expr.c:845-871 | an expression contains a symbol exactly when the symbol occurs in it |
| KconfigDependence.DependsExactly | notes/Makefile研究/scripts/kconfig/expr.c:873-900 | it depends on a symbol exactly when one operand of its conjunction is s, s=y, s=m or s!=n |
| KconfigDependence.OperandGoesIn | notes/Makefile研究/scripts/kconfig/menu.c:442-481 | an entry with such an operand goes into the submenu of s, whatever s stands under |
| KconfigDependence.SupersetGoesIn | notes/Makefile研究/scripts/kconfig/menu.c:454-481 | so does an entry that mentions s and whose dependency has every operand of the condition s stands under, both normalised as "is not n" |
| KconfigNodes.ExprEliminateYn | notes/Makefile研究/scripts/kconfig/expr.c:310-391 | in place, by overwriting nodes: the same node comes back and holds the folded expression, no node is shared or added |
| KconfigNodes.ExprTransBool | notes/Makefile研究/scripts/kconfig/expr.c:393-420 | in place: the nodes stay the same set and hold the rewritten expression |
| KconfigNodes.ExprRewriteM | notes/Makefile研究/scripts/kconfig/menu.c:77-104 | in place: the nodes returned hold the rewritten expression, unshared, and only new nodes were added |
| KconfigNodes.PushNegation | notes/Makefile研究/scripts/kconfig/expr.c:788-805 | De Morgan by relabelling: the node of the negation becomes the operator, the node of the operator the first negation, one node is new |
| KconfigNodes.ExprTransform | notes/Makefile研究/scripts/kconfig/expr.c:688-843 | in place: the nodes returned hold the transformed expression, unshared, and only new nodes were added |
| KconfigSlots.SetSlot | notes/Makefile研究/scripts/kconfig/expr.c:617-635 | storing in the place where an operand is linked changes exactly that operand of the whole expression |
| KconfigSlots.OtherLeaf | notes/Makefile研究/scripts/kconfig/expr.c:610-613 | leaves in different slots share no node, so replacing one leaves the other |
| KconfigRewriter.ExprCopy | notes/Makefile研究/scripts/kconfig/expr.c:67-106 | a copy holds the same expression in new nodes only |
| KconfigRewriter.ExprJoin | notes/Makefile研究/scripts/kconfig/expr.c:425-581 | the join of two operands comes in new nodes, or null comes if no rule applies; the operands are left alone |
| KconfigRewriter.Rewriter.CancelEqualNodes | notes/Makefile研究/scripts/kconfig/expr.c:151-191 | cancellation in place on two expressions: both end as specified, still without a common node, and the count grows by the number of hits |
| KconfigRewriter.Rewriter.ExprEliminateEq | notes/Makefile研究/scripts/kconfig/expr.c:222-242 | in place: both expressions end rid of what they have in common, and share no node |
| KconfigRewriter.Rewriter.ExprEq | notes/Makefile研究/scripts/kconfig/expr.c:253-297 | equality is decided on copies: the operands are not changed, and the count is restored |
| KconfigRewriter.Rewriter.ExprEliminateDups1 | notes/Makefile研究/scripts/kconfig/expr.c:590-645 | the walk in place over two slots of one expression that may be the same or lie inside each other: operators keep their nodes, expression and count end as specified |
| KconfigRewriter.Rewriter.ExprEliminateDups | notes/Makefile研究/scripts/kconfig/expr.c:658-680 | the loop ends, its result in place is the specified one, and the count is as it was |
| KconfigRewriter.Rewriter.PropagateDependency | notes/Makefile研究/scripts/kconfig/menu.c:339-349 | the whole chain on linked nodes delivers the specified dependency and leaves the parent's alone |
| KconfigMenu.FinalizedKeepsOrder | notes/Makefile研究/scripts/kconfig/menu.c:417-571 | re-nesting leaves the display order of the nodes as it was |
| KconfigMenu.FinalizedWellParented | notes/Makefile研究/scripts/kconfig/menu.c:417-571 | every node's parent ends as the node whose children it is among |
| KconfigMenu.FinalizedFlat | notes/Makefile研究/scripts/kconfig/menu.c:492-571 | below a finalized node only nodes with a prompt text have children |
| KconfigOwners.FlattenedOwners | notes/Makefile研究/scripts/kconfig/menu.c:492-571 | flattening leaves every node below the nearest node around it that has a prompt text, or at the top level if there is none |
| KconfigOwners.FinalParents | notes/Makefile研究/scripts/kconfig/menu.c:412-571 | the final parent of every node below a finalized one is the nearest node around it with a prompt text in the tree with its automatic submenus, or else the finalized node |
| KconfigOwners.ParentsWithoutSubmenus | notes/Makefile研究/scripts/kconfig/menu.c:412-571 | without automatic submenus it is the nearest such node in the tree as it was, so no menu with a prompt text loses an entry |
| KconfigOwners.FollowerTaken | notes/Makefile研究/scripts/kconfig/menu.c:440-488 | a node without children that has a symbol takes the node behind it if that passes the test, and is followed by none that does |
| KconfigMenu.RootCallsOnce | notes/Makefile研究/scripts/kconfig/menu.c:412-417 | from the root, menu_finalize is called for every node exactly once, in display order |
| KconfigMenu.CallsOnce | notes/Makefile研究/scripts/kconfig/menu.c:412-488 | the calls made for a node are for it and for what ends up below it, each once |
| KconfigSubmenus.NestedIsSubject | notes/Makefile研究/scripts/kconfig/menu.c:440-488 | in every run, a node nested automatically under a symbol is n whenever both the symbol and the condition its prompt stands under are n |
| KconfigSubmenus.NestedPass | notes/Makefile研究/scripts/kconfig/menu.c:440-488 | everything nested automatically in a run, at any depth, has passed the test with its new parent |
| KconfigSubmenus.TakenIsNested | notes/Makefile研究/scripts/kconfig/menu.c:455-488 | the chain put below a node holds nested nodes only, and the node that then follows fails the test |
| KconfigMenuLinks.FinalizeChildren | notes/Makefile研究/scripts/kconfig/menu.c:412-417 | the loop over the children survives the changes its calls make to the links it follows |
| KconfigMenuLinks.TakeFollowers | notes/Makefile研究/scripts/kconfig/menu.c:440-488 | the nodes that pass the test become the children, the others follow, by relinking next, list and parent |
| KconfigMenuLinks.SpliceUp | notes/Makefile研究/scripts/kconfig/menu.c:561-569 | the children of a node move behind it and change their parent |
| KconfigMenuLinks.FlattenChildren | notes/Makefile研究/scripts/kconfig/menu.c:492-571 | the flattening loop, which grows the list it walks, ends and flattens |
| KconfigMenuLinks.MenuFinalize | notes/Makefile研究/scripts/kconfig/menu.c:290-599 | on linked nodes, changed while they are walked: the links end as the specified tree, and the recursion ends |
| UnifdefMachine.StepsSimulate | notes/Makefile研究/scripts/unifdef.c:418-502 | after every line the groups open in the input and in the output are related level by level, and the same lines were kept |
| UnifdefMachine.ProcessPreservesMeaning | notes/Makefile研究/scripts/unifdef.c:584-596 | for every file accepted and every truth assignment that agrees with what is known, conditional inclusion of input and output keeps the same plain lines, and both are balanced |
| UnifdefMachine.EffectKeepsRelated | notes/Makefile研究/scripts/unifdef.c:379-502 | every action of the table, on any related stacks, leaves related stacks |
| UnifdefMachine.StepsLeaveUnknown | notes/Makefile研究/scripts/unifdef.c:379-502 | every condition written was unknown, or stood on an obfuscated line that the option passes on |
| UnifdefMachine.MisplacedDirective | notes/Makefile研究/scripts/unifdef.c:379-417 | where the machine complains of a directive, it is misplaced in the input |
| UnifdefMachine.ProcessRefuses | notes/Makefile研究/scripts/unifdef.c:584-596 | within the nesting limit, a file whose directives stand on one line, or of which nothing is known, is accepted if and only if its directives are properly nested |
| UnifdefMachine.NothingKnown | notes/Makefile研究/scripts/unifdef.c:379-502 | a file of which nothing is known is written out as it is, directives across lines included |
| UnifdefMachine.DodgyIf | notes/Makefile研究/scripts/unifdef.c:379-417 | an #if across lines is refused exactly where text is written, its condition is known, and obfuscated lines are not allowed; where text is written it is passed on |
| UnifdefMachine.DodgyExactly | notes/Makefile研究/scripts/unifdef.c:379-502 | which #elif, #else and #endif across lines are accepted: between text that is written before and after, a known #elif only with the option for obfuscated lines, between text that is dropped before and after, and the first unknown #elif after false conditions; and these do what they do on one line, a known #elif as if it were unknown |
| UnifdefMachine.Unifdef.Nest | notes/Makefile研究/scripts/unifdef.c:527-535 | a level is opened unless the limit is reached |
| UnifdefMachine.Unifdef.ProcessLine | notes/Makefile研究/scripts/unifdef.c:584-596 | one line on the two arrays and the depth is one step of the machine |
| UnifdefMachine.Unifdef.ProcessFile | notes/Makefile研究/scripts/unifdef.c:584-596 | the run over a file on the arrays is that of the machine, with its failure or its output |
| UnifdefEval.IfEvalSound | notes/Makefile研究/scripts/unifdef.c:952-962 | an answer true or false means: the line is one expression grouped as in C, and, with numbers as they are stored, nonzero or zero whatever the unknown symbols are; with numbers that fit an int this is its value in C |
| UnifdefEval.IfEvalExactly | notes/Makefile研究/scripts/unifdef.c:952-962 | exactly when there is an answer and which: the tokens are one expression to their end, no symbol stands for a text, what is known settles the value, and no constant is to be kept; neither stale values nor the uninitialised variable of any call have a say |
| UnifdefEval.SettledSound | notes/Makefile研究/scripts/unifdef.c:746-777 | a value that is settled is the value in every environment; one that is not settled has an unknown symbol in it |
| UnifdefEval.TableSpelled | notes/Makefile研究/scripts/unifdef.c:913-944 | for every row of the precedence table the tokens read are one tree that binds as tightly as the row |
| UnifdefEval.TableTold | notes/Makefile研究/scripts/unifdef.c:913-944 | every row of the table fails exactly where there is nothing to parse or a text is met, and otherwise says what is settled |
| UnifdefEval.StoredMeaning | notes/Makefile研究/scripts/unifdef.c:834-845 | storing numbers that fit an int changes no meaning |
| UnifdefEval.HarmlessExactly | notes/Makefile研究/scripts/unifdef.c:834-845 | a number can do no harm, in any line and with any table whose other numbers fit an int, if and only if it fits an int itself |
| UnifdefEval.NumberMisjudged | notes/Makefile研究/scripts/unifdef.c:834-845 | for every number that does not fit an int, A == number with A defined as what is stored of it is said to be true and is false |
| UnifdefEval.NumberJudged | notes/Makefile研究/scripts/unifdef.c:834-845 | a number alone is judged rightly exactly when it is zero, exceeds a long, or lies within a long and is no multiple of 2^32 |
| UnifdefOperators.Precedence | notes/Makefile研究/scripts/unifdef.c:802-823 | of two operators the one that binds more tightly is applied first, or being the loosest, then &&, then == and !=, then the orderings, and of two of the same strength the left one |
| UnifdefOperators.Compared | notes/Makefile研究/scripts/unifdef.c:746-777 | two numbers that fit an int are judged true by each of the eight operators exactly when it says so of the integers |
| UnifdefEval.Evaluator.Unary | notes/Makefile研究/scripts/unifdef.c:825-907 | the function on its cursor, value and flag delivers the specified result |
| UnifdefEval.Evaluator.Table | notes/Makefile研究/scripts/unifdef.c:913-944 | the loop over operators delivers the specified result |
| UnifdefEval.Evaluator.IfEvalLine | notes/Makefile研究/scripts/unifdef.c:952-962 | the answer for a line, from the shared flag and the result |
| UnifdefProgram.ClassifiedAgrees | notes/Makefile研究/scripts/unifdef.c:640-712 | what the line parser finds out about a line is true in every environment for the unknown symbols |
| UnifdefProgram.KnownExactly | notes/Makefile研究/scripts/unifdef.c:640-712 | a condition is known exactly when it is an #ifdef or #ifndef of one name of the command line and nothing more, or an expression that the known symbols settle and that is no constant to be kept |
| UnifdefProgram.KnownIsResolved | notes/Makefile研究/scripts/unifdef.c:584-596 | a run that does not fail writes no known condition, as #if or as #elif, unless it stands on an obfuscated line that the option passes on |
| UnifdefProgram.OutputMeansInput | notes/Makefile研究/scripts/unifdef.c:584-740 | from end to end: whatever the unknown symbols are, conditional inclusion keeps the same lines of the file read and of the file written |
| UnifdefProgram.ParseSourceLine | notes/Makefile研究/scripts/unifdef.c:640-712 | one line is classified as specified, whatever an uninitialised variable holds |
| UnifdefProgram.Run | notes/Makefile研究/scripts/unifdef.c:584-740 | a run that does not fail writes a file that means what the file read means, in every environment, and in which no condition is left that the command line decides |
| DtcTree.CellRoundTrip | notes/Makefile研究/scripts/dtc/flattree.c:45-50 | a word written most significant byte first is read back |
| DtcTree.NameFromJoinedPath | notes/Makefile研究/scripts/dtc/util.c:83-105 | joining a name to a path gives it back on reading, unless the path ends in a slash without being the root |
| DtcWrite.StringTableInsert | notes/Makefile研究/scripts/dtc/flattree.c:220-233 | after the insertion the string, or one whose tail it is, stands at the offset handed out, and the table has only grown at its end |
| DtcWrite.StringStays | notes/Makefile研究/scripts/dtc/flattree.c:220-233 | an offset handed out once still reads back its name in every later table |
| DtcWrite.NamePropLength | notes/Makefile研究/scripts/dtc/flattree.c:261-280 | the length written for a synthesized name agrees with its bytes exactly when the name is empty or does not start with an at-sign |
| DtcRead.ReadWrittenProperty | notes/Makefile研究/scripts/dtc/flattree.c:663-681 | a property is read back with its name and exact bytes, for every version and alignment |
| DtcRead.NamePropIsProperty | notes/Makefile研究/scripts/dtc/flattree.c:261-280 | the synthesized name is an ordinary property of the node |
| DtcRead.PropsRoundTrip | notes/Makefile研究/scripts/dtc/flattree.c:245-259 | the live properties come back in order, deleted ones are gone |
| DtcRead.TreeRoundTrip | notes/Makefile研究/scripts/dtc/flattree.c:730-792 | a live node is read back as its live part: name, properties and children in order, with the synthesized name in old versions |
| DtcRead.TreesRoundTrip | notes/Makefile研究/scripts/dtc/flattree.c:282-287 | a list of children comes back without the deleted ones |
| DtcFormat.TreeInFormat | notes/Makefile研究/scripts/dtc/flattree.c:45-100 | what is written of a tree is, byte for byte and at multiples of 4: 1, the name or path with its NUL, per property 3, length, offset of the name, value, then the children and 2, zeroes filling up, and values of 8 bytes at multiples of 8 before version 16 |
| DtcFormat.AddedNameIs | notes/Makefile研究/scripts/dtc/flattree.c:261-280 | before version 16 a node without a live property called name gets one, its name up to the first at-sign, and in other versions none does |
| DtcFormat.TreeReads | notes/Makefile研究/scripts/dtc/flattree.c:730-792 | whatever bytes have this form are read as that tree |
| DtcFormat.NothingRead | notes/Makefile研究/scripts/dtc/flattree.c:773-779 | the tag 4 is passed over |
| DtcBlob.QuadRoundTrip | notes/Makefile研究/scripts/dtc/data.c:187-195 | a 64-bit number is read back |
| DtcBlob.BlocksLieAtOffsets | notes/Makefile研究/scripts/dtc/flattree.c:313-343 | every block lies where the header says, in order, and the total size is the length |
| DtcBlob.PaddedSize | notes/Makefile研究/scripts/dtc/flattree.c:365-383 | the padded size is at least the minimum unless padding is given explicitly, a multiple of the alignment, and otherwise exactly as requested |
| DtcBlob.ReservesRoundTrip | notes/Makefile研究/scripts/dtc/flattree.c:684-710 | the reservations come back up to the first empty one |
| DtcBlob.SlotsAreInvisible | notes/Makefile研究/scripts/dtc/flattree.c:293-311 | spare slots are never read as reservations |
| DtcBlob.NonEmptySurvive | notes/Makefile研究/scripts/dtc/flattree.c:684-710 | a list of reservations of nonzero size comes back whole |
| DtcBlob.HeaderReads | notes/Makefile研究/scripts/dtc/flattree.c:313-343 | every header field a version has is read back; the others are not looked at, or read as padding |
| DtcBlob.DeletedRoot | notes/Makefile研究/scripts/dtc/flattree.c:237-243 | a blob of a deleted root cannot be read |
| DtcBlob.BlobRoundTrip | notes/Makefile研究/scripts/dtc/flattree.c:795-925 | reading a written blob gives back what its version keeps, for all five versions, every padding and whatever follows in the file |
| DtcBlob.BlobLayout | notes/Makefile研究/scripts/dtc/flattree.c:345-430 | every blob is as long as its header says, its blocks are disjoint and in order, the structure block lies on a multiple of 8, the size is padded as asked |
| DtcFormatBlob.BlobInFormat | notes/Makefile研究/scripts/dtc/libfdt/fdt.h:57-101 | a blob as written: d0 0d fe ed, the total size, the places of the tree, the names and the reservations, the version, the last compatible version 1 or 16, then what the version adds, each at its place; the reservations with an empty one at the end; the tree with 9 behind it; the names |
| DtcFormatBlob.BlobReads | notes/Makefile研究/scripts/dtc/flattree.c:795-925 | whatever has this form is read: its tree, its reservations up to the first empty one, its boot processor |
| DtcBuffers.Flattener.InsertString | notes/Makefile研究/scripts/dtc/flattree.c:220-233 | the search loop finds the first offset at which the name reads, or adds it at the end |
| DtcBuffers.Flattener.FlattenNode | notes/Makefile研究/scripts/dtc/flattree.c:235-291 | the emitter calls fill the two buffers with the specified bytes |
| DtcBuffers.Inbuf.String | notes/Makefile研究/scripts/dtc/flattree.c:606-625 | the cursor stops behind the padded string, or the read fails |
| DtcBuffers.Inbuf.PropertyOf | notes/Makefile研究/scripts/dtc/flattree.c:663-681 | a property is read at the cursor as specified |
| DtcBuffers.Inbuf.UnflattenNode | notes/Makefile研究/scripts/dtc/flattree.c:730-792 | the loop over tags reads the node the specification reads and leaves the cursor behind it, or fails with it |
| DtcProgram.FlattenReserveList | notes/Makefile研究/scripts/dtc/flattree.c:293-311 | the list and its spare slots as bytes |
| DtcProgram.FindVersion | notes/Makefile研究/scripts/dtc/flattree.c:354-362 | a row with the version is found exactly when the table has one |
| DtcProgram.Padding | notes/Makefile研究/scripts/dtc/flattree.c:365-383 | the number of bytes to add |
| DtcProgram.DtToBlob | notes/Makefile研究/scripts/dtc/flattree.c:345-430 | the program writes the specified blob |
| DtcProgram.ReadMemReserve | notes/Makefile研究/scripts/dtc/flattree.c:684-710 | the loop reads the reservations as specified, or fails |
| DtcProgram.DtFromBlob | notes/Makefile研究/scripts/dtc/flattree.c:795-925 | the program reads what the specification reads, or fails with it |
| DtcMerge.LookupIsVerdict | notes/Makefile研究/scripts/dtc/livetree.c:420-506 | in a tree with unique names a live lookup finds exactly what the tree defines |
| DtcMerge.MergeOverrides | notes/Makefile研究/scripts/dtc/livetree.c:142-226 | looking up any path and property in the merge: a definition of the overlay wins, a tombstone hides, and where the overlay is silent the old tree answers |
| DtcMerge.RedefinedStartsEmpty | notes/Makefile研究/scripts/dtc/livetree.c:142-226 | a node deleted and then defined again shows nothing of its old content |
| DtcMerge.MergeUnique | notes/Makefile研究/scripts/dtc/livetree.c:142-226 | names stay unique, tombstones counted |
| DtcMerge.MergeBuried | notes/Makefile研究/scripts/dtc/livetree.c:278-335 | below what is deleted nothing is left alive |
| DtcMerge.ChildOverride | notes/Makefile研究/scripts/dtc/livetree.c:182-214 | the child of a name in the merge is the old one, the new one, both merged, or none, as the overlay says |
| DtcMerge.FindPropWithDel | notes/Makefile研究/scripts/dtc/livetree.c:154-166 | the first property of a name, deleted or not |
| DtcMerge.MergeNodes | notes/Makefile研究/scripts/dtc/livetree.c:142-226 | the loops over properties and children deliver the specified merge |
| DtcMarkers.Built | notes/Makefile研究/scripts/dtc/data.c:107-238 | however a value is put together, by appending, marking, merging and inserting at markers, its markers stay in order and inside its bytes |
| DtcMarkers.InsertedSorted | notes/Makefile研究/scripts/dtc/data.c:115-128 | an insertion at a marker keeps the order of all markers |
| DtcMarkers.CutFlat | notes/Makefile研究/scripts/dtc/data.c:115-156 | cutting a value at its markers loses nothing |
| DtcMarkers.FixupWeaves | notes/Makefile研究/scripts/dtc/checks.c:614-642 | cut at its markers, the value after the fixup is the value before with every resolved path, and nothing else, put directly behind the marker that asked for it |
| DtcMarkers.Data.AppendData | notes/Makefile研究/scripts/dtc/data.c:107-113 | bytes are appended, in a buffer that grows by doubling |
| DtcMarkers.Data.MergeData | notes/Makefile研究/scripts/dtc/data.c:141-156 | two values are joined, the markers of the second moved by the length of the first |
| DtcMarkers.Data.InsertAtMarker | notes/Makefile研究/scripts/dtc/data.c:115-128 | bytes are shifted up and copied in, and the markers behind move along |
| DtcMarkers.Data.FixupPathReferences | notes/Makefile研究/scripts/dtc/checks.c:614-642 | the loop over a property's markers delivers the specified fixup |
| KallsymsCoding.RoundLossless | notes/Makefile研究/scripts/kallsyms.c:507-592 | a round that places a pair in a free slot and replaces it everywhere changes the expansion of no symbol |
| KallsymsCoding.ReplaceExpands | notes/Makefile研究/scripts/kallsyms.c:297-320 | replacing a pair by its token does not change the expansion |
| KallsymsCoding.PlacingKeeps | notes/Makefile研究/scripts/kallsyms.c:297-320 | a new token changes the expansion of nothing in use |
| KallsymsCoding.PlacingFounded | notes/Makefile研究/scripts/kallsyms.c:566-592 | both parts of a token are bytes of the symbols or tokens of higher slots, so expansion ends |
| KallsymsCoding.ReplaceAllShrinks | notes/Makefile研究/scripts/kallsyms.c:507-546 | replacing a pair that occurs makes the symbols shorter in total |
| KallsymsCoding.NewTokenInside | notes/Makefile研究/scripts/kallsyms.c:566-592 | a new token expands to a contiguous part of an original symbol |
| KallsymsCoding.Round | notes/Makefile研究/scripts/kallsyms.c:566-592 | a round keeps everything compression promises, deals with one slot more and saves a byte |
| KallsymsCoding.NoPairLeft | notes/Makefile研究/scripts/kallsyms.c:576-580 | if no pair has any profit, no symbol has two bytes left |
| KallsymsCoding.PairCountPositive | notes/Makefile研究/scripts/kallsyms.c:460-466 | a pair has a count exactly when it occurs |
| KallsymsTable.FindToken | notes/Makefile研究/scripts/kallsyms.c:494-503 | the first match, or none |
| KallsymsTable.ReplaceInPlace | notes/Makefile研究/scripts/kallsyms.c:507-546 | overwriting and moving bytes down in place, with a size that runs over zero bytes, is replacement from left to right without overlaps |
| KallsymsTable.LearnSymbol | notes/Makefile研究/scripts/kallsyms.c:460-466 | every adjacent pair is counted, overlaps included |
| KallsymsTable.ForgetSymbol | notes/Makefile研究/scripts/kallsyms.c:469-475 | takes back what learning the same bytes has counted |
| KallsymsTable.FindBestToken | notes/Makefile研究/scripts/kallsyms.c:549-563 | the lowest key among those with the highest count |
| KallsymsTable.Kallsyms.constructor | notes/Makefile研究/scripts/kallsyms.c:57-66 | from any symbols: no token, all counts zero, and all that the methods ask for |
| KallsymsTable.Kallsyms.CompressSymbols | notes/Makefile研究/scripts/kallsyms.c:507-546 | every symbol is replaced as specified, and the counts stay exact throughout |
| KallsymsTable.Kallsyms.BuildInitialTokTable | notes/Makefile研究/scripts/kallsyms.c:478-492 | the valid symbols move to the front in order, and every count is exact |
| KallsymsTable.Kallsyms.InsertRealSymbolsInTable | notes/Makefile研究/scripts/kallsyms.c:595-606 | a slot is taken for a byte exactly when the byte occurs |
| KallsymsTable.Kallsyms.OptimizeResult | notes/Makefile研究/scripts/kallsyms.c:566-592 | afterwards every symbol expands to its original, every token to a part of one, each token has saved a byte, and either no free slot or no pair is left |
| KallsymsTable.Kallsyms.PlaceBestToken | notes/Makefile研究/scripts/kallsyms.c:566-592 | the pair placed is one of the most frequent over all current symbols |
| KallsymsTable.Kallsyms.ExpandSymbol | notes/Makefile研究/scripts/kallsyms.c:297-320 | the recursive expander ends and gives the specified expansion |
| KallsymsTable.Kallsyms.OptimizeTokenTable | notes/Makefile研究/scripts/kallsyms.c:608-621 | with any valid symbol, the whole run compresses the valid symbols without loss; without one the program gives up |
| Asn1Nesting.RankedExactly | notes/Makefile研究/scripts/asn1_compiler.c:1439-1611 | the ranks that the results below ask for exist if and only if some depth bounds how far rendering nests, from the root and from every body that can get on the list: if and only if the recursion of the program is bounded there |
| Asn1Nesting.RecursiveRanked | notes/Makefile研究/scripts/asn1_compiler.c:1445-1451 | a type that contains itself behind an alternative of a choice has ranks: the inner one is jumped to |
| Asn1Render.PassesAgree | notes/Makefile研究/scripts/asn1_compiler.c:1356-1377 | the second pass puts out as many entries of the same shape, takes the same elements off the list in the same order, and finds every body where the first pass found it |
| Asn1Render.JumpsLand | notes/Makefile研究/scripts/asn1_compiler.c:1264-1275 | in the second pass every jump carries the entry at which, in that pass, the body of its element begins, and every listed element has one body |
| Asn1Render.BodyBegins | notes/Makefile研究/scripts/asn1_compiler.c:1392-1434 | the recorded place of an element is where the program stood when its body was begun, and the program goes on from there with that body |
| Asn1Render.RunValid | notes/Makefile研究/scripts/asn1_compiler.c:1439-1611 | rendering keeps the work list a chain without repetition, with links that lead along it |
| Asn1Render.ListSame | notes/Makefile研究/scripts/asn1_compiler.c:1392-1434 | two passes over the list that agree go on agreeing, and the second changes no place the first found |
| Asn1Render.ListLater | notes/Makefile研究/scripts/asn1_compiler.c:1392-1434 | what has been taken off the list gets no other link and no other place later |
| Asn1Listing.ProgramListed | notes/Makefile研究/scripts/asn1_compiler.c:1356-1611 | the whole program put out, up to the numbers in its jumps, is a listing read off the grammar element by element, with matches, tags, flags, actions and the way each loop goes back, then COMPLETE, then the bodies of the elements put on the list, in that order |
| Asn1Listing.TagBehindMatch | notes/Makefile研究/scripts/asn1_compiler.c:1503-1517 | behind the match of an element under an override that has a tag stands that tag with the element's own method, behind any other match the element's own tag |
| Asn1Passes.FirstLinkStays | notes/Makefile研究/scripts/asn1_compiler.c:1356-1434 | the link of the first element of the list is the same at the end of the pass, which is why links left by the first pass do no harm |
| Asn1Passes.Renderer.RenderElement | notes/Makefile研究/scripts/asn1_compiler.c:1439-1611 | on counters, flags and links the recursive renderer puts out what is specified for an element, or fails with it |
| Asn1Passes.Renderer.Append | notes/Makefile研究/scripts/asn1_compiler.c:1540-1545 | an element goes behind the last one on the list, once |
| Asn1Passes.Renderer.Pop | notes/Makefile研究/scripts/asn1_compiler.c:1398-1404 | the first element comes off the list although its link may date from the first pass, and its place is recorded |
| Asn1Passes.Renderer.RenderOutOfLineList | notes/Makefile研究/scripts/asn1_compiler.c:1392-1434 | the loop ends and empties the list as specified |
| Asn1Passes.Renderer.Render | notes/Makefile研究/scripts/asn1_compiler.c:1356-1377 | the program printed is that of a second pass that knows every place the first found, and the listing read off the grammar; there is one unless the first pass fails |
| GenksymsExpand.Expand | notes/Makefile研究/scripts/genksyms/genksyms.c:530-632 | the expansion ends on cyclic definitions, and never forgets what is on the trail or in the table |
| GenksymsExpand.CrcOfJoined | notes/Makefile研究/scripts/genksyms/genksyms.c:125-130 | the checksum of words is that of their parts one after the other |
| GenksymsExpand.ExpandCovers | notes/Makefile研究/scripts/genksyms/genksyms.c:530-632 | everything mentioned is expanded, and everything mentioned by what is expanded |
| GenksymsExpand.ExportReaches | notes/Makefile研究/scripts/genksyms/genksyms.c:634-689 | an export expands exactly the symbols reachable from the name |
| GenksymsWords.PassedBySpelling | notes/Makefile研究/scripts/genksyms/genksyms.c:557-617 | words that mention only what is on the trail are put out as they are spelled: struct, union or enum in front of the name of such a type, other words alone |
| GenksymsWords.FirstMention | notes/Makefile研究/scripts/genksyms/genksyms.c:574-577 | a name that is not on the trail is put out by its definition, from the first word to the last |
| GenksymsWords.SelfReferential | notes/Makefile研究/scripts/genksyms/genksyms.c:581-618 | an export that mentions a type that mentions itself: the words before it, the definition with struct, union or enum and the name for every mention of itself, and the words behind it |
| GenksymsWords.UndefinedSpelled | notes/Makefile研究/scripts/genksyms/genksyms.c:585-599 | a type declared nowhere is put out as struct, union or enum, its name and { UNKNOWN } |
| GenksymsWords.CrcOfLine | notes/Makefile研究/scripts/genksyms/genksyms.c:557-617 | the checksum of words is that of the text in which every word is followed by a blank |
| GenksymsOrder.ExportsIndependentExactly | notes/Makefile研究/scripts/genksyms/genksyms.c:581-689 | in any list of exports, what is put out for a name is what is put out for it alone if and only if every undefined type that it shares with earlier names is met first under the same tag by it and by the earliest of them |
| GenksymsOrder.ExpandParallel | notes/Makefile研究/scripts/genksyms/genksyms.c:530-632 | on two tables that differ only in the undefined types entered, expansions are as long as each other and pass the same symbols, and put out the same words exactly when the symbols newly expanded are the same in both |
| GenksymsOrder.ExportsIndependent | notes/Makefile研究/scripts/genksyms/genksyms.c:634-689 | so no export depends on those before it when no undefined type is referred to by two tags |
| GenksymsOrder.CompleteAgrees | notes/Makefile研究/scripts/genksyms/genksyms.c:634-689 | which holds in a complete table |
| GenksymsOrder.MixedTagsMatter | notes/Makefile研究/scripts/genksyms/genksyms.c:581-618 | with two tags the order shows: a name exported second differs from the same name exported first |
| GenksymsTrail.Pushed | notes/Makefile研究/scripts/genksyms/genksyms.c:574-577 | putting a symbol in front keeps the trail a list that holds exactly the linked symbols, each once |
| GenksymsTrail.Popped | notes/Makefile研究/scripts/genksyms/genksyms.c:654-681 | taking the first one off does too |
| GenksymsTrail.Genksyms.FindSymbol | notes/Makefile研究/scripts/genksyms/genksyms.c:154-168 | the symbol a word names, an undefined type being entered as unknown |
| GenksymsTrail.Genksyms.ExpandAndCrcSym | notes/Makefile研究/scripts/genksyms/genksyms.c:530-632 | the recursion on trail and table delivers the checksum of the specified words and leaves exactly the symbols expanded on the trail |
| GenksymsTrail.Genksyms.ClearTrail | notes/Makefile研究/scripts/genksyms/genksyms.c:654-681 | the trail is taken apart completely |
| GenksymsTrail.Genksyms.ExportSymbol | notes/Makefile研究/scripts/genksyms/genksyms.c:634-689 | an export starts and ends with no symbol on the trail and delivers the specified checksum, or none for an undefined name |
| RecordmcountFile.TwoParts | notes/Makefile研究/scripts/recordmcount.c:127-161 | a write split at the end of the mapped file is one write |
| RecordmcountFile.GrownFirst | notes/Makefile研究/scripts/recordmcount.c:127-161 | lengthening the file first changes nothing about the write |
| RecordmcountFile.OutFile.Seek | notes/Makefile研究/scripts/recordmcount.c:95-113 | the file pointer moves to the target, or stays and an error comes if that lies before the file |
| RecordmcountFile.OutFile.Write | notes/Makefile研究/scripts/recordmcount.c:127-161 | map and buffer together are one file written at the pointer; the write fails exactly when it ends at the end of the mapped file with nothing appended yet |
| RecordmcountFile.OutFile.Output | notes/Makefile研究/scripts/recordmcount.c:310-347 | nothing is done if nothing was to be written, and then the file is as it should be; otherwise the file put in place holds every byte ever written, where it was written |
| RecordmcountAppend.DecEnc | notes/Makefile研究/scripts/recordmcount.h:177-251 | a number that fits its field is read back in either byte order |
| RecordmcountAppend.HeaderRoundTrip | notes/Makefile研究/scripts/recordmcount.h:218-242 | a section header is read back field by field |
| RecordmcountAppend.NamesResolve | notes/Makefile研究/scripts/recordmcount.h:183-232 | both new headers name their section in the new name table |
| RecordmcountAppend.PartsPlaced | notes/Makefile研究/scripts/recordmcount.h:177-251 | the blocks of the file lie one behind the other |
| RecordmcountAppend.AppendedLaidOut | notes/Makefile研究/scripts/recordmcount.h:177-251 | the new headers' offsets and sizes name exactly the bytes written for them, the regions are disjoint and end with the file, and the new header table is aligned |
| RecordmcountAppend.RedirectedReads | notes/Makefile研究/scripts/recordmcount.h:199-207 | the header of the name table tells the place and size of the new table, and nothing else has changed |
| RecordmcountAppend.RepointedReads | notes/Makefile研究/scripts/recordmcount.h:247-250 | the file header leads to the new table with two more entries, and behind it nothing has changed |
| RecordmcountAppend.AppendFunc | notes/Makefile研究/scripts/recordmcount.h:177-251 | the sequence of seeks and writes leaves the specified file, and fails if and only if the name table is empty |
| RecordmcountReader.OldSectionHeader | notes/Makefile研究/scripts/recordmcount.h:177-251 | a reader that follows the file header of the file written finds every old section header as it was, except that of the name table, and two more |
| RecordmcountReader.OldSectionName | notes/Makefile研究/scripts/recordmcount.h:177-251 | it finds every old section under its old name |
| RecordmcountReader.OldSectionBytes | notes/Makefile研究/scripts/recordmcount.h:177-251 | and its bytes where they were, if they lie behind the file header and apart from the one section header that was patched |
| RecordmcountReader.NewSectionHeader | notes/Makefile研究/scripts/recordmcount.h:218-242 | the two headers behind the old ones are those of the new sections and lead to exactly the bytes given for them |
| RecordmcountReader.NewSectionName | notes/Makefile研究/scripts/recordmcount.h:183-232 | it finds the new sections under their names |
| RecordmcountReader.NewSectionNumbers | notes/Makefile研究/scripts/recordmcount.h:216-242 | the table of places is of type 1 with flag 2 and entries of the word size; its relocations are of type 4 or 9 as their size says, link to the symbol table asked for and relocate the section in front of their own; no address, aligned to the word size |
| RecordmcountReader.FieldsInPlace | notes/Makefile研究/scripts/recordmcount.h:216-242 | where each field of a section header stands, in both classes |
| RecordmcountReader.BytesInPlace | notes/Makefile研究/scripts/recordmcount.c:349-391 | which byte of a number weighs how much, in both byte orders |
| RecordmcountReader.AppendAndWrite | notes/Makefile研究/scripts/recordmcount.c:310-347 | appending and writing the file: there is one, as the reader needs it, unless the name table was empty |
| RecordmcountSift.PairsGenuine | notes/Makefile研究/scripts/recordmcount.h:139-174 | of each pair of relocations four bytes apart that makes a call on MIPS the first is recorded, if no pair begins four bytes behind what was tested last |
| RecordmcountSift.TestFake | notes/Makefile研究/scripts/recordmcount.h:163-174 | a candidate is fake when it lies four bytes behind the one tested last, which the test remembers |
| RecordmcountSift.PickedExactly | notes/Makefile研究/scripts/recordmcount.h:303-346 | the relocations recorded are the genuine ones of the first call's symbol, if and only if what comes without a symbol before the first call is all fake and does not change whether the first call is |
| RecordmcountSift.SiftedLeads | notes/Makefile研究/scripts/recordmcount.h:502-554 | over all sections every relocation put out patches its own word, and the words lead to the calls in order, whether relocations have addends or not |
| RecordmcountSift.SiftRelMcount | notes/Makefile研究/scripts/recordmcount.h:303-346 | the loop appends the specified words and relocations behind those of earlier sections |
| RecordmcountSift.PlaceMeans | notes/Makefile研究/scripts/recordmcount.h:328-331 | the value of the base symbol and the place recorded add up to the relocation's offset with the adjustment, modulo the word |
| RecordmcountSift.SiftSections | notes/Makefile研究/scripts/recordmcount.h:502-554 | buffers of all the bytes of the relocations, and of half as many, are never overrun whatever relocations are calls, and end leading to all calls |
| Sortextable.RelativeTargets | notes/Makefile研究/scripts/sortextable.c:212-265 | adding and taking away positions undo each other modulo 2^32 |
| Sortextable.EntriesJoined | notes/Makefile研究/scripts/sortextable.c:212-265 | grouping words into entries and joining entries undo each other, words left over included |
| Sortextable.Qsort | notes/Makefile研究/scripts/sortextable.c:200-210 | some sorted rearrangement of the entries |
| Sortextable.Normalize | notes/Makefile研究/scripts/sortextable.c:241-265 | every word becomes what it points to |
| Sortextable.SortRelativeTable | notes/Makefile研究/scripts/sortextable.c:241-265 | in place: the entries, read as targets, are rearranged and in order of their first target as a signed number; a word left over stays |
| Sortextable.X86SortRelativeTable | notes/Makefile研究/scripts/sortextable.c:212-239 | the same for entries of three words |

## Left out

What a contract above does not capture:

- JoinKeeps: the value is claimed for plain constants only; without them `JoinAndValue` gives the exact condition.
- EliminateDupsMeaning: the value is claimed for plain comparison constants, which is what keeps `a='b' && a!='c'` from being joined wrongly.
- TransCompareNoValue: only comparison with n, the one use in menu.c; comparison with y and m is not modelled.
- GoesInSubmenuSound: the comparison with n is claimed right only where nothing negated is m and every symbol reads as n exactly when it is n.
- MenuFinalize: the test for a submenu is any predicate on two nodes; what it means that it is the program's test is in `NestedIsSubject`.
- NestedIsSubject: about the parent that a node gets when it is nested; flattening may then give it another parent, if that one has no prompt text.
- EqExactly: the operands of the level are symbols, comparisons and their negations, not other operators, y or n.
- TransBoolBelowNot: exact for a single comparison below a negation; for whole expressions negation normal form is the condition, in `TransBoolKeepsNo`.
- TransCompareNoNegated: exact for a single negation, and `TransCompareNoUntyped` for a single symbol; for whole expressions `TransCompareNoValue` gives a condition that is enough.
- ExprJoin: the rules are applied to the expressions read from the two operands' nodes.
- OutputMeansInput: with numbers as C has them, every number must fit an int; without that the statement is about numbers as they are stored.
- TreeRoundTrip: names hold no NUL; where full paths are written no name is empty except the root's, ends in a slash or starts with an at-sign; sizes fit 32 bits.
- BlobRoundTrip: the same, and the whole blob is shorter than 4 GiB.
- DtFromBlob: a total size below 40 is refused; the program asks for 28 and reads the rest of the header regardless.
- PaddedSize: alignment to any positive number; the program's rounding agrees for powers of two, which it demands.
- MergeNodes: on trees as values, with property and child lists as sequences; labels, source positions and the reuse of the new tree's nodes are not modelled.
- FixupPathReferences: which references resolve, and to which paths, is a given map.
- OptimizeTokenTable: which symbols are valid is given.
- ExportsIndependentExactly: says when the words put out are the same; different words may still have the same checksum.
- Expand: every typedef and enum constant mentioned is defined; the program crashes otherwise, as a comment in genksyms.c:568 says.
- ExportSymbol: one step of the checksum is any function of a byte and a checksum.
- PassesAgree: for grammars that have ranks, which are those in which rendering nests boundedly (`RankedExactly`).  On others the program recurses without end, unless an unsupported SET makes it give up first.
- RenderElement: the text of entries is an abstract entry; a tag is told by the elements that its class and number and its method are taken from; SET, which the program does not support, is a failure.
- RedirectedReads: the numbers written fit their fields.
- SiftSections: the relocations of all sections are of the size that the class of the file and its kind of relocation have; the offset that the MIPS test for fake calls remembers is not carried over from sections that are not traced or from other files.
- OldSectionBytes: says nothing of a section that overlaps the file header or the header of the name table.
- ProgramListed: the listing tells a jump by the element it leads to, or by how many entries it goes back; that the number in it is right is in `JumpsLand`.
- SupersetGoesIn: the dependency, normalised, is a conjunction of symbols, comparisons and their negations.
- SelfReferential: one mention of the type, between words that name nothing; `PassedBySpelling` and `FirstMention` put other cases together.
- Qsort: an insertion sort stands for the library's, with the contract of any sort.

What the programs do beyond the model:

- Kconfig: parsing, evaluation of symbols (a given valuation), lists and ranges as expressions, printing, reverse dependencies of select and imply, choices, checks and warnings, freeing.
- menu_finalize: the dependency and property fields of nodes; `PropagateDependency` shows what becomes of one dependency.
- unifdef: the lexer for comments and strings, line continuation, the options for blank lines, comments, constants' names and symbol lists, line directives, and the limits on line length and number of symbols.
- dtc: assembler output, source text in both directions, labels, phandles, checks other than the path fixup, sorting, negative lengths and overflow of int.
- kallsyms: reading and sorting symbols, choosing valid ones, markers and the text written, the limit on the length of an expanded name.
- asn1_compiler: tokenising, parsing and building the grammar, the action table, comments in the output.
- genksyms: parsing, redefinition and overriding of symbols in __add_symbol, hash chains, reference files, dumping types, counters of enum constants.
- recordmcount: replacing calls by no-ops, choosing sections and base symbols, reading names of symbols from the file, memory and system call failures, overflow of 32-bit numbers.
- sortextable: reading and writing the object file, the absolute table, byte order of words.
