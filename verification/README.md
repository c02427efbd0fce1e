# A Dafny model of ENIGMA's compiler front end and project formats

ENIGMA turns a Game Maker dialect (EDL) into C++ and reads and writes several project formats. This
project models the parts where one representation has to mean the same as another, and proves that it
does, or exactly when it does. `dafny verify dfyconfig.toml` checks the whole project.

- **Lowering of statements** (`Statements`, `StatementPrinter`, `StatementLowering`, `LoweringMeaning`).
  The printer writes EDL loops and ifs as C++ text. EDL and C++ both get a big-step semantics over a flat
  store, with fuel for loops; the printed tokens are read back by a parser of C++ statements (section 9 of
  ISO/IEC 14882:2017). What C++ reads is the lowering exactly when no branch gives its `else` away and no
  repeat count has a comma in the open, and then it ends as the EDL program does, in the same store apart
  from the repeat counters.
- **Expressions** (`Expressions`, `ExpressionGrammar`, `ExpressionLowering`, `DivisorCasts`, `ExpressionMeaning`).
  The printer writes operands flat, with no parentheses but the user's own. The target's precedence levels are
  those of `kBinaryPrec`, with `==` at equality; the trees that respect them are the trees of the grammar in
  section 8 of ISO/IEC 14882:2017. Printing and regrouping gives the same tree exactly for these. The
  real-division cast and GML's comparing `=` change tokens without parentheses: what they then group to is
  proved, what it evaluates to, and where a comment of the printer promises too much, exactly when it is right.
- **Both in one text** (`FlatStatements`). The printed statement with every expression spelled out is read by
  one C++ parser as the lowering, each value what its own text groups to.
- **The annotator** (`Annotator`, `AnnotatedPrinting`). One stateful pre-order walk agrees with a function of the
  tree, and the flags it leaves make the printer write every condition with its `=` comparing and every statement
  with its root `=` assigning.
- **Declarators** (`Declarators`). A stack of pointers, references and array bounds is spelled inside-out,
  read by section 11.3 of ISO/IEC 14882:2017 and walked back; then it is split around the declared name.
- **Literals** (`Literals`). Printed literals are read by sections 5.13.3 and 5.13.5 of the same standard.
- **Macros and the lexer** (`Macros`, `MacroMeaning`, `Lexer`, `CallMeaning`, `TokenTrie`). Replacement lists compiled to
  components are compared with the substitution of section 19.3 of the standard; the token stream with a
  batch expansion, and that with the tokens of the code and the standard's substitution; the operator trie
  with the longest stored key.
- **The build log** (`BuildLog`). The compile thread and the reply loop as interleaved single accesses, and the
  callback object whose calls are runs of those accesses.
- **Project formats** (`GmkCipher`, `DragActions`, `DragActionReading`, `ResourceIds`, `QuotedStrings`, `SvgMoves`). The GMK
  cipher, drag-and-drop actions as code and a reader of that code, repair of resource ids, the quoted-string writer and reader, and
  SVG-d moves.

`Options`, `Sequences` and `Decimal` hold what several modules share. A class or method whose contract says that it
computes some function stands for code that updates state; the lemmas beside it are about that function.

Properties that do not hold as the code, its comments or the standard would have them. Each has its exact
condition and a lemma at a failing input:

- a repeat count with a comma outside parentheses is printed as two declarators
  (`StatementLowering.PrintedTextMeansLowering`, `StatementLowering.CommaCountIsSplit`);
- a negative repeat count is counted down: with it taken as none, C++ does as much as a repeat without break
  asks for only when the count is not negative (`LoweringMeaning.RepeatMeansCountExactly`); a break ends it
  after one run of the body (`LoweringMeaning.NegativeRepeatRunsItsBody`);
- the `(double)` cast misses part of a divisor looser than a unary expression, `.*` and `->*` included, which
  the comment at `CompilerSource/parsing/pretty_printer.cpp:366-369` does not foresee
  (`DivisorCasts.CastCoversDivisorExactly`, `ExpressionLowering.CastMissesMemberPointer`);
- two adjacent references are spelled `&&`, one token, which the walk rejects
  (`DeclaratorRoundTrip.DeclaratorsRoundTrip`, `DeclaratorRoundTrip.TwoReferencesAreRejected`); a name without
  modifiers loses its trailing blank in the split (`DeclaratorSplit.PartsRejoin`, `DeclaratorSplit.BlankIsLost`);
- an empty character literal is printed as `''`, which is no literal (`Literals.LiteralsRoundTrip`,
  `Literals.EmptyCharacterIsNoLiteral`);
- an empty operand at the start of a `##` chain lets the next one be pasted to what came before the chain
  (`MacroMeaning.CompiledMacroMeansSubstitution`, `MacroMeaning.EmptyLeftIsPastedAcross`);
- macro arguments are never expanded, so a call is replaced by what the standard substitutes, whatever the
  macros mean, only when no argument used outside `#` and `##` holds a macro name
  (`CallMeaning.CallsMeanSubstitutionExactly`, `CallMeaning.ArgumentMacroStays`);
- the commas of a call that has more of them than the macro has room for are lost
  (`LexerSpec.ArgumentsConserved`, `LexerSpec.CommaIsLost`);
- a function-like macro name that begins no closed call is lost, with the token after it unless that is an
  opening parenthesis (`StreamConservation.EveryTokenIsKeptExactly`,
  `StreamConservation.NameWithoutCallLosesTwo`, `StreamConservation.UnclosedCallLosesName`);
- an empty text given to `AppendFrame` still ends a line (`BuildLog.FramesConserveText`,
  `BuildLog.EmptyTextEndsLine`);
- a list of actions in which some question is reached, and an else answers every question reached, makes a
  program that assigns `__if__` without declaring it (`DragActions.AnsweredIfsAreUndeclared`,
  `DragActions.QuestionWithElseIsUndeclared`);
- the look-ahead for an else is one action too far after a body that is no block: the else is not in the span of
  its question then, and is put out after the brace that closes the if (`DragActions.ElseIsTakenExactly`,
  `DragActionReading.ElseLeavesItsIf`);
- an entry of a type that is not supported makes its parent node unknown in a project tree: everything listed
  before it in that folder is lost (`ProjectLoader.TreeFilesAreMirroredExactly`,
  `ProjectLoader.IncludeLosesSprite`);
- a coordinate of seven digits or more is printed with an exponent, which the SVG-d tokenizer does not know: a
  move lands only when the shortest of its three texts has none (`SvgMoves.MovesLandExactly`,
  `SvgMoves.MillionIsReadAsOne`);
- the quoted-string reader gives the letter of an escape it does not know twice, and a NUL for a backslash at
  the end (`QuotedStrings.ReaderDecodesExactly`, `QuotedStrings.UnknownEscapeRepeats`).

Three more conditions are exact but fail only at inputs the program does not produce: an `else` after a branch
that ends in an open `if` (`StatementLowering.PrintedTextMeansLowering`; the EDL parser gives each else to the
nearest if), a quote character that the writer does not escape but puts out
(`QuotedStrings.ReaderUndoesWriter`; the reader is called with `"` and `'` only), and a preset id among those given out (`ResourceIds.IdsAreDistinctExactly`;
loading keeps all ids at or below the highest, as `ProjectLoader.Loader.LoadTree` and
`ProjectLoader.Loader.LoadDirectory` promise).

## Model

| member | source | states |
|---|---|---|
| Stores.CountersDistinct | CompilerSource/parsing/pretty_printer.cpp:834-836 | repeats printed at different nesting depths never share a counter name |
| StatementText.Printer.PrintSemicolon | CompilerSource/parsing/pretty_printer.cpp:48-55 | a semicolon follows only the statements that do not end themselves |
| StatementText.Printer.VisitCodeBlock | CompilerSource/parsing/pretty_printer.cpp:734-739 | a block adds its statements' text in braces, in order, and leaves the repeat depth as it was |
| StatementText.Printer.VisitIfStatement | CompilerSource/parsing/pretty_printer.cpp:741-772 | an if adds its text with one pair of parentheses around a condition that has none and `!` for `if not`; the repeat depth is restored |
| StatementText.Printer.VisitWhileLoop | CompilerSource/parsing/pretty_printer.cpp:827-874 | while, until and repeat loops add their text; the body of a repeat is printed one level deeper and the depth is restored |
| StatementText.Printer.VisitDoLoop | CompilerSource/parsing/pretty_printer.cpp:876-914 | do loops add their text with the body always braced; the repeat depth is restored |
| StatementLowering.TextParses | CompilerSource/parsing/pretty_printer.cpp:741-914 | in front of any text, the printed tokens of a statement parse as C++ to its lowering and leave exactly that text, when no else is given away and no repeat count has an open comma |
| StatementLowering.PrintedTextMeansLowering | CompilerSource/parsing/pretty_printer.cpp:741-914 | C++ reads the printed statement as its lowering if and only if no if with an else has a true branch that would take that else and every repeat count is parenthesised or has no comma at its root |
| StatementLowering.CommaCountIsSplit | CompilerSource/parsing/parser.cpp:2107-2124 | the text of `repeat a, b`, its parentheses consumed, declares a counter that starts at a and a second variable b |
| LoweringMeaning.NestedCountersNeverCollide | CompilerSource/parsing/pretty_printer.cpp:829-833 | whatever its fuel and store, a statement lowered inside d repeats leaves the counters of all d as they were |
| LoweringMeaning.CountdownMeaning | CompilerSource/parsing/pretty_printer.cpp:837-842 | `while (counter--) body` matches running the body as often as the counter says, break and continue included |
| LoweringMeaning.LoweringPreservesMeaning | CompilerSource/parsing/pretty_printer.cpp:741-914 | from stores that agree off the counters, EDL statement and lowering end with the same signal in stores that agree, or neither ends, for every fuel |
| LoweringMeaning.CompiledProgramMeans | CompilerSource/parsing/pretty_printer.cpp:741-914 | end to end: the printed text of a program that names no counter, gives no else away and has no open comma in a count parses completely, and what it parses to ends as the program does |
| FlatStatements.FlatTextParses | CompilerSource/parsing/pretty_printer.cpp:741-914 | in front of any text that does not start with an else the statement would take, the spelled text of a statement parses to its lowering with every value what its own text groups to, and leaves exactly that text |
| FlatStatements.FlatProgramParses | CompilerSource/parsing/pretty_printer.cpp:343-387 | whatever EDL expressions its values stand for, the whole text of a program, flat operands, casts and `==` included, is read completely as the lowering of its statements |
| FlatStatements.GroupedInPlaceExactly | CompilerSource/parsing/pretty_printer.cpp:358-372 | a value in that text is the EDL expression with its `=` and `/` changed in place if and only if the changed expression needs no parentheses |
| FlatStatements.ProgramDivisorsCastExactly | CompilerSource/parsing/pretty_printer.cpp:366-372 | every divisor C++ reads in the whole text of a program is a cast of all of it if and only if every divisor of the program was unary or tighter |
| LoweringMeaning.NegativeRepeatNeverEnds | CompilerSource/parsing/pretty_printer.cpp:837-842 | a lowered repeat without a break and with a negative count never ends: the counter passes zero by |
| LoweringMeaning.RepeatMeansCountExactly | CompilerSource/parsing/pretty_printer.cpp:837-842 | for a repeat without a break whose count fits an int, the lowered loop matches running the body count times, none for a negative count, if and only if the count is not negative |
| LoweringMeaning.NegativeRepeatRunsItsBody | CompilerSource/parsing/pretty_printer.cpp:837-842 | with a break a negative repeat does end, and has run its body once |
| Expressions.ParseReaches | CompilerSource/parsing/parser.cpp:1919-1980 | climbing over the text of a table-respecting tree arrives at that tree as the left operand of what follows |
| Expressions.FlatPrintingLosesNothing | CompilerSource/parsing/precedence.cpp:22-80 | flat text regrouped by the table is the same tree if and only if the tree respects levels and associativity |
| Expressions.ExactlyOneTree | CompilerSource/parsing/precedence.cpp:22-80 | a token sequence groups if and only if operands and operators alternate and brackets match; its table-respecting tree is unique |
| ExpressionGrammar.TableIsGrammar | CompilerSource/parsing/precedence.cpp:22-80 | the trees that respect the table are exactly those the expression grammar of section 8 of ISO/IEC 14882:2017 derives, production by production |
| ExpressionGrammar.RegroupedIsDerived | CompilerSource/parsing/parser.cpp:1919-1980 | flat text groups to a tree of that grammar, the only one with that text |
| Expressions.AnyTreeRegroups | CompilerSource/parsing/pretty_printer.cpp:343-387 | the flat text of any tree, table-respecting or not, groups to a respecting tree with the same text |
| ExpressionLowering.ExpressionPrinter.Visit | CompilerSource/parsing/pretty_printer.cpp:283-293 | visiting an expression adds exactly its lowered text to the output |
| ExpressionLowering.ExpressionPrinter.VisitParenthetical | CompilerSource/parsing/pretty_printer.cpp:274-281 | the user's own parentheses are kept around the lowered text inside |
| ExpressionLowering.ExpressionPrinter.VisitBinaryExpression | CompilerSource/parsing/pretty_printer.cpp:343-387 | operands are added flat around the operator; `:=` becomes `=`, a comparing `=` becomes `==` and a divisor is cast to double |
| ExpressionLowering.LoweredTextPrintsLowered | CompilerSource/parsing/pretty_printer.cpp:343-387 | the changed text is the flat text of the tree changed in place |
| ExpressionMeaning.LoweringMeans | CompilerSource/parsing/pretty_printer.cpp:358-372 | changed in place, every expression evaluates in C++ to what it does in EDL, side effects included: `=` compares off a statement's root and `/` divides as numbers |
| ExpressionMeaning.LoweredTextMeans | CompilerSource/parsing/pretty_printer.cpp:358-372 | so does what its printed text groups to, when the changed expression needs no parentheses |
| ExpressionMeaning.ProgramValuesMean | CompilerSource/parsing/pretty_printer.cpp:343-387 | and so does such a value in the text of a whole program |
| ExpressionMeaning.QuarterNeedsCast | CompilerSource/parser/semantics.cpp:30-32 | 1/4 is 0.25 in EDL and printed with the cast, and 0 without it |
| ExpressionLowering.CastMeansTree | CompilerSource/parsing/pretty_printer.cpp:366-372 | where no `=` compares, the text means the tree with every divisor cast whole if and only if every divisor is unary or tighter |
| DivisorCasts.CastCoversDivisorExactly | CompilerSource/parsing/pretty_printer.cpp:359-372 | whatever its `=` are lowered to, the text groups to a tree in which every divisor is a cast of all of it if and only if every divisor was unary or tighter |
| ExpressionLowering.CastMissesMemberPointer | CompilerSource/parsing/pretty_printer.cpp:366-372 | `a / b .* c` casts only `b`, against the comment that no divisor is looser |
| ExpressionLowering.RegroupKeepsLoosest | CompilerSource/parser/semantics.cpp:33-35 | regrouping a flat text keeps the loosest operator outside parentheses |
| ExpressionLowering.AssignmentStaysRoot | CompilerSource/parser/semantics.cpp:29-43 | with every other `=` printed as `==` and regrouped, a root `=`, `:=` or compound assignment is still the root, its target what the target's text groups to and its value what all text after it groups to |
| ExpressionLowering.UnchangedTargetStays | CompilerSource/parser/semantics.cpp:33-41 | a target in which nothing is lowered is the very same tree after regrouping |
| Annotation.SemanticAnnotator.MarkStatement | CompilerSource/parser/semantics.cpp:45-50 | a node is added to the statement-position set only when it is there and is an `=` |
| Annotation.SemanticAnnotator.MarkStatements | CompilerSource/parser/semantics.cpp:52-83 | each holder marks exactly its own statement-position `=` children |
| Annotation.SemanticAnnotator.VisitBinaryExpression | CompilerSource/parser/semantics.cpp:29-43 | only `/` is flagged for real division, and only an unmarked `=` under GML rules for lowering |
| Annotation.SemanticAnnotator.RecordLocals | CompilerSource/parser/semantics.cpp:124-139 | exactly the plain, named declarators of a class type other than var and variant become class-typed locals |
| Annotation.PresetChangesItsNameOnly | CompilerSource/parser/semantics.h:55-60 | a name declared before the walk is member access wherever it stands left of a dot, global and local excepted; no other access and no lowering changes |
| Annotation.SemanticAnnotator.ClassifyAccess | CompilerSource/parser/semantics.cpp:147-169 | a dot access gets the kind its left name has among the locals known now; nothing else is touched |
| Annotation.SemanticAnnotator.Walk | CompilerSource/parsing/ast.h:141-146 | the stateful walk of a subtree leaves what folding the pure step over its pre-order leaves, and marks only its own descendants |
| Annotation.SemanticAnnotator.VisitNodes | CompilerSource/parser/semantics.cpp:178-187 | a fresh annotator leaves exactly what the pure function of the tree says |
| Annotation.WalkMeetsEachNodeOnce | CompilerSource/parsing/ast.cpp:70-96 | the walk meets every node of an owned tree exactly once |
| Annotation.FlagsOfNode | CompilerSource/parser/semantics.cpp:29-43 | a node's flags, for lowered equals, for real division and for its access, come from its own visit, with the names known before it, and no later visit changes them |
| AnnotatedPrinting.HeldExpressionPrints | CompilerSource/parser/semantics.cpp:52-83 | printed from the flags of the walk, child k of any node is its lowered text, with its own `=` assigning if it stands at statement position there and comparing if not |
| AnnotatedPrinting.FlagsPrintLowered | CompilerSource/parsing/pretty_printer.cpp:358-372 | wherever an expression stands in annotated code, the flags on its nodes make the printer write exactly the lowered text for that position |
| AnnotatedStatements.RolesArePrinted | CompilerSource/parser/semantics.cpp:52-83 | wherever code stands in an annotated tree, each condition is printed with every `=` comparing, and each branch, loop body, first and last part of a for, and block statement that is an expression with its root `=` assigning |
| AnnotatedStatements.ProgramRolesArePrinted | CompilerSource/parser/semantics.cpp:178-187 | under GML equals this holds for a whole piece of code |
| Annotation.LoweredExactlyOffStatement | CompilerSource/parser/semantics.cpp:29-83 | with GML equals on, a node is lowered if and only if it is `=` and not a statement-position child |
| Annotation.MemberExactlyAfterDeclaration | CompilerSource/parser/semantics.cpp:124-169 | a dot on a name other than global and local is member access if and only if the name was preset or a plain class-typed declaration of it came earlier in the walk |
| Annotation.AccessKindsExactly | CompilerSource/parser/semantics.cpp:147-169 | a dot access is global or local by those names alone, shared when its field is a shared local and it is neither these nor member access, and variable access in every other case |
| DeclaratorText.GetFullType | CompilerSource/parser/collect_variables.cpp:95-144 | the loop over the stack yields the inside-out spelling, pointers and references parenthesised before a bound, the name innermost |
| DeclaratorRoundTrip.SpellParses | CompilerSource/parser/collect_variables.cpp:100-143 | read as a declarator, the spelled stack reaches its own tree with any following bounds still to read |
| DeclaratorRoundTrip.TreeWalks | CompilerSource/parsing/ast.cpp:198-270 | walking that tree gives the stack back, and fails exactly when two references are adjacent |
| DeclaratorRoundTrip.DeclaratorsRoundTrip | CompilerSource/parsing/ast.cpp:198-270 | every spelled stack parses; walking the result gives the same stack if and only if no two references are adjacent |
| DeclaratorRoundTrip.TwoReferencesAreRejected | CompilerSource/parsing/ast.cpp:220-226 | two references are spelled `&&`, which the walk refuses |
| DeclaratorRoundTrip.WalkKeepsType | CompilerSource/parsing/ast.cpp:198-270 | the walked stack stands for the type the declarator gives its name by section 11.3 |
| DeclaratorRoundTrip.DeclaratorTextMeansStack | CompilerSource/parser/collect_variables.cpp:64-145 | the text of a stack declares its name with the type the stack stands for |
| DeclaratorSplit.Find | CompilerSource/parser/collect_variables.cpp:218 | the position found is the first occurrence, and none is reported only when there is none |
| DeclaratorSplit.SplitDeclarator | CompilerSource/parser/collect_variables.cpp:216-227 | for a declared name the prefix and suffix are the texts left and right of it; without one the suffix is everything |
| DeclaratorSplit.NameFirst | CompilerSource/parser/collect_variables.cpp:218 | searching the declarator text for the name finds the declared name itself, never an earlier occurrence |
| DeclaratorSplit.PartsRejoin | CompilerSource/parser/collect_variables.cpp:216-227 | prefix, name and suffix rejoin to the text exactly when the stack is not empty; otherwise only the trailing blank is missing |
| DeclaratorSplit.BlankIsLost | CompilerSource/parser/collect_variables.cpp:216-227 | `x ` without modifiers is split into two empty parts around `x` |
| Literals.VisitLiteral | CompilerSource/parsing/pretty_printer.cpp:211-272 | a literal is printed as its delimiter, the escaped bytes and the delimiter; a character literal of several bytes as a string |
| Literals.OctalEscapeReads | CompilerSource/parsing/pretty_printer.cpp:211-272 | a three-digit octal escape is read as its byte and never takes in a digit after it |
| Literals.BodyReads | CompilerSource/parsing/pretty_printer.cpp:211-272 | the printed body holds no unescaped delimiter: reading goes through all of it, gives its bytes and stops at the text after it |
| Literals.LiteralsRoundTrip | CompilerSource/parsing/pretty_printer.cpp:211-272 | every printed literal is read back with its kind and value, if and only if it is not the empty character literal |
| Literals.EmptyCharacterIsNoLiteral | CompilerSource/parsing/pretty_printer.cpp:211-272 | that one is printed as two quotes, which are read as nothing |
| Literals.QuoteString | CompilerSource/parsing/macros.cpp:37-51 | stringifying escapes exactly what a string literal needs, byte by byte |
| Literals.QuotedRoundTrips | CompilerSource/parsing/macros.cpp:37-51 | a stringified text is one string literal whose value is that text |
| Macros.ComponentizeToken | CompilerSource/parsing/macros.cpp:91-161 | one turn of the loop adds what the pure step adds and keeps "the last component is a paste" in step with "the pending span starts after ##" |
| Macros.Componentize | CompilerSource/parsing/macros.cpp:84-166 | an error-free list reports no error and compiles to its components |
| Macros.AppendOrPaste | CompilerSource/parsing/macros.cpp:191-205 | tokens are appended, the first pasted onto the last only when both sides have one |
| Macros.SubstituteAndUnroll | CompilerSource/parsing/macros.cpp:207-298 | executing components within bounds puts out what the pure run of them puts out, missing arguments being empty |
| Macros.StringifyTokens | CompilerSource/parsing/macros.cpp:207-298 | the argument's token texts become one quoted string literal |
| MacroMeaning.StringArgReads | CompilerSource/parsing/macros.cpp:255-260 | # puts out one string literal, which reads as the spellings of the argument's tokens in their order |
| MacroMeaning.SpansAreDisjoint | CompilerSource/parsing/macros.cpp:84-166 | the token spans of a compiled list are not empty, in bounds, in order and disjoint |
| MacroMeaning.ComponentsInBounds | CompilerSource/parsing/macros.h:59-99 | every span of a compiled macro may be cut from its list |
| MacroMeaning.CompiledMacroMeansSubstitution | CompilerSource/parsing/macros.cpp:207-298 | the compiled macro puts out what sections 19.3.1 to 19.3.3 substitute if and only if no ## chain starts empty after output and still yields tokens |
| MacroMeaning.NoEmptyLeftIsEnough | CompilerSource/parsing/macros.cpp:207-298 | that condition holds whenever no parameter left of ## has an empty argument |
| MacroMeaning.EmptyLeftIsPastedAcross | CompilerSource/parsing/macros.cpp:191-205 | for `p x ## y` with an empty x the standard has p and y's argument, the compiled macro something else |
| LexerSpec.ArgumentsConserved | CompilerSource/parsing/lexer.cpp:540-571 | a closed call has at most max(1, parameters) arguments, each parenthesis-balanced, and rejoining them with commas gives the tokens between the parentheses if and only if the macro is variadic or those have fewer commas of their own than that |
| LexerSpec.CommaIsLost | CompilerSource/parsing/lexer.cpp:555-566 | `(a,b)` for one parameter is the single argument `a b` |
| CallMeaning.CallsMeanSubstitutionExactly | CompilerSource/parsing/lexer.cpp:569-574 | a closed call is replaced by what sections 19.3.1 to 19.3.3 substitute, for every way of expanding arguments that leaves lists without macro names alone, if and only if no ## chain starts empty and no argument used outside # and ## holds a macro name |
| CallMeaning.SubstitutionsAgree | CompilerSource/parsing/macros.cpp:207-298 | substitution depends on expanded arguments only where a parameter stands beside no # and no ## |
| CallMeaning.SubstitutionGrows | CompilerSource/parsing/macros.cpp:207-298 | every longer expansion of such an argument shows in the result |
| CallMeaning.ArgumentMacroStays | CompilerSource/parsing/lexer.cpp:569-574 | `F(G)` for `F(a)` defined as `a` yields the macro name G itself |
| LexerSpec.ArgumentsAreNotExpanded | CompilerSource/parsing/lexer.cpp:570-572 | preprocessing an argument on its own returns it unchanged, macro names included |
| StreamConservation.PiecesRender | CompilerSource/parsing/lexer.cpp:613-628 | the stream is, in order, the tokens put out, identifiers translated, and for each macro use met the list of an object-like macro or what the call is unrolled to |
| StreamConservation.ObjectMacroIsItsValue | CompilerSource/parsing/lexer.cpp:581-582 | wherever the name of an object-like macro stands, its list is put out and reading goes on after it |
| StreamConservation.EveryTokenIsKeptExactly | CompilerSource/parsing/lexer.cpp:534-628 | every token of the code is put out or part of one macro use, once and in order, if and only if every function-like macro name that is read begins a closed call |
| StreamConservation.NameWithoutCallLosesTwo | CompilerSource/parsing/lexer.cpp:540-585 | of `F x` neither token is kept |
| StreamConservation.UnclosedCallLosesName | CompilerSource/parsing/lexer.cpp:575-579 | of a call that is never closed the name is lost and the parenthesis is read on |
| LexerStream.Lexer.PushMacro | CompilerSource/parsing/lexer.cpp:279-281 | a buffer is opened only when none is, so at most one is ever open |
| LexerStream.Lexer.PopMacro | CompilerSource/parsing/lexer.cpp:276-278 | closing the buffer leaves none open |
| LexerStream.Lexer.ReadRawToken | CompilerSource/parsing/lexer.cpp:383-532 | the next raw token is taken, or the end marker without moving |
| LexerStream.Lexer.CollectArguments | CompilerSource/parsing/lexer.cpp:544-567 | the argument loop gives the arguments of the call and stops after its closing parenthesis, or reports that there is none |
| LexerStream.Lexer.PreprocessBuffer | CompilerSource/parsing/lexer.cpp:283-288 | a lexer over a buffer returns its tokens up to an end marker |
| LexerStream.Lexer.PreprocessArguments | CompilerSource/parsing/lexer.cpp:570-572 | each argument is preprocessed by itself |
| LexerStream.Lexer.HandleMacro | CompilerSource/parsing/lexer.cpp:534-585 | true exactly for macro names; then what remains to be read is the use's replacement followed by the rest of the code |
| LexerStream.Lexer.NextBuffered | CompilerSource/parsing/lexer.cpp:614-621 | an unread buffer token is the head of what remains, and fewer are left |
| LexerStream.Lexer.ReadToken | CompilerSource/parsing/lexer.cpp:613-628 | the token read is the head of the batch expansion of what is left; (unread code, unread buffer tokens) decreases |
| LexerStream.Lexer.ReadAll | CompilerSource/parsing/lexer.cpp:613-628 | reading until the end marker ends, and yields the whole batch expansion, each macro use replaced once |
| TokenTries.TokenTrie.Get | CompilerSource/parsing/lexer.cpp:34-39 | maximal munch: the longest stored key at the position with its type, or an error and the same position when none is stored there |
| TokenTries.TokenTrie.Put | CompilerSource/parsing/lexer.cpp:40-47 | the stored keys change at this key only, whatever nodes it shares with others |
| TokenTries.TokenTrie.GrowChildren | CompilerSource/parsing/lexer.cpp:45 | giving a node its 256 children stores and loses no key |
| TokenTries.TokenTrie.StoreBelow | CompilerSource/parsing/lexer.cpp:46-48 | storing below one child leaves the other children and the node itself unchanged |
| TokenTries.FromPairs | CompilerSource/parsing/lexer.cpp:53-55 | a trie from a list holds each key with its last type and nothing else |
| TokenTries.LookUpOperator | CompilerSource/parsing/lexer.cpp:322-326 | succeeds exactly on stored keys, with their type |
| BuildLog.FramesConserveText | CommandLine/emake/EnigmaCallbacks.cpp:75-94 | the finished messages, a newline after each, and the buffered rest are the text given if and only if no call was given the empty text |
| BuildLog.EmptyTextEndsLine | CommandLine/emake/EnigmaCallbacks.cpp:79-83 | one call with the empty text makes a message of it |
| BuildLog.StepKeepsInvariant | CommandLine/emake/EnigmaCallbacks.cpp:29-94 | every single access of either thread keeps the invariant, and the log does not change while the iterator is live |
| BuildLog.NothingLostOrReordered | CommandLine/emake/Server.cpp:42-60 | the invariant holds after every interleaving: delivered then pending messages are the appended ones in order |
| BuildLog.EveryRunDelivers | CommandLine/emake/Server.cpp:42-60 | from the start, the written and pending messages are the appended sequence whenever the loop is at its head, where it does not hold the mutex |
| BuildLog.CallBack.AppendFrame | CommandLine/emake/EnigmaCallbacks.cpp:75-94 | an uninterrupted call is a run of the protocol: it buffers its text or appends the finished line as one message, and leaves the mutex free |
| BuildLog.CallBack.ProcessOutput | CommandLine/emake/EnigmaCallbacks.cpp:53-69 | a line that is not empty is appended under the mutex, an empty one is dropped |
| BuildLog.CallBack.GetFirstLogMessage | CommandLine/emake/EnigmaCallbacks.cpp:29-35 | the first message, with the mutex kept locked exactly when there is one |
| BuildLog.CallBack.GetNextLogMessage | CommandLine/emake/EnigmaCallbacks.cpp:37-46 | the iterator moves on by one message and reports the end exactly after the last |
| BuildLog.CallBack.ClearLogMessages | CommandLine/emake/EnigmaCallbacks.cpp:48-51 | the log is emptied and the mutex freed once all of the log is in the reply |
| BuildLog.CallBack.Drain | CommandLine/emake/Server.cpp:53-57 | the inner loop ends with the whole log, in order, in the reply |
| BuildLog.CallBack.ReplyTurn | CommandLine/emake/Server.cpp:42-60 | an uninterrupted turn writes the log and the new output line, leaves nothing pending and does not hold the mutex |
| BuildLog.NeverStuck | CommandLine/emake/Server.cpp:42-60 | no deadlock and no read past the log: the holder of the mutex can go on, and while nobody holds it every unfinished thread can |
| GmkTables.ShufflePermutes | CommandLine/libEGM/gmk.cpp:397-413 | after any number of swaps the table is a permutation of the bytes that leaves 0 in place |
| GmkTables.MakeEncodeTable | CommandLine/libEGM/gmk.cpp:397-413 | for every non-negative 32-bit seed the loop ends in the seed's table with no index out of range and no int overflow |
| GmkTables.TableIsTenThousandSwaps | CommandLine/libEGM/gmk.cpp:397-413 | every byte stands in the table of a seed where ten thousand swaps of neighbours, placed by the seed, have carried it |
| GmkTables.MakeDecodeTable | CommandLine/libEGM/gmk.cpp:415-421 | the decode table undoes any permutation, on both sides |
| GmkDecoder.BlockReadsAreSingleReads | CommandLine/libEGM/gmk.cpp:250-271 | decoding n bytes as a block gives what n single reads give, with or without a table |
| GmkDecoder.CipherIsInvertible | CommandLine/libEGM/gmk.cpp:364-369 | at every place, every byte sequence is read from exactly one stored sequence, the one the seed's table encodes |
| GmkDecoder.Decoder.SetSeed | CommandLine/libEGM/gmk.cpp:364-369 | a negative seed switches decoding off, any other installs the inverse of its table; the read position stays |
| GmkDecoder.Decoder.Read | CommandLine/libEGM/gmk.cpp:219-231 | one byte from the file or the inflated buffer, decoded by its place in the file, and the position moves by one; at the end of an undecoded file -1 |
| GmkDecoder.Decoder.ReadBlock | CommandLine/libEGM/gmk.cpp:256-271 | the first bytes of the buffer are those of as many single reads, the rest is unchanged, and the position moves past them |
| GmkDecoder.Decoder.DecodeInPlace | CommandLine/libEGM/gmk.cpp:265-271 | decoding in place touches exactly the bytes read |
| DragActions.NextSpan | CommandLine/libEGM/action.cpp:79-118 | spans leave no gap: the next starts just after the last action of this one, or on it when that ends a block, and a span without an end is the last |
| DragActions.SpanShapes | CommandLine/libEGM/action.cpp:79-118 | a block is one span with the first end action after its begin, or all that is left; another action without a body is its own span |
| DragActions.ElseIsTakenExactly | CommandLine/libEGM/action.cpp:85-97 | the else right after the body of a question is in its span if and only if the body ends with the end of a block or a second else follows |
| DragActions.Translator.GetNextAction | CommandLine/libEGM/action.cpp:79-118 | the recursive search with its moving index finds that span |
| DragActions.Translator.PushIfRequired | CommandLine/libEGM/action.cpp:124-145 | afterwards the scope on top is the action's target; a `with` is emitted and a target pushed exactly when it was not already |
| DragActions.Translator.Question2Code | CommandLine/libEGM/action.cpp:153-207 | a question emits its block, counts its if, and restores the target stack |
| DragActions.Translator.Switch | CommandLine/libEGM/action.cpp:221-289 | one action emits its code and counts braces and ifs, ignoring an end or else that answers nothing |
| DragActions.Translator.Action2Code | CommandLine/libEGM/action.cpp:210-299 | a span emits its actions in order within its target's scope, and restores the target stack |
| DragActions.Translator.Actions2Code | CommandLine/libEGM/action.cpp:301-329 | the loop translates span after span to the whole program and leaves the target stack empty |
| DragActions.SpanKeeps | CommandLine/libEGM/action.cpp:153-299 | through the mutual recursion, the emitted code takes brace depth and open ifs from the counters before to the counters after, neither below zero on the way |
| DragActionReading.SpanSays | CommandLine/libEGM/action.cpp:153-299 | the code of a span reads as what its actions ask for and for whom, in front of any code: target, operator and value, counts, names and arguments in order, negation and relative flag |
| DragActionReading.ProgramSays | CommandLine/libEGM/action.cpp:301-329 | the whole program reads as what the list asks for, with its blocks, questions, scopes and declaration |
| DragActionReading.ProgramFulfilsWishes | CommandLine/libEGM/action.cpp:301-329 | blocks, elses and scopes aside, the program says what the actions the spans reach ask for, each once and in their order |
| DragActionReading.ElseLeavesItsIf | CommandLine/libEGM/action.cpp:85-97 | of question, action, else, action the else is put out after the brace that closes the if |
| DragActions.ProgramsAreBalanced | CommandLine/libEGM/action.cpp:301-329 | for every list of brace-balanced texts the program's braces balance, no prefix has more elses than ifs, and `__if__` is declared if and only if some if has no else |
| DragActions.AnsweredIfsAreUndeclared | CommandLine/libEGM/action.cpp:324-325 | `__if__` is not declared if and only if the actions the spans reach leave no question without an else; it is then assigned undeclared if and only if some action they reach asks |
| DragActions.SpanTells | CommandLine/libEGM/action.cpp:210-299 | the code of a span has an if if and only if one of its actions asks, and the count of open ifs moves by its questions and elses |
| DragActions.QuestionWithElseIsUndeclared | CommandLine/libEGM/action.cpp:324-325 | a question and an else make a program that assigns `__if__` undeclared |
| DragActionText.DepthSplits | CommandLine/libEGM/action.cpp:153-329 | brace depth of joined texts is the depth of the second from where the first ends |
| DragActions.DepthIsNeverNegative | CommandLine/libEGM/action.cpp:153-329 | in text that never goes below depth zero no prefix closes more braces than it opens, and the totals differ by the depths |
| DragActions.ElsesNeverExceedIfs | CommandLine/libEGM/action.cpp:231-236 | no prefix of the code has more elses than ifs |
| ResourceIds.IdsAreDistinctExactly | CommandLine/libEGM/egm-read.cpp:525-610 | after the repair pass the ids of each kind are distinct if and only if no preset id is among those given out |
| ResourceIds.BoundedPresetsAreRepaired | CommandLine/libEGM/egm-read.cpp:525-616 | presets no higher than the highest recorded end up distinct, first holders keep theirs, and the new highest bounds all |
| RepairPass.FreshStep | CommandLine/libEGM/egm-read.cpp:591-606 | a resource with a missing or recorded id gets the next one above the highest, and every earlier one keeps its own |
| RepairPass.KeptStep | CommandLine/libEGM/egm-read.cpp:599-607 | a resource whose id is not recorded keeps it, and it is recorded |
| RepairPass.SanityCheck.CheckOne | CommandLine/libEGM/egm-read.cpp:534-607 | the loop body advances ids, highest ids and recorded ids by exactly this resource |
| RepairPass.SanityCheck.RecursiveResourceSanityCheck | CommandLine/libEGM/egm-read.cpp:525-610 | the recursion sees to the resources below a node in order, a folder's before what follows it, and to no others |
| RepairPass.SanityCheck.ResourceSanityCheck | CommandLine/libEGM/egm-read.cpp:612-616 | from bounded presets all ids of a kind are distinct, first holders keep theirs, and the highest ids stay bounds |
| ProjectLoader.Loader.LoadResource | CommandLine/libEGM/egm-read.cpp:392-434 | a new message gets the id, a negative one only if it is a script, shader or timeline |
| ProjectLoader.Loader.LoadTree | CommandLine/libEGM/egm-read.cpp:440-478 | the node holds the entries after the last one of an unsupported type, with their ids, and is unknown when that was the last; the highest ids bound all it holds |
| ProjectLoader.TreeFilesAreMirroredExactly | CommandLine/libEGM/egm-read.cpp:458-474 | what is loaded mirrors the tree file entry by entry if and only if no folder level holds an unsupported type |
| ProjectLoader.IncludeLosesSprite | CommandLine/libEGM/egm-read.cpp:471-474 | a sprite listed before an include is not in the project |
| ProjectLoader.Loader.LoadDirectory | CommandLine/libEGM/egm-read.cpp:486-522 | every file and directory has its node, an empty directory no type, and the ids of each kind count up in the order of loading from the highest before |
| ProjectLoader.Loader.LoadProject | CommandLine/libEGM/egm-read.cpp:618-647 | however a project is loaded and whatever was loaded before, the resources that are kept have different ids within one kind, first holders the ids they were loaded with |
| QuotedStrings.EscapeString | CommandLine/libEGM/serialization-helpers.cpp:118-126 | a backslash goes before each backslash and quote, nothing else changes |
| QuotedStrings.ReadEscape | CommandLine/libEGM/serialization-helpers.cpp:166-210 | an escape is read as its character and takes as many characters as it has, a third octal digit only while the value is a byte |
| QuotedStrings.ReadQuotedString | CommandLine/libEGM/serialization-helpers.cpp:158-215 | reading stops at the closing quote or the end of the data, with the string decoded up to there |
| QuotedStrings.ReaderUndoesWriter | CommandLine/libEGM/serialization-helpers.cpp:158-215 | for every string, quote and following text, the escaped string is read back with the place of its closing quote if and only if the quote is `"` or `'`, or is not in the string and, when it is a backslash, the string has nothing to escape |
| QuotedStrings.KnownIsDecoded | CommandLine/libEGM/serialization-helpers.cpp:166-203 | every escape the reader knows gives the character of its code, simple, octal or hexadecimal, and takes its digits |
| QuotedStrings.ReaderDecodesExactly | CommandLine/libEGM/serialization-helpers.cpp:158-215 | the text up to the closing quote comes out with its escapes decoded, or kept as they are written, if and only if every escape in it is known |
| QuotedStrings.UnknownEscapeRepeats | CommandLine/libEGM/serialization-helpers.cpp:206-210 | `\q` gives its letter twice |
| SvgText.TokenizeSVGD | CommandLine/libEGM/svg-d.cpp:569-613 | the index loop yields the tokens of the text |
| SvgText.NextToken | CommandLine/libEGM/svg-d.cpp:571-611 | one turn of the loop moves on and yields the first token, or none for a separator |
| SvgText.TokensOfInt | CommandLine/libEGM/svg-d.cpp:569-613 | a printed integer not followed by a digit or point is one token, sign included |
| SvgText.StrtodOfInt | CommandLine/libEGM/svg-d.cpp:337-341 | a printed integer is read as its value |
| SvgText.MagnitudeIsDecimal | CommandLine/libEGM/svg-d.cpp:337-341 | digits, a point and digits are read as all the digits divided by ten for each after the point |
| SvgText.SignificantIsNearest | CommandLine/libEGM/svg-d.cpp:241-249 | six digits and an exponent are the nearest such number to the one printed, the even one of two |
| SvgText.TokensOfPrinted | CommandLine/libEGM/svg-d.cpp:569-613 | a number printed with six significant digits is one token without an exponent and three with one, sign included |
| SvgText.StrtodOfNumber | CommandLine/libEGM/svg-d.cpp:337-341 | the first of those tokens is read as the number if and only if it has no exponent |
| SvgMoves.SVGDComponentMove | CommandLine/libEGM/svg-d.cpp:241-249 | no longer than the absolute or the relative command, and one of them |
| SvgMoves.SVGDMove | CommandLine/libEGM/svg-d.cpp:251-274 | no longer than the absolute, the relative or the component-wise text |
| SvgMoves.Instance.ReadValues | CommandLine/libEGM/svg-d.cpp:373-388 | the numbers the tokens start with, up to the count asked for |
| SvgMoves.Instance.HandleSingle | CommandLine/libEGM/svg-d.cpp:398-409 | one number moves its coordinate, absolutely or by that much; without one nothing changes |
| SvgMoves.Instance.HandleCoordinate | CommandLine/libEGM/svg-d.cpp:422-438 | as many coordinates move as there are numbers, at most three |
| SvgMoves.Instance.Interpret | CommandLine/libEGM/svg-d.cpp:722-742 | the command loop ends where the pure run over the tokens ends |
| SvgMoves.MoveIsRead | CommandLine/libEGM/svg-d.cpp:251-274 | for every whole coordinates, the text of the move takes the reader to where its numbers up to an exponent lead, and the text after it is read from there |
| SvgMoves.MovesLandExactly | CommandLine/libEGM/svg-d.cpp:251-274 | reading a move from the position before lands on the position asked for if and only if the shortest text has no number of seven digits or more |
| SvgMoves.MillionIsReadAsOne | CommandLine/libEGM/svg-d.cpp:241-249 | a move to 1000000 is printed as `X 1e+06` and read as a move to 1 |
| SvgMoves.MovesLandOnTarget | CommandLine/libEGM/svg-d.cpp:251-274 | after a move whose text has no such number, the text that follows is read from the position asked for |
| SvgMoves.PathsAreFollowed | CommandLine/libEGM/svg-d.cpp:251-274 | moves written one after the other, each from the last position and with no such number, lead along any path to its end |
| SvgMoves.PathsAreVisitedExactly | CommandLine/libEGM/svg-d.cpp:251-274 | they lead through every position of the path if and only if none of them prints such a number |

## Left out

- The recursive-descent parser of EDL as a whole: only how expressions climb the precedence table and how an else attaches are modelled.
- JDI definitions, clang traversal, protobuf reflection, YAML, XML, JSON, zlib, PNG, gRPC, processes and file access are foreign calls or plumbing.
- Expressions: operands are opaque leaves, so calls, subscripts and member access do not group; `xor` is left out, whose levels differ between the two languages; the parser takes only an `||` expression between `?` and `:` while C++ takes any.
- Expressions are tokens, not characters: adjacent prefix operators are printed unseparated.
- FlatStatements.FlatProgramParses: is about what the text groups to; what a value's tree evaluates to is the matter of ExpressionMeaning, and a comma ends the only declarator read.
- ExpressionMeaning.LoweringMeans: the operators the printer leaves alone are given their meaning from outside; assignments and steps are to plain names, and dividing by zero has no value.
- AnnotatedPrinting.FlagsPrintLowered: is about GML equals switched on; an expression's leaves are any nodes but binary expressions, with their text.
- StatementLowering.TextParses: for, switch and with statements, `break N`, `continue N`, lambdas and templates are not part of the statement language.
- LoweringMeaning.LoweringPreservesMeaning: repeat counts outside 0 to INT_MAX are set apart as an outcome of their own.
- LoweringMeaning.RepeatMeansCountExactly: is about bodies without break; the int overflow at the end of the countdown counts as not ending.
- StatementLowering.CommaCountIsSplit: the second variable shadows one of the program's, without a value; what the loop then does is left open.
- StatementText.Printer.PrintSemicolon: for, switch, case, default and with nodes are not part of the statement language.
- Annotation: flags are sets of node numbers instead of fields of shared nodes; argument counts (`validate_call`) are left out.
- DeclaratorText.GetFullType: specifier flags, functions and member pointers are left out; a short name can occur inside a flag word.
- DeclaratorText.GetFullType: the stack is a sequence from the name outward instead of a linked `ref_stack`, and the walk returns it instead of filling an out-parameter.
- Literals: universal character names, raw strings and hexadecimal escapes of the standard are not read, since the printer never writes them.
- Macros.Componentize: says nothing about `__VA_OPT__` and lists with an error, which the code does not treat uniformly.
- CallMeaning.CallsMeanSubstitutionExactly: of expanding an argument it takes only that lists without macro names stay as they are; rescanning (19.3.4) is left out.
- MacroMeaning.CompiledMacroMeansSubstitution: takes the expanded arguments as given; the calls of the lexer are the matter of CallMeaning.
- LexerSpec.ArgumentsAreNotExpanded: when the unchanged argument is the one 19.3.1 asks for is the matter of CallMeaning.
- Macros: pasting two tokens is a parameter, blanks never reach a buffer because the raw lexer skips them, and stringified tokens are joined without blanks as the code does.
- LexerStream.Lexer.ReadRawToken: raw tokens are given as a sequence; the character-level scanner, line numbers and `__VA_OPT__` are left out.
- LexerStream.Lexer.HandleMacro: pasting that would make an end marker token ends the buffer in the model as in the code, and is not excluded.
- BuildLog: interleavings are runs of steps on values; the contracts of the callback object are for calls nobody interrupts. Reading `empty()` without the lock is one step; one `CompileBuffer` call at a time; messages pending when the loop exits stay pending.
- GmkDecoder.Decoder.Read: asks for a byte to be there when a table or an inflated buffer is read, since the code then reads past their end.
- GmkDecoder.Decoder.ReadBlock: asks for all its bytes to be there; the offset into the buffer is 0, as in every call; inflating is left out.
- GmkTables.MakeDecodeTable: asks for a permutation, which every encode table is.
- DragActions: what `Argument2Code` makes of an argument is given with it; an else is looked for only where an action is (the code also looks one past the end); an action read past the end of the list is a parameter.
- DragActionReading.ProgramSays: the texts of the actions are none of the fixed texts between them; the reader takes the pieces as they are put out, not single characters.
- DragActions: nested blocks end at the first end action, as in the code, so nesting is not claimed to be faithful.
- ResourceIds: `++maxID` does not overflow; names are kept only for the warnings.
- DeclaratorSplit.SplitDeclarator: flag words in front of the declarator are left out.
- ProjectLoader.Loader.LoadDirectory: is given the directory as its sorted set holds it, which keeps one entry of each stem.
- ProjectLoader.Loader.LoadResource: a resource whose files are missing, and everything loaded besides the id, are left out.
- QuotedStrings: characters stand for bytes.
- SvgText.StrtodOfInt: exponents within a token, hexadecimal numbers, infinities and NaNs, which only a quoted string could bring, are not read as numbers.
- SvgMoves.SVGDMove: coordinates are whole numbers that a double holds exactly, and so are their differences; a stream prints a number up to its sixth digit, so fractions round.
- SvgMoves.SVGDComponentMove: coordinates are whole numbers, as for SvgMoves.SVGDMove.
- SvgMoves.Instance.Interpret: passes over commands other than the eight position commands.
- SvgMoves.MovesLandOnTarget: a number right after the move would be taken as its z, so the text after it starts with none.
- SvgMoves: commands other than the eight position commands, the `L` and `C` commands and the line finding are left out.
- Drag-and-drop, SVG-d and id repair write warnings to the error stream; those are left out.
