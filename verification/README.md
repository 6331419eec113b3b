# A verified model of promate

promate lets Graphite clients query a Prometheus-compatible database. Three of
its parts carry the logic, and this project models them in Dafny and proves
what they promise.

**The query language (`mateql/`).** A query runs through a lexer object that
can step back one token at a time, a recursive-descent parser on top of it, the
expansion of WITH definitions, the removal of parens, the folding of constants,
and a printer.

- `Text`, `Syntax`, `Library`: characters and numerals, the expression trees and
  the tree-wide properties of the passes, and the standard library functions
  that stay abstract.
- `Scan`, `Ident`, `Lexing`, `Tokenizing`: the scanners as loops over the text, the
  escaping of identifiers, the lexer object against one straight pass over the
  text, and exactly which tokens that pass finds.
- `Grammar`, `Parser`: what the parser recognises, as functions on the tokens
  that are left, and the parser object with its methods, each of which reads
  exactly what the function of the same name says.
- `Forms`, `Accepted`, `Recognised`: the written forms of the language with their
  tokens and trees, and the proof that the grammar accepts exactly these.
- `Operators`, `BinaryNodes`: the tree rotation that replaces a precedence
  grammar, against a precedence-climbing parse and the documented table of
  operators, and the same rotation on heap nodes.
- `Filters`, `Expansion`, `Selectors`, `Hygiene`, `Defaults`, `DefaultTexts`: removal
  of repeated filters, the WITH expander, what names stand for in selectors and
  strings, its comparison with evaluation by value, and the definitions every
  query sees with the tokens of their texts.
- `Substitution`, `Reexpansion`, `TwiceExpanded`: what a call of a definition
  means, exactly when expanding an argument again changes it, and a query whose
  result is not that of evaluation by value.
- `Normalize`, `Meaning`, `ParseShape`, `Pipeline`, `Query`: the passes after
  expansion and that they keep the meaning, what the parser guarantees the
  expander, and Parse as a whole.
- `Lexicon`, `Printer`, `RoundTrip`, `Reading`: the printer, and the proof that
  parsing undoes it.
- `Written`, `TextRoundTrip`: the text that is printed, character by character, and
  the proof that Parse of this text returns the tree.
- `Limits`, `Survival`: exactly which printed trees are parsed as intended, and
  which of these survive the whole of Parse.

**The time grid of the render handler (`cmd/matecarbon/`).** `Grid` models the
choice of the step, the loops that put sparse samples on a grid, and the
trimming and padding that make series line up with the request.

**Paths and labels (`prometheus/`, `cmd/mateinsert/`).** `Glob`, `Regex` and
`GlobMeaning` model the translation of globs to regular expressions and give
both sides a meaning; `Paths` models the writer that explodes a path into
numbered labels, the selector a query becomes, and the path rebuilt from
labels; `Rewrite` models the pass that applies this inside a query, and `Sharing`
the same pass on heap nodes that occur more than once in a tree.

Code that changes state is modelled by classes and methods with loops, proved
against functions; what is promised is then proved about those functions.
`Outcome` (`Ok`, `Err`, `Bug`) tells an error from a panic, and no operation
returns `Bug`. Where a promise does not hold of the code for all inputs, the
table names the lemma that gives the exact condition or an input for which it
fails.

Eight things the proofs show about the code: a bare `*` at the end of a query
adds no filter, so a path that ends one node earlier is selected as well
(`Paths.ShorterPathIsPicked`); a path whose first node has a dash is not rebuilt
under its own name (`Paths.PathIsRebuilt`); an argument of a WITH definition
that holds a leftover call is expanded a second time where it is used
(`TwiceExpanded.ArgumentIsExpandedTwice`); a metric node that occurs twice names
the group labels after it only once (`Sharing.ReusedKeepsLaterName`); a rollup of a
negative number is read back as the negation of the rollup
(`Limits.NegativeRollup`); a dotted name before a bracket with a step and no window,
as in `foo.bar[:3s]`, is printed as text that is one name
(`TextRoundTrip.BracketIsExact`); a negated dotted name picks no stored path at all, and a
dotted regular expression is cut at its first dot, since the rewriting pass does
not look at these flags (`Rewrite.NegatedPathPicksNothing`, `RegexpNameIsCut`).

## Model

| member | source | states |
|---|---|---|
| `Scan.ScanDuration` | mateql/lexer.go:470-500 | the index loop finds the length of the duration at the start of the text, or -1, and stays in bounds |
| `Scan.DurationIsExact` | mateql/lexer.go:470-500 | the duration scanner takes a prefix if and only if it is a sign where allowed, or else a digit at least, digits, perhaps a point and digits, and a unit |
| `Scan.ScanPositiveNumber` | mateql/lexer.go:149-202 | the loop finds the length of the number, or -1 where a fraction or an exponent has no digits |
| `Scan.NumberIsExact` | mateql/lexer.go:149-202 | the number scanner takes a whole text if and only if it is digits, perhaps a point and digits, and perhaps an exponent with digits |
| `Scan.ScanCharRange` | mateql/lexer.go:548-603 | the loop over a bracket expression accepts and rejects as the recursive description does: carets only first, at most one range of two characters, no window |
| `Scan.CharRangeIsExact` | mateql/lexer.go:548-603 | the range scanner takes exactly the bracket expressions: no window, perhaps a caret, then characters, escapes and at most one dash, which is neither first nor just before a bracket that ends the text and stands among two others; closed by a bracket |
| `Scan.ScanValueList` | mateql/lexer.go:605-644 | the loop over a brace list accepts and rejects as the recursive description does, including nested ranges and misplaced commas |
| `Scan.ValueListIsExact` | mateql/lexer.go:605-644 | the list scanner takes exactly the brace lists: at least one of characters, escapes, bracket expressions and commas that are not first, not doubled and not just before a brace that ends the text |
| `Scan.ScanIdent` | mateql/lexer.go:207-272 | the loop with its guess where a plain identifier ends returns the length of the identifier or Graphite path |
| `Scan.BackwardCountIsForwardScan` | mateql/lexer.go:138-144 | counting backslashes backwards from a quote is odd exactly when, reading left to right, the quote is escaped |
| `Scan.ClosingQuote` | mateql/lexer.go:124-147 | the position of the first unescaped closing quote, every quote before it being escaped; -1 if there is none |
| `Scan.ScanString` | mateql/lexer.go:124-147 | the search loop ends a string token right after the first closing quote that is not escaped, or fails when there is none |
| `Ident.UnescapeOfEscape` | mateql/lexer.go:274-347 | unescaping undoes escaping on every byte string |
| `Ident.UnescapeWithoutBackslash` | mateql/lexer.go:274-278 | text without a backslash is left alone |
| `Ident.EscapedIsOneToken` | mateql/lexer.go:207-272 | an escaped name followed by end of input, a space, a comma or a closing paren is scanned as exactly that one token if and only if it has no two adjacent dots after its first character |
| `Lexing.ScanBinaryOpPrefix` | mateql/binary_op.go:77-89 | whatever order the map is visited in, the length of the longest operator at the start of the text, in any case of letters |
| `Lexing.OpLengthIsMax` | mateql/binary_op.go:77-89 | the length used by the model is that of the longest operator and lies within the text |
| `Lexing.ScanToken` | mateql/lexer.go:73-118 | the kinds of token tried in turn find the length that Tokenizing.TokenIsExact describes |
| `Tokenizing.TokenIsExact` | mateql/lexer.go:73-118 | a length is found if and only if that much text is punctuation, an identifier, a literal up to its first unescaped quote, the longest operator, an operator of filters, a duration, or a number that does not start as a duration; nothing is found if and only if there is no such length |
| `Tokenizing.IdentIsExact` | mateql/lexer.go:207-272 | an identifier ends where its pieces do: characters, dashes, bars and question marks, escapes and, after a dot, stars, brace lists and bracket expressions; without a dot it ends before its first dash, bar or question mark |
| `Tokenizing.CutComesFirst` | mateql/lexer.go:56-122 | a token that is cut off the text is the first token of the pass, and the rest is lexed as before |
| `Tokenizing.BlankIsSkipped` | mateql/lexer.go:56-72 | spaces and whole comment lines in front change no token |
| `Tokenizing.LastCommentIsEnd` | mateql/lexer.go:62-72 | a comment without a line end ends the input |
| `Tokenizing.EscapedIsName` | mateql/lexer.go:207-272 | an escaped name is a token before any text that cannot go on with it, if and only if it has no two adjacent dots |
| `Tokenizing.LiteralIsCut` | mateql/lexer.go:124-147 | a quoted literal is a token whatever follows |
| `Tokenizing.SymbolIsCut` | mateql/lexer.go:94-99 | an operator made of symbols is a token before anything but an equals sign or a tilde |
| `Tokenizing.FilterOpIsCut` | mateql/lexer.go:359-372 | each of the four operators of filters is a token |
| `Tokenizing.DurationIsCut` | mateql/lexer.go:470-500 | a duration is a token whatever follows |
| `Tokenizing.NumeralIsCut` | mateql/lexer.go:149-202 | a number is a token before text that does not go on with it or make it a duration |
| `Ident.EscapedBeforeBracket` | mateql/lexer.go:207-272 | before a bracket an escaped name is one token unless it has a dot and the bracket starts a bracket expression |
| `Ident.HexDigitsAreExact` | mateql/lexer.go:308-326 | hexadecimal digits are written small and read in either case |
| `Lexicon.ClassesAreExact` | mateql/lexer.go:502-546 | the characters of identifiers, Graphite paths and blanks, and the units of durations, one by one |
| `Lexicon.CaseIsIgnored` | mateql/binary_op.go:67-75 | texts that differ in case only are the same operator and the same word |
| `Lexing.LexStep` | mateql/lexer.go:56-122 | blank text, token and tail rebuild the text, the token is not empty and the tail is shorter |
| `Lexing.LexerIsLossless` | mateql/lexer.go:56-122 | skipped text, tokens and the tail rebuild the input; everything skipped is spaces or whole comment lines; the tokens are those of the straight pass and none is empty; the pass ends at end of input or at text that is no token |
| `Lexing.Lexer.constructor` | mateql/lexer.go:27-35 | the lexer starts before the first token of the straight pass |
| `Lexing.Lexer.NextToken` | mateql/lexer.go:56-122 | the scanner with its jump back over comments finds the next token of the remaining text, end of input again and again, or no token |
| `Lexing.Lexer.Next` | mateql/lexer.go:37-54 | moves to the next token of the straight pass, replayed or scanned; fails exactly where the pass has no token; after a failure every later call fails and changes nothing |
| `Lexing.Lexer.Prev` | mateql/lexer.go:349-353 | moves back to the token before; after a failed Next it only drops the extra entry that Next recorded |
| `Lexing.Replay` | mateql/lexer.go:37-54 | after any interleaving of Next and Prev in which Prev never outnumbers Next, the current token is the k-th of the straight pass, k being Nexts less Prevs, or a Next has failed at text that is no token |
| `Recognised.QueryIsExact` | mateql/parser.go:300-584 | a query parses to a tree if and only if its tokens are those of a written form that fits up to the end of input, and the tree is that of the form; text that is no token makes it an error. Forms keep every spelling: modifiers before or after the arguments, commas at the end of lists, sums of strings, words in any case, steps after a separate colon, bare names in filters |
| `Recognised.ExprIsExact` | mateql/parser.go:300-345 | an expression is taken from the tokens, up to some rest, if and only if they spell a form that fits this rest; operators group as the documented table says |
| `Accepted.SingleAccepted` | mateql/parser.go:366-384 | whatever is accepted is a WITH form, or a form with or without window, step and offset, with its tree |
| `Accepted.AtomAccepted` | mateql/parser.go:386-428 | whatever is accepted is a number, a sum of strings, a name, a list in parens, a selector, or a sign and what follows, with its tree |
| `Accepted.SumAccepted` | mateql/parser.go:448-491 | a sum of strings is literals and names between pluses, read up to the first plus that does not go on with a literal or a bare name |
| `Recognised.ReadSum` | mateql/parser.go:448-491 | every such sum is read to its end and no further |
| `Accepted.ListAccepted` | mateql/parser.go:493-523 | whatever is accepted between parens is expressions between commas, perhaps with a last comma |
| `Accepted.IdentAccepted` | mateql/parser.go:1275-1309 | whatever starts with a name is a selector, a call or an aggregate, by what follows the name |
| `Accepted.AggrAccepted` | mateql/parser.go:525-583 | whatever is accepted is an aggregate with its modifier before or after the arguments, and its tree has that modifier and limit |
| `Recognised.ModifierMayComeFirst` | mateql/parser.go:543-562 | name, modifier, arguments and limit are read as the tree that is printed as name, arguments, modifier and limit |
| `Text.AtoiIsExact` | mateql/parser.go:568-580 | the limit is read from exactly the numerals of 64 bits: perhaps a sign, zeros, and the digits of the number |
| `Accepted.ModifierAccepted` | mateql/parser.go:969-989 | a modifier is a word in any case and names between commas; only words that join series may lack the list |
| `Accepted.MetricAccepted` | mateql/parser.go:1311-1333 | a selector is a name, filters in braces, or both, with its tree |
| `Accepted.FilterAccepted` | mateql/parser.go:1108-1153 | a filter is a label, one of four operators and a sum of strings, or a bare name |
| `Accepted.RollupAccepted` | mateql/parser.go:1184-1261 | window, step and offset, the step in one token with its colon or apart from it |
| `Accepted.WithAccepted` | mateql/parser.go:210-256 | definitions between commas, no two of a name, and a body |
| `Accepted.DefAccepted` | mateql/parser.go:258-298 | a name that is not reserved, parameters of different names, and a body; each definition gets an identity of its own |
| `Parser.Parser.ParseExpr` | mateql/parser.go:300-345 | the loop over operators reads what the grammar says, rebalancing after every operand, and leaves the current token just past the expression |
| `Parser.Parser.ParseSingle` | mateql/parser.go:366-384 | the look past WITH is undone whether or not it failed; then the expression and its rollup suffix are read |
| `Parser.Parser.Peek` | mateql/parser.go:368-372 | Next and Prev together leave the lexer where it was, also when Next failed |
| `Parser.Parser.ParseUnsuffixed` | mateql/parser.go:386-428 | the choice by the first token, with unary minus read as zero minus the operand |
| `Parser.Parser.ParseNumber` | mateql/parser.go:430-446 | a number token, or an error |
| `Parser.Parser.ParseString` | mateql/parser.go:448-491 | the loop with its two tokens of look-ahead reads the string sum and steps back over what is not part of it, never past the start |
| `Parser.Parser.ParseParens` | mateql/parser.go:493-523 | the loop over the items of a paren |
| `Parser.Parser.ParseArgs` | mateql/parser.go:1027-1059 | the loop over the arguments of a call |
| `Parser.Parser.ParseAggr` | mateql/parser.go:525-583 | an aggregate with its modifier before or after the arguments and its limit |
| `Parser.Parser.ParseOpModifiers` | mateql/parser.go:316-337 | bool only for comparisons, a join modifier only after a group modifier and not for set operators |
| `Parser.Parser.ParseFunc` | mateql/parser.go:948-967 | a call |
| `Parser.Parser.ParseModifier` | mateql/parser.go:969-989 | a modifier, whose list may be missing after a join word |
| `Parser.Parser.ParseIdentList` | mateql/parser.go:991-1025 | the loop over the names of a modifier list |
| `Parser.Parser.ParseLabelFilters` | mateql/parser.go:1073-1106 | the loop over the filters of a selector |
| `Parser.Parser.ParseLabelFilter` | mateql/parser.go:1108-1145 | one filter, or a name that stands for a list of filters |
| `Parser.Parser.ParseIdentExpr` | mateql/parser.go:1275-1309 | the look at the token after a name is undone, then the name is read as what that token makes of it |
| `Parser.Parser.ParseMetric` | mateql/parser.go:1311-1333 | a selector |
| `Parser.Parser.ParseWindowAndStep` | mateql/parser.go:1184-1226 | window and step, together with ParseColon which cuts the colon off the current token in place |
| `Parser.Parser.ParseColon` | mateql/parser.go:1199-1226 | the step after a window; the overwritten token does not disturb any later step of the lexer |
| `Parser.Parser.ParseDuration` | mateql/parser.go:1242-1261 | a duration with its sign, also when the current token was overwritten |
| `Parser.Parser.ParseRollup` | mateql/parser.go:1335-1358 | window, step and offset |
| `Parser.Parser.ParseWith` | mateql/parser.go:210-256 | the definitions, rejected when a name is defined twice, and the body |
| `Parser.Parser.ParseWithArg` | mateql/parser.go:258-298 | one definition; reserved names, repeated parameters and a missing equals sign are errors |
| `Parser.Parser.HasDuplicates` | mateql/parser.go:276-283 | the loop with its set finds a repetition exactly when there is one |
| `Parser.Parser.HasDuplicateNames` | mateql/parser.go:79-88 | two definitions of one list with the same name are found |
| `Parser.ParseText` | mateql/parser.go:15-29 | lexer and parser together: for any text the result is that of the grammar on the tokens of the straight pass, and nothing may be left over |
| `Operators.FoldIsFaithful` | mateql/parser.go:300-363 | for every list of operands and operators the loop yields a tree that reads back as its input, modifiers included, and respects priority and associativity at every node |
| `Operators.RespectingTreeIsUnique` | mateql/binary_op.go:38-65 | under the priorities of the model there is only one such tree |
| `Operators.FoldIsPrecedenceClimbing` | mateql/parser.go:347-363 | rotation after each operand equals a precedence-climbing parse |
| `Operators.FoldIsLayered` | mateql/binary_op.go:35-62 | for every list of operands and operators the rotation yields the parse of a grammar with one level for each line of the documented table, operators given by their texts; levels group to the left, the power to the right |
| `BinaryNodes.BalanceBinaryOp` | mateql/parser.go:347-363 | the pointer rotation on heap nodes keeps exactly the nodes it was given and makes the tree of Operators.Balance of them |
| `BinaryNodes.FoldOperations` | mateql/parser.go:300-345 | the loop that makes a node for every operator and rotates it into place builds, on the heap, the tree of Operators.Fold |
| `BinaryNodes.Rotate` | mateql/parser.go:360-362 | one rotation: the right child of the left node moves under the operator, which is balanced again below that node |
| `Filters.KeyIsInjective` | mateql/parser.go:1670-1689 | no two filters print the same |
| `Filters.FirstOccurrencesCorrect` | mateql/parser.go:932-946 | nothing is lost, nothing repeated, a list without repetitions is kept |
| `Filters.FirstOccurrencesInOrder` | mateql/parser.go:932-946 | first occurrences keep their order |
| `Filters.RepeatedKeysAreRepeatedFilters` | mateql/parser.go:932-946 | comparing printed filters is comparing filters |
| `Filters.RemoveDuplicateLabelFilters` | mateql/parser.go:932-946 | removal in place, writing the front of the array while reading it, leaves exactly the first occurrences in order |
| `Expansion.Lookup` | mateql/parser.go:1061-1071 | the last entry of that name, scanning backwards |
| `Expansion.Expand` | mateql/parser.go:586-810 | expansion ends for every scope and expression, never reaches a panic, and its result has no WITH node and no unexpanded string or filter |
| `Expansion.ExpandAll` | mateql/parser.go:812-822 | as many results as arguments, all of them expanded |
| `Expansion.ExpandString` | mateql/parser.go:665-700 | a string that was expanded has no tokens left; a name in it that stands for no string is an error, not a panic |
| `Expansion.ExpandMetric` | mateql/parser.go:718-806 | a selector is expanded without reaching a panic or the unchecked type assertion; what it then holds is Selectors.SelectorHolds and Selectors.NamedSelector |
| `Expansion.MergeMetric` | mateql/parser.go:779-806 | the filters of a selector are applied to what its name stands for, or it is an error |
| `Expansion.JoinOperands` | mateql/parser.go:605-626 | two string literals become one; no sum of two string literals is left |
| `Expansion.ExpandModifier` | mateql/parser.go:824-875 | modifier lists expand to a list or to an error |
| `Expansion.Call` | mateql/parser.go:877-899 | a reference to a definition or an argument |
| `Selectors.FilterNameIsExact` | mateql/parser.go:724-744 | a bare name in a selector gives filters if and only if the last entry of that name stands for a list of filters without a metric name, and then exactly those |
| `Selectors.FilterListIsSpliced` | mateql/parser.go:724-765 | at any position of a selector such a name may be written out: the selector expands as the one with the filters there |
| `Selectors.DefinedListIsSpliced` | mateql/parser.go:714-765 | with (c = {...}) up{c} is with (c = {...}) up{...}, in any scope |
| `Selectors.SelectorHolds` | mateql/parser.go:718-769 | a selector whose name is not defined holds the first occurrences of what its parts give, in their order |
| `Selectors.NamedSelector` | mateql/parser.go:767-806 | the filters of a selector are put behind those of the selector, or of the rollup of one, that its name stands for, each kept once; window, step and offset stay; anything else must be named without filters, or it is an error |
| `Selectors.BothAreHeld` | mateql/parser.go:796-806 | so the result holds exactly the filters of both |
| `Selectors.TokensAppend` | mateql/parser.go:669-696 | a sum of strings is the concatenation of its parts |
| `Selectors.StringNameIsExact` | mateql/parser.go:678-695 | a name in a sum is a string if and only if it stands for that string |
| `Selectors.StringsAreJoined` | mateql/parser.go:604-613 | a sum of two expressions that expand to strings is their concatenation |
| `Selectors.SingleQuotesRead` | mateql/parser.go:910-930 | a literal between single quotes reads as the one between double quotes |
| `Selectors.CallNeedsArity` | mateql/parser.go:877-884 | a call of what is defined with another number of arguments is an error |
| `Expansion.CallDescends` | mateql/parser.go:877-899 | the termination measure: definitions in scope and nested in them go down when a definition is entered, and the number of arguments goes down when an argument is |
| `Expansion.NoDefsWhenExpanded` | mateql/parser.go:877-899 | an expanded argument holds no definition, so it weighs nothing |
| `Hygiene.IdentityIsPosition` | mateql/parser.go:886-889 | in a hygienic scope the pointer comparison cuts the scope at the looked-up entry itself |
| `Hygiene.ReexpansionIsIdentity` | mateql/parser.go:718-722 | expanding an expanded tree that calls no name defined anywhere again changes nothing but parens around operators; Reexpansion.ReexpansionIsExact gives the converse |
| `Reexpansion.ReexpansionIsExact` | mateql/parser.go:718-722 | expanding an expanded tree without modifier lists again reproduces it, once parens are removed, if and only if it calls no visible name; for scopes in which no definition results in a call of its own name or of a definition that returns an argument |
| `Reexpansion.ReexpansionChanges` | mateql/parser.go:877-899 | the sharp half, without the condition on modifier lists: an expanded tree that calls a visible name is never reproduced |
| `Reexpansion.NoVisibleRoot` | mateql/parser.go:627-640 | if no definition results in a call of a visible name, no expansion of an expanded tree has one at its root |
| `Reexpansion.NoAvoidedRoot` | mateql/parser.go:627-640 | the same for any set of visible names that holds all definitions returning an argument |
| `Reexpansion.OwnRootChanges` | mateql/parser.go:877-899 | in a scope of that kind a call of a visible name does not come back as a call of that name |
| `Reexpansion.LaterCallSettles` | mateql/parser.go:886-889 | f(x) = g(x), g(y) = y + 1, where g is not visible in the body of f, is such a scope |
| `Reexpansion.SelfCallIsReproduced` | mateql/parser.go:886-889 | the condition on the scope is needed: under f() = f() the call f() calls a visible name and is reproduced |
| `Reexpansion.OnlyCalledMatters` | mateql/parser.go:1061-1071 | an expanded tree is expanded alike in all scopes that differ by entries it does not call |
| `Reexpansion.CallIsSubstitutionExactly` | mateql/parser.go:627-640 | a call of a definition is its body with the expanded arguments in place, once parens are removed, if and only if no argument that the body reads calls a name that the body can see; arguments calling no parameter and without modifier lists |
| `Hygiene.ExpansionIsByValue` | mateql/parser.go:586-810 | for a hygienic query, expansion as written succeeds exactly when evaluation by value does, and the results are equal once parens are removed |
| `ParseShape.QueryIsSound` | mateql/parser.go:210-345 | what the parser builds is fit for expansion: definitions met on one path have different identities, no list defines a name twice, no definition repeats a parameter or takes the name of an aggregate, bool stands only at comparisons, and a join modifier only after a group modifier and never at a set operator |
| `ParseShape.VisibleIsHygienic` | mateql/parser.go:886-889 | for a parsed query, hygiene is a matter of names only |
| `Pipeline.ParseIsByValue` | mateql/parser.go:15-35 | if every called name is visible where it is used or defined nowhere and modifier lists are empty, Parse treats arguments as values; what happens otherwise to one call is Reexpansion.CallIsSubstitutionExactly |
| `Substitution.CallIsSubstitution` | mateql/parser.go:627-640 | expanded as written, a call of a definition succeeds and is, once parens are removed, its body with the expanded arguments in the places of the parameters, provided no argument that the body reads calls a name the body can see |
| `Substitution.BodyExpands` | mateql/parser.go:586-810 | expanding as written a body of numbers, names, calls, aggregates, rollups, parens and operators under such arguments is substitution up to parens around operators |
| `Substitution.CallByValueIsSubstitution` | mateql/parser.go:627-640 | evaluated by value, the reference that expansion is compared with, a call is substitution without any condition on what its arguments call |
| `Substitution.ModifierIsSubstituted` | mateql/parser.go:824-875 | a parameter in a modifier list is replaced by the names in its argument, one or several in parens, in their place, and repetitions are dropped |
| `Substitution.DefinitionInModifierFails` | mateql/parser.go:842-863 | a definition written with a bare name cannot be used in a modifier list; only arguments can |
| `TwiceExpanded.ArgumentIsExpandedTwice` | mateql/parser.go:877-899 | Parse of the tokens of with (g(x) = 1 + g(1), h(a) = a) h(g(2)) under the default definitions is 1 + (1 + g(1)), while evaluation by value gives 1 + g(1): the call of g left in the argument is expanded a second time |
| `TwiceExpanded.QueryParses` | mateql/parser.go:210-298 | those 28 tokens are parsed as that query |
| `Defaults.DefaultScopeIsUsable` | mateql/parser.go:43-66 | the definitions every query sees are fit for expansion, never replace a bare name, and are hygienic as long as a query redefines no function they call |
| `DefaultTexts.DefaultsAreRead` | mateql/parser.go:43-66 | the parser makes the trees of the five definitions of the tokens of their texts |
| `DefaultTexts.ReadDefinition` | mateql/parser.go:258-298 | the tokens of a definition with parameters and a body that is read as an expression are parsed as that definition |
| `Normalize.RemoveParensIsParenFree` | mateql/parser.go:104-142 | no parens node is left |
| `Normalize.RemoveParensExpr` | mateql/parser.go:104-142 | the pass as it runs, with argument slices rewritten in place, computes RemoveParens |
| `Normalize.RemoveParensInplace` | mateql/parser.go:115-128 | every element of the slice is replaced by its result |
| `Normalize.SimplifyIsEvaluation` | mateql/parser.go:144-185 | exactly the expressions made of numbers, operators and single parens become numbers, namely their values |
| `Normalize.SimplifyFolds` | mateql/parser.go:144-185 | no operator over two numbers is left, no parens come back, and a folded tree is not changed |
| `Normalize.SimplifyConstants` | mateql/parser.go:144-185 | the pass as it runs computes Simplify |
| `Normalize.SimplifyConstantsInplace` | mateql/parser.go:187-191 | every element of the slice is replaced by its result |
| `Normalize.FoldingIsArithmetic` | mateql/binary_op.go:142-203 | an operation over two numbers on which the float functions do not round is folded to what the text of its operator means over the reals, comparisons with and without bool included |
| `Meaning.NormalizingKeepsMeaning` | mateql/parser.go:104-191 | under any reading of the nodes in which operators over numbers compute as folding does, removing parens and folding constants keeps the value of every tree |
| `Pipeline.ParseIsNormal` | mateql/parser.go:15-35 | no token stream makes Parse panic, and every result has no WITH node, no parens, nothing unexpanded, and no operator over two numbers |
| `Query.Parse` | mateql/parser.go:15-35 | from text to tree: lexer object, parser object, expansion under the default definitions and both in-place passes give the result of the model, in normal form, for any text |
| `RoundTrip.ParseOfPrint` | mateql/parser.go:1368-1720 | the printed tokens of a readable tree are parsed as that tree, selectors unexpanded, parens where they were printed and negative numbers as zero minus a numeral |
| `Reading.RawExpands` | mateql/parser.go:586-810 | expanding that parse, removing parens and folding gives the printed tree |
| `Pipeline.ParseInvertsPrint` | mateql/parser.go:15-35 | Parse of the printed tokens returns the tree, for all readable trees that hold nothing unexpanded, repeated or foldable and no name the definitions replace |
| `Pipeline.PrintIsInjective` | mateql/parser.go:1368-1720 | two such trees that print the same are equal |
| `Written.TextIsLexed` | mateql/parser.go:1368-1725 | the text that the AppendString methods write is lexed as the printed tokens, for readable trees whose names are single tokens and that have no bracket without a window after a dotted name |
| `TextRoundTrip.ParseInvertsText` | mateql/parser.go:15-35 | Parse of that text returns the tree |
| `TextRoundTrip.TextIsInjective` | mateql/parser.go:1368-1725 | two such trees with the same text are equal |
| `TextRoundTrip.BracketIsExact` | mateql/parser.go:1614-1651 | for a rollup of a bare name the text is lexed as its tokens if and only if the name has no dot or the bracket has a window: foo.bar[:3s] is one name |
| `Survival.SurvivalIsExact` | mateql/parser.go:15-35 | a tree that is parsed as intended is returned by Parse of its printed tokens if and only if it is stable: nothing unexpanded, repeated or foldable, numbers that their minus folds back to, and no name that the definitions replace; for definitions with parameters that do not result in calls of themselves |
| `Survival.SurvivalUnderDefaults` | mateql/parser.go:43-66 | the same under the definitions every query sees, which are of that kind |
| `Limits.ReadableIsExact` | mateql/parser.go:1368-1720 | a tree whose parts can be read back is read back if and only if it is readable; the next rows say what that means for each kind of tree |
| `Limits.MetricIsExact` | mateql/parser.go:1275-1309 | a selector is read back if and only if its name, if it has one, is neither empty nor, escaped, a number |
| `Limits.BareNameIsExact` | mateql/parser.go:1275-1309 | a bare name is read back if and only if it is not, escaped, inf or nan; all other keywords and operator words are |
| `Limits.CallIsExact` | mateql/parser.go:1275-1309 | a call is read back if and only if its name is an identifier other than with, inf, nan and the aggregates |
| `Limits.RollupIsExact` | mateql/parser.go:366-428 | a rollup is read back if and only if it is not directly one of a negative number |
| `Limits.NegativeRollup` | mateql/parser.go:415-421 | a rollup of a negative number is read as zero minus the rollup of the numeral |
| `Limits.NegativeIsExact` | mateql/parser.go:1379-1382 | a number printed with a minus is read as what the minus folds it to, and survives if and only if that is the number |
| `Limits.NegativeZeroIsLost` | mateql/parser.go:1379-1382 | negative zero, to which 0 * -1 folds, prints as -0 and is read back as zero |
| `Limits.OperationIsExact` | mateql/parser.go:300-345 | an operation on readable operands is read back if and only if a string on the left of a plus ends by the first two tokens after the plus, the bare name of an aggregate is not followed by an operator word, and the right operand does not start with a word that modifies the operator |
| `Limits.FilterIsExact` | mateql/parser.go:1147-1181 | a filter survives if and only if its regexp compiles and, for the label __name__, unescaping leaves its value |
| `Limits.SelectorIsExact` | mateql/parser.go:718-806 | under definitions that all have parameters, Parse of a printed selector returns it if and only if it repeats no filter, all its filters but the plain name survive, and a name that is also defined is written as it is |
| `Limits.NameReadsAsNumber` | mateql/lexer.go:374-380 | a metric named nan prints as a number |
| `Limits.StringSumReadsAsString` | mateql/parser.go:448-491 | a printed sum of two string literals is read as one string |
| `Grid.StepIsLeast` | cmd/matecarbon/main.go:316-324 | the step is the smallest positive multiple of the flush interval whose product with the requested number of points, 1024 when none is requested, covers the range |
| `Grid.PointsAreBounded` | cmd/matecarbon/main.go:316-324 | a grid as long as the request has at most one point more than requested, 1024 when none is |
| `Grid.FillGrid` | cmd/matecarbon/main.go:393-404 | the two nested loops fill the grid as the recursive description says |
| `Grid.FillIsExact` | cmd/matecarbon/main.go:393-404 | for samples in order of time and on the grid, every slot holds exactly the last sample of its time, or nothing |
| `Grid.FillStopsOffGrid` | cmd/matecarbon/main.go:393-404 | in any case the slots hold the samples before the first one off the grid; that one blocks all later ones |
| `Grid.MakeNanArr` | cmd/matecarbon/main.go:457-463 | an array of missing values |
| `Grid.AlignSeries` | cmd/matecarbon/main.go:388-427 | filling, trimming and padding step by step give the outcome of Align, panics included, with no slice out of range otherwise; a step below one second always panics unless the series is empty |
| `Grid.StartIsExact` | cmd/matecarbon/main.go:410-418 | aligning the start panics exactly when the whole grid lies before the request; otherwise the first slot is the first time of the grid from the start of the request on |
| `Grid.EndIsExact` | cmd/matecarbon/main.go:419-427 | aligning the end never panics, keeps every slot exact and gives the stop time of the last slot |
| `Grid.AlignIsExact` | cmd/matecarbon/main.go:388-427 | after fill and alignment: a panic exactly for a series that ends more than a step before the request; otherwise StartTime is the one grid time in [requestStart, requestStart + step), slot k holds exactly the sample at StartTime + k * StepTime, and StopTime is the time of the last slot |
| `Grid.LengthIsCommon` | cmd/matecarbon/main.go:419-427 | a series has floor(range / step) + 1 slots if and only if it ends by the end of the request or its phase is at most range mod step |
| `Grid.SamplesAreKept` | cmd/matecarbon/main.go:388-427 | conservation: the slots hold every sample of the request window once and in order, and no other |
| `Glob.GlobToRegexPattern` | prometheus/glob.go:51-138 | the loop over the runes with its buffer, bracket stack and flags computes Translate |
| `Glob.GlobHasPattern` | prometheus/glob.go:51-138 | the text of a well-formed glob, with or without a lone backslash at the end, is translated to the pattern of its tree, and counts as regular expression unless all its pieces are plain |
| `Glob.TranslatesExactlyGlobs` | prometheus/glob.go:51-138 | translation succeeds exactly on globs: valid characters, brackets and braces well nested, commas directly inside braces |
| `Regex.StarOfClass` | prometheus/glob.go:80-82 | a starred negated class matches exactly the strings without those characters |
| `GlobMeaning.PatternMeansGlob` | prometheus/glob.go:51-138 | for every engine that matches as RE2 does on the patterns read here: the pattern of a glob of literals, ?, *, brace lists and alphanumeric classes matches exactly the strings the glob stands for |
| `GlobMeaning.NodeIsExact` | prometheus/glob.go:112-114 | such a node selects exactly what it stands for if and only if it is more than a literal or has no character that gets or keeps a backslash |
| `Paths.LabelsDiffer` | prometheus/converter.go:127-129 | numbered labels are injective in the number and none is the metric name |
| `Paths.ConvertGraphiteTarget` | prometheus/converter.go:55-85 | the loop over the nodes computes name and filters, or nothing when a node is no glob |
| `Paths.SelectorMeans` | prometheus/converter.go:55-85 | for every matching relation, query and stored path: picked exactly when the names agree up to dashes, every node of the query holds for the node in its place, a missing one read as empty, and a terminal query has at least as many nodes |
| `Paths.SelectorIsExact` | prometheus/converter.go:55-85 | for every matching relation: if the last node does not hold for the empty string, a terminal query picks exactly the paths with as many nodes that match node by node, a non-terminal one exactly those with such a prefix |
| `Paths.ShorterPathIsPicked` | prometheus/converter.go:63-65 | for every matching relation: otherwise, as with a bare star at the end, every path that matches the query without its last node is picked too |
| `Paths.SimpleNodeHolds` | prometheus/converter.go:60-77 | for engines that match as RE2 does: a simple node holds for exactly the nodes it stands for |
| `Paths.ConvertPrometheusMetric` | prometheus/converter.go:106-125 | the loop over label numbers rebuilds the path, or nothing for another metric name |
| `Paths.PathIsRebuilt` | prometheus/converter.go:106-125 | from the labels of a path, with or without the metric name, the path is rebuilt if and only if its first node has no dash |
| `Paths.ConvertGraphite` | cmd/mateinsert/main.go:135-183 | appends the tagged line of a Graphite line to the buffer, or leaves the buffer alone |
| `Paths.LineIsWritten` | cmd/mateinsert/main.go:135-183 | for every path of at least two nodes the line written is the series of the path, the value and the time, in this order |
| `Paths.LineIsDropped` | cmd/mateinsert/main.go:135-151 | a line is written if and only if it is a path with a dot, a value and a time between single spaces, nothing being asked of a time that starts with a space |
| `Paths.LineIsReadBack` | cmd/mateinsert/main.go:153-180 | read at its spaces, the line gives a series whose labels are those of the path, that value and that time |
| `Paths.TwoNodesAreWritten` | cmd/mateinsert/main.go:153-180 | foo.bar 12 1600000000 is written as foo;__foo_g1__=bar 12 1600000000, for all words without dots and dashes |
| `Paths.DashIsUnderscore` | cmd/mateinsert/main.go:158-164 | a dash in the first node is written as an underscore |
| `Paths.WrittenLabels` | cmd/mateinsert/main.go:165-174 | the tags of the written series are exactly the numbered labels of its path if and only if no node has a semicolon and the first of several nodes has no equals sign |
| `Paths.LabelsHold` | cmd/mateinsert/main.go:153-174 | the label with number k of a stored path reads as its k-th node, and as empty past the end |
| `Rewrite.CovertExpr` | prometheus/mateql.go:20-63 | on a tree of separate metrics, the pass as it runs, threading the last metric name, computes Covert |
| `Rewrite.CovertMetric` | prometheus/mateql.go:22-35 | the loop that overwrites filters while it appends to them |
| `Rewrite.CovertArgs` | prometheus/mateql.go:39-47 | the loop over arguments, each seeing the name the one before left |
| `Rewrite.CovertIsIdempotent` | prometheus/mateql.go:20-63 | rewriting a rewritten tree of separate metrics changes nothing; Sharing.SharedIsIdempotent covers shared ones |
| `Rewrite.CovertFrame` | prometheus/mateql.go:20-63 | only dotted metric names, the filters added for them, and group labels g and number change; Sharing.SharedFrame covers shared metrics |
| `Rewrite.GroupIsNode` | prometheus/mateql.go:48-54 | grouping by g and a number is grouping by the node of that number |
| `Rewrite.TargetIsDone` | prometheus/converter.go:55-85 | a rewritten name has no dot and no added filter is for the name |
| `Rewrite.RewrittenSelects` | prometheus/mateql.go:22-35 | for every matching relation and every list of filters, flags and all: a rewritten metric selects where everything holds that its filters become, the new name under the old flags and the filters of the query |
| `Rewrite.RewrittenIsIntended` | prometheus/mateql.go:24-34 | on a series, a rewritten dotted name selects as intended (the paths of its query, or all others when negated) if and only if, for a negated name, the filters of the query hold there and, for a regular expression, the name matches as a text where they hold |
| `Rewrite.PlainNameSelects` | prometheus/mateql.go:24-34 | a name without flags always selects what the selector of its query selects |
| `Rewrite.RewritingIsExact` | prometheus/mateql.go:24-34 | over all stored paths, a rewritten dotted name selects as intended if and only if, when it is negated, every filter of its query holds for all nodes and missing ones and, when it is a regular expression, it matches stored names as a text |
| `Rewrite.NegatedPicksNothing` | prometheus/mateql.go:24-34 | a negated dotted name picks no stored path at all once a filter of its query does not hold for a missing label |
| `Rewrite.NegatedPathPicksNothing` | prometheus/mateql.go:24-34 | {__name__!="a.b"} becomes {__name__!="a", __a_g1__="b"}, which picks no stored path, for all words a and b |
| `Rewrite.RegexpNameIsCut` | prometheus/mateql.go:24-34 | {__name__=~"a.*"} becomes {__name__=~"a"}, which of all names matches a alone, for all words a |
| `Rewrite.TextNameIsText` | prometheus/mateql.go:24-34 | the flag of a regular expression does no harm to names without special characters |
| `Sharing.CovertExpr` | prometheus/mateql.go:20-63 | the pass as it runs on heap nodes, which may occur many times in the tree: the nodes are left as CovertStore describes, and nothing else changes |
| `Sharing.CovertArgs` | prometheus/mateql.go:39-47 | the loop over arguments, each seeing the nodes and the name that the one before left |
| `Sharing.SharedIsCovert` | prometheus/mateql.go:20-63 | for shared nodes every metric gets the filters that Covert gives it, and the whole tree is that of Covert if and only if, at every aggregate with a group label, the name threaded over nodes met once agrees with the name threaded over all occurrences |
| `Sharing.SharedIsIdempotent` | prometheus/mateql.go:20-63 | a second pass over the nodes and the tree that the first one leaves changes neither, however often the nodes occur |
| `Sharing.SharedFrame` | prometheus/mateql.go:20-63 | the pass over shared nodes changes dotted metric names, the filters added for them and group labels, and nothing else |
| `Sharing.NamesByVisits` | prometheus/mateql.go:22-35 | the two threaded names as functions of the visits to metrics: that of the last first visit with a path, emptied by a later visit to a node that keeps an unconverted path, and that of the last visit with a path |
| `Sharing.UnsharedMatches` | prometheus/mateql.go:20-63 | they agree if no node occurs twice |
| `Sharing.NameOverDone` | prometheus/mateql.go:24-35 | a node that is met again leaves the threaded name alone, unless it has a dotted name that cannot be converted, which empties it |
| `Sharing.ReusedKeepsLaterName` | prometheus/mateql.go:48-54 | for abs(m) + n + sum(abs(m)) by (g1) with one node m, as with (f(a) = a + x.y + sum(a) by (g1)) f(abs(foo.bar)) leaves it, the label is that of the path of n and not of m |

## Left out

- HTTP, TCP, goroutines, locks, JSON, YAML and logging of the three programs.
- Error messages: an error is the value `Err`, `None` or `Failed`, without text.
- `strconv.ParseFloat`, float formatting, `strconv.Quote` and `Unquote`, `regexp.Compile` and the float64 functions of `binaryop` are functions of `Lib` and `Floats`; assumed is only that quoting is injective, starts with a double quote and is undone by unquoting.
- Lower-casing covers ASCII letters; Go lower-cases all of Unicode, and the words compared are ASCII.
- The tables of rollup and transform functions are one predicate of `Lib`; the table of aggregates is a set.
- Durations as numbers: only where a duration token ends is modelled.
- The query text, suffix rollups and `max_lookback` of the render handler: formatting.
- Substitution.CallIsSubstitution: for bodies without strings, filters and modifier lists, whose other names mean nothing in scope.
- Pipeline.ParseIsByValue: a sufficient condition for a whole query, whose modifier lists must be empty; the exact condition is proved for one reading of an expanded tree and for one call.
- Reexpansion.ReexpansionIsExact: for scopes in which no definition results in a call of its own name or of a definition that returns an argument; bodies that are calls under WITH are not among them.
- Reexpansion.CallIsSubstitutionExactly: for arguments without modifier lists that call no parameter, and bodies as in Substitution.CallIsSubstitution.
- TwiceExpanded.ArgumentIsExpandedTwice: assumes that the library reads and formats the numbers 1 and 2 and does not list g and h as functions.
- TextRoundTrip.ParseInvertsText: assumes that quoting yields one literal and that formatting a number yields a numeral or a word; names of calls and modifiers must be single tokens before any text that cannot go on with them.
- Forms.Tokens: WITH forms keep the position of a definition as its identity, which is the number of tokens from there on.
- DefaultTexts.DefaultsAreRead: from the tokens of the texts, not from their characters; assumes that the library reads the numerals and does not list the five names as functions.
- Survival.SurvivalIsExact: for trees that are readable; that a tree with an unreadable part further down is not read back is proved for one level at a time, by Limits.ReadableIsExact.
- Normalize.RemoveParensExpr: argument slices are arrays rewritten in place, but the nodes that hold them are values; sharing of nodes is modelled for the rewriting pass only, by `Sharing.CovertExpr`. The same holds for `Normalize.SimplifyConstants`; neither pass writes to a metric node.
- Expansion.Expand: nodes and definitions are values; the address of a definition is a number that differs between the definitions of a query.
- Sharing.ReusedKeepsLaterName: starts from the tree with its shared node; that Parse returns the pointer of a metric it expanded before (parser.go:718-722) is not derived, as Expand works on values.
- Parser.Parser.Left: counts the tokens that are left to get that number; the program has the allocator do this.
- Grid.AlignSeries: times are reals and integers without bounds; rounding of float64 and overflow of int64 are not modelled; steps are positive.
- Grid.AlignIsExact: assumes whole seconds, a whole step and samples on the grid of the first one, in order of time.
- GlobMeaning.PatternMeansGlob: `Regex` reads only the part of RE2 that these patterns use, and on all other patterns an engine may match anything; globs with a dot, a bar, ranges or nested brackets have a pattern but no proved meaning.
- Glob.GlobToRegexPattern: runes are characters; invalid UTF-8 is not modelled. `UnwriteLast` and `LastEvaluate` of the buffer have no caller.
- Paths.SelectorIsExact: that an empty label is the same as a missing one is how the database reads filters.
- `ConvertQueryLabel`, `LabelFilters.Build` and the expansion of label values: formatting.
- `regexp_cache.go`: a bounded cache in front of `regexp.Compile`.
- Buffer pools, slice capacities and reuse of backing arrays.
