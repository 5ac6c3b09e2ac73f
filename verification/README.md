# Verification of the ORM runtime and its generator

A Dafny model of the hard parts of a MyBatis-style SQL runtime and of the generator beside it, with proofs about all
inputs, all runs and all reachable states. `dafny verify dfyconfig.toml` checks everything.

Code that changes things step by step is modelled by classes, arrays of tokens and index loops; each such method is
proved against a specification function, and what the runtime promises is proved about that function.

| part | files | main results |
|---|---|---|
| dynamic SQL | `Dynamic`, `DynamicMeaning`, `DynamicProof`, `DynamicScopes`, `DynamicNames`, `DynamicContext`, `DynamicAlias`, `DynamicText`, `DynamicWords`, `DynamicPlaces`, `DynamicChoice`, `DynamicLines` | rendering with fresh aliases means what rendering each iteration with its own element and index means, for exactly the names it needs; normalising and renaming text is normalising and renaming its placeholders; normalising and joining keep all words; where loops, prefixes and suffixes stand |
| includes | `Includes` | expansion is substitution, fails exactly on a reachable bad reference, and leaves nothing the renderer refuses |
| expressions | `Expression`, `ExpressionTree`, `ExpressionParser`, `ExpressionScanner`, `ExpressionMeaning` | a tree written with minimal parentheses is scanned and parsed to its end and gives the value or the error of the tree; what each operator means and how tightly it binds |
| SQL text | `SqlLexer`, `SqlForms`, `SqlScan`, `SqlList`, `SqlQuote`, `SqlNames`, `SqlColumns`, `SqlPath` | every index loop is a search over the lexemes of one lexer; quoted names read back |
| SQL rewriting | `SqlPredicate`, `SqlRewrite`, `SqlClauses`, `SqlUpdate`, `SqlInsert`, `SqlColumnList` | conditions, assignments and tenant columns are put in at the parsed level, whatever the text around them; which clauses stay behind a condition, and which names are a column |
| optimistic locks | `SqlOrder`, `SqlMiddle`, `SqlLockText`, `SqlLock`, `SqlPresence` | a locked UPDATE has exactly one item and one condition more, and the search finds what a lock writes, and the column exactly in the SET and the WHERE part |
| where rewriting fails | `SqlComments`, `SqlExamples` | the exact condition on comments; statements outside the exact conditions, and what is made of them |
| rows | `Mapper`, `MapperReads` | soft delete simulates delete; the version column counts the successful updates; what is written, by which strategy, is read back |
| caches | `MemoryCache`, `CacheRuns`, `CacheRecency`, `BlockingCache` | hits are the latest values, recent keys stay, larger caches keep more, single flights over every interleaving |
| resolvers | `Properties`, `PropertyOrder`, `ResultMaps` | expansion in any order of the map, and when the order matters; memoised inheritance is the plain chain |
| generators | `Snowflake`, `Batch`, `StructTags`, `TagNames` | increasing identifiers, conservation of batched requests, tags that read back as the column, and what each attribute means |

## What the code does not promise

Some laws hold only under a condition. The lemma with the condition says "if and only if" unless the line says
otherwise; the other lemmas of a line are inputs that break the law.

- Joining a condition by AND restricts a statement exactly when its WHERE has no OR at depth zero, and joining it to a
  predicate exactly when it has none itself (`SqlRewrite.SpliceExact`, `SqlPredicate.JoinExact`,
  `SqlPredicate.JoinedExact`); `AppendSqlCondition` adds no parentheses. `SqlExamples.OrInWhere` has a row that is still
  selected.
- `appendUpdateAssignment` adds exactly one SET item exactly when the UPDATE has a WHERE or no trailing clause
  (`SqlUpdate.AssignExact`); otherwise the assignment ends up behind that clause (`SqlExamples.LimitWithoutWhere`).
- A comment that is still open where an assignment or a condition is put in takes in what is written behind it, up to the
  end of its line. When all of that is on one line, the rewritten text reads as it should exactly when no comment is open
  there (`SqlComments.AssignedTextExact`, `SqlComments.SplicedTextExact`), and otherwise as what is before the comment
  (`SqlComments.AssignmentLost`, `SqlComments.ConditionLost`): `SqlExamples.CommentBeforeWhere` is an UPDATE of one row of
  which an UPDATE of all rows is left.
- Rewriting a tenant INSERT twice changes nothing exactly when the column name has a character other than the separators
  its comparison drops (`SqlInsert.TenantInsertTwice`): a column named `_` is added again (`SqlExamples.UnderscoreColumn`).
- The search for a version column finds what a lock writes exactly under the same condition on the column, in every
  dialect (`SqlLock.LockIsFound`); a version column named `_` is found nowhere (`SqlLock.UnderscoreVersion`).
- With OR at the top of a wrapper the live condition of a soft-delete mapper binds to the last alternative only. On every
  table the wanted rows are picked exactly when no earlier alternative can hold of a row that is not live
  (`Mapper.WrapperExact`); a wrapper without OR has none. `Mapper.DeletedRowListed` lists a deleted row.
- Identifiers strictly increase exactly when every call after a failed wrap-around wait sees a later millisecond
  (`Snowflake.IdsStrictlyIncrease`); on a clock that stands still they do not (`Snowflake.FailedWaitRepeats`). The very
  first identifier can be 0 (`Snowflake.DecodeCompose`).
- A loop keeps its meaning, with anything in and around it, exactly when its index is not its item
  (`DynamicNames.LoopKeepsIff`); otherwise a placeholder after the loop names the last element
  (`DynamicNames.IndexAsItemLeaks` against `DynamicNames.IndexAsItemKept`).
- A loop inside a loop keeps its meaning exactly when its index is neither the item nor the index of the outer one
  (`DynamicNames.NestKeepsIff`); otherwise a test after it finds no value and its text is lost (`DynamicNames.NestLoses`).
- A bind inside a loop sets one argument for the whole statement. A loop that binds a name keeps its meaning, whatever
  the expression, the collection and the rest of its body, exactly when the name is not the item or the index and no text
  of the body has a placeholder with that root (`DynamicNames.BindKeepsIff`); tests may use it. Otherwise every iteration
  shows the value of the last one (`DynamicNames.BindShowsLast`).
- The order in which properties are walked matters exactly when they can all be expanded and some key that another value
  refers to has an expansion with a placeholder of its own (`PropertyOrder.OrderMattersIff`). A dollar sign in a literal
  can make such a placeholder (`PropertyOrder.DollarOrderMatters`); literals without one never do
  (`Properties.NoDollarsClean`).

## Model

| member | source | states |
|---|---|---|
| DynamicProof.RenderingPreservesMeaning | internal/runtime/dynamic.go:37-57 | For every tree, collection and arguments: rendering with aliases fails with the error of direct rendering, and otherwise its statement with its arguments put in is the one in which every iteration sees its own element and index and its own values of the names it binds. Names start without the alias prefix, no index is the item or a name of a loop around it, no bind inside a loop has a name of that loop, and no text of a loop has a placeholder of a name bound in it: `DynamicNames` shows that each condition on names of loops and binds is needed. |
| DynamicProof.RenderMatches | internal/runtime/dynamic.go:81-126 | The same for one node in any state the renderer can be in: the outcome, the scopes, the arguments and the aliases after it agree with direct rendering, which writes the current value of a name bound in a loop into the text. |
| DynamicProof.AliasIs | internal/runtime/dynamic.go:305-313 | An alias carries the prefix and its number, so aliases with different numbers differ whatever the names are, and none is a caller argument. |
| DynamicProof.LeftAgrees | internal/runtime/dynamic.go:235-252 | After an iteration, scopes and arguments are again those of direct rendering outside the loop. |
| DynamicProof.LookupAgrees | internal/runtime/dynamic.go:433-450 | A name has the same value for the renderer as in the nested scopes of direct rendering. |
| DynamicMeaning.ResolvedTrimmed | internal/runtime/dynamic.go:164-183 | Trimming prefixes and suffixes commutes with putting values in place of placeholders. |
| DynamicMeaning.ResolvedJoined | internal/runtime/dynamic.go:394-427 | Joining fragments commutes with putting values in place of placeholders. |
| DynamicScopes.RenderRestores | internal/runtime/dynamic.go:216-255 | Rendering leaves the aliases as they were, on success and on every error path. |
| DynamicScopes.IterationRestoresIff | internal/runtime/dynamic.go:218-252 | After one iteration the aliases are those from before exactly when the index is not the item. |
| DynamicScopes.ValuesRestoredIff | internal/runtime/dynamic.go:235-252 | After an iteration the values are those from before exactly when the loop has no index or nothing around it gave the index a value. |
| DynamicNames.NestKeepsIff | internal/runtime/dynamic.go:216-255 | For all names of an outer and an inner loop: every such nest, whatever else both hold and whatever the collections and arguments are, keeps its meaning exactly when the inner index is not the item or the index of the outer loop. |
| DynamicNames.LoopKeepsIff | internal/runtime/dynamic.go:216-255 | For all names of a loop: every such loop, with anything before, in and after it, keeps its meaning exactly when its index is not its item. |
| DynamicNames.BindKeepsIff | internal/runtime/dynamic.go:128-146 | For all names and all sets of placeholder roots: every loop that binds the name, whatever the expression and the collection are, and whose texts have placeholders of these roots, keeps its meaning exactly when the name is neither the item nor the index nor among the roots. |
| DynamicNames.BindShowsLast | internal/runtime/dynamic.go:143-144 | For all names, a loop over 1 and 2 that binds a name to the element and writes its placeholder: the statement shows 2 twice, and direct rendering writes 1 and 2. |
| DynamicNames.NestLoses | internal/runtime/dynamic.go:235-252 | For all names where the inner index is a name of the outer loop, a nest whose text after the inner loop is lost and which direct rendering writes. |
| DynamicNames.IndexAsItemLeaks | internal/runtime/dynamic.go:235-252 | For every name that is both item and index, a placeholder after the loop that names the last element in the rendered statement. |
| DynamicNames.IndexAsItemKept | internal/runtime/dynamic.go:235-252 | Direct rendering of the same tree: the placeholder has no value. |
| DynamicContext.DynamicRenderContext.RenderNode | internal/runtime/dynamic.go:81-126 | The state and the result after a node are those of the specification, errors included. |
| DynamicContext.DynamicRenderContext.RenderNodes | internal/runtime/dynamic.go:67-79 | The fragments that are not empty, in order, and the state after the first error. |
| DynamicContext.DynamicRenderContext.RenderChildren | internal/runtime/dynamic.go:148-154 | The joined fragments of some nodes, and the state after them. |
| DynamicContext.DynamicRenderContext.RenderBind | internal/runtime/dynamic.go:128-146 | A bound value is an argument and a scope value under its trimmed name; missing, invalid and raw bindings are refused. |
| DynamicContext.DynamicRenderContext.RenderForeach | internal/runtime/dynamic.go:185-271 | A loop over a list; nothing for an absent or nil collection that may be missing; errors for other kinds. |
| DynamicContext.DynamicRenderContext.RenderIterations | internal/runtime/dynamic.go:216-259 | All iterations from the first on, each after the scopes of the one before were restored. |
| DynamicContext.DynamicRenderContext.RenderIteration | internal/runtime/dynamic.go:217-258 | One iteration in its own scope, which is left again also when it fails. |
| DynamicContext.DynamicRenderContext.Enter | internal/runtime/dynamic.go:218-233 | The item and the index get fresh aliases, arguments and scope values. |
| DynamicContext.DynamicRenderContext.Leave | internal/runtime/dynamic.go:235-252 | The aliases and values of the item and the alias of the index are restored; the value of the index is removed. |
| DynamicContext.DynamicRenderContext.RenderChoose | internal/runtime/dynamic.go:280-303 | The first branch whose test holds, or the last otherwise before it; other nodes are refused when they are reached. |
| DynamicContext.DynamicRenderContext.NextAlias | internal/runtime/dynamic.go:305-313 | A fresh alias, and the counter moves on. |
| DynamicContext.RenderDynamicSql | internal/runtime/dynamic.go:37-57 | The statement and the arguments a caller gets for its own arguments. |
| DynamicAlias.RewriteDynamicParameterAliases | internal/runtime/dynamic_alias.go:6-41 | The index loop with its builder rewrites every placeholder, once, and copies all other text. |
| DynamicAlias.RewriteDynamicParameterName | internal/runtime/dynamic_alias.go:43-65 | The path with the alias of its root; none for a bad path or a root without alias. |
| DynamicAlias.ReadSqlPlaceholderName | internal/runtime/statement.go:158-173 | The end of a placeholder and its trimmed name; none for an unclosed one or one with a brace inside. |
| DynamicAlias.RewriteRenames | internal/runtime/dynamic_alias.go:6-41 | Reading the rewritten text gives the symbols of the text with exactly its placeholders renamed: rewriting neither makes nor breaks a placeholder anywhere. |
| DynamicAlias.EnteredIdentifiers | internal/runtime/dynamic.go:305-323 | The aliases the renderer makes are identifiers, whatever the names of loop variables are. |
| DynamicAlias.AliasText | internal/runtime/dynamic.go:305-324 | The alias of a name is the prefix, its letters, digits and underscores, or the word item when it has none, and the number. |
| DynamicAlias.BindNames | internal/runtime/dynamic.go:128-136 | A bind can have exactly the identifiers as names. |
| DynamicAlias.PathTaken | internal/runtime/dynamic_alias.go:43-65 | A path with a valid rest is taken apart into its root and that rest. |
| DynamicText.NormalizeSqlFragment | internal/runtime/dynamic.go:379-392 | The text of the fragment with its lines trimmed, blank ones dropped and the rest joined by spaces. |
| DynamicText.NormalSyms | internal/runtime/dynamic.go:379-392 | Reading the normalised text gives the normalised symbols of the text: no placeholder is made, broken or renamed. |
| DynamicLines.LinesJoined | internal/runtime/dynamic.go:379-392 | A text of lines that are not blank is normalised to the trimmed lines with one space between them. |
| DynamicLines.BlankLineDropped | internal/runtime/dynamic.go:379-392 | A blank line, wherever it is, leaves no trace. |
| DynamicText.TextRendered | internal/runtime/dynamic.go:81-90 | A fragment normalised and renamed by characters reads as the fragment normalised and renamed by symbols, which is what the renderer of the model works on. |
| DynamicWords.NormalizedWords | internal/runtime/dynamic.go:379-392 | Normalising a fragment, whatever its lines and white space are, keeps its words and their order. |
| DynamicWords.JoinedWords | internal/runtime/dynamic.go:394-427 | Joining fragments keeps all their words, in order, and adds none. |
| DynamicWords.WhereWords | internal/runtime/dynamic.go:91-100 | A WHERE node writes the word WHERE before the words of its children without a leading AND or OR, or nothing when no word is left. |
| DynamicWords.SetWords | internal/runtime/dynamic.go:101-110 | A SET node writes the word SET before the words of its children without a comma at the end, or nothing. |
| DynamicPlaces.LoopEnclosed | internal/runtime/dynamic.go:254-270 | What a loop writes: nothing when no iteration leaves a fragment; else the opening text trimmed on the left, the fragments in the order of the iterations, each but the first right behind the trimmed separator and one space, and the closing text trimmed on the right. |
| DynamicPlaces.FragmentOfItem | internal/runtime/dynamic.go:216-258 | The fragments of a loop are those that its children leave, one item after the other, with the item and the index bound to their values and fresh aliases; empty ones are left out. |
| DynamicPlaces.TrimAroundContent | internal/runtime/dynamic.go:164-183 | A trim node writes nothing without content, else the prefix, one space, the content, one space and the suffix; a blank prefix or suffix is left out with its space. |
| DynamicPlaces.FirstOpening | internal/runtime/dynamic.go:341-358 | Of the prefixes to drop, the first one in the list that stands at the beginning, in any letter case, with a space or nothing after it, is dropped; without one nothing is. |
| DynamicPlaces.FirstClosing | internal/runtime/dynamic.go:360-377 | Of the suffixes to drop, the first one in the list that stands at the end, in any letter case, is dropped; without one nothing is. |
| DynamicPlaces.KeywordBefore | internal/runtime/dynamic.go:91-110 | What a WHERE or SET node writes begins with that word and one space. |
| DynamicPlaces.JoinedPlaces | internal/runtime/dynamic.go:394-427 | Joined fragments stand in their order, trimmed, with one space between any two. |
| DynamicChoice.ChooseStops | internal/runtime/dynamic.go:280-303 | A choose node renders the children of the first branch whose test holds; a test that fails before it is its error, and so is a node that is no branch. |
| DynamicChoice.ChooseOtherwise | internal/runtime/dynamic.go:280-303 | When no test holds or fails, it renders the children of the last otherwise, or nothing without one. |
| Includes.ExpandDynamicIncludes | ormgen/xml.go:1068-1105 | The recursion with its append loop and stack gives the expansion, or the error, of the specification. |
| Includes.ExpansionFails | ormgen/xml.go:1068-1105 | Expansion fails exactly when a blank, missing or circular reference can be reached along some path of references. |
| Includes.ExpansionSubstitutes | ormgen/xml.go:1068-1105 | Otherwise the result is the full substitution, at any depth from the number of fragments on, and holds no include. |
| Includes.ExpandedFree | ormgen/xml.go:1068-1113 | No include is left at any depth below any stack. |
| Includes.ExpandedTreesRender | internal/runtime/dynamic.go:119-120 | The renderer never refuses an expanded tree for an include that was not expanded. |
| ExpressionScanner.WrittenTreeEvaluates | internal/runtime/expression.go:29-39 | Every well-formed tree, written with only the parentheses precedence asks for and spaces between tokens, is scanned and parsed to its end and gives the strict value or error of the tree. |
| ExpressionTree.PrintedTreeEvaluates | internal/runtime/expression.go:201-484 | The same from tokens on: the parser consumes exactly the tokens of the tree. |
| ExpressionTree.OperatorsAre | internal/runtime/expression.go:226-362 | The parser finds a binary operator exactly where it is written: by its sign, or by its word in any letter case, at its own level. |
| ExpressionMeaning.ComparisonMeans | internal/runtime/expression.go:637-669 | For all operands: each of eq, ne, neq, gt, gte, ge, lt, lte and le, in any letter case, compares them in their order with its sign, as the sign itself does. |
| ExpressionMeaning.ArithmeticMeans | internal/runtime/expression.go:293-362 | For all operands: + adds, and -, *, / and % are done in the order written with the sign written. |
| ExpressionMeaning.LogicMeans | internal/runtime/expression.go:226-291 | For all operands: OR is true when one of them is, AND when both are, IN when the right one contains the left one, NOT IN when it does not. |
| ExpressionMeaning.UnaryMeans | internal/runtime/expression.go:364-401 | For all operands: NOT and ! negate the truth, EMPTY asks for emptiness, and a sign is applied to the number. |
| ExpressionMeaning.ConditionalMeans | internal/runtime/expression.go:201-224 | For all operands: a ? b : c is b when a is true and else c. |
| ExpressionMeaning.BindingMeans | internal/runtime/expression.go:256-362 | For all operands: products bind before sums, sums before comparisons, and differences from the left. |
| ExpressionMeaning.LogicBinding | internal/runtime/expression.go:226-291 | For all operands: AND binds before OR on either side, and comparisons before AND. |
| ExpressionMeaning.Unclosed | internal/runtime/expression.go:403-536 | For all operands: a parenthesis, a list or a call without its end is refused as such. |
| ExpressionMeaning.Misplaced | internal/runtime/expression.go:21-60 | For all operands: a question without a colon, a second value without an operator, and a missing value are refused as such. |
| ExpressionMeaning.EmptyAsName | internal/runtime/expression.go:685-704 | EMPTY with no value after it is a name. |
| ExpressionTree.ReadLevel | internal/runtime/expression.go:226-362 | At each level of the grammar a printed operand is read back with its value, up to the token that stops that level. |
| ExpressionTree.ReadConditional | internal/runtime/expression.go:201-224 | A conditional reads back; its branches are both evaluated. |
| ExpressionTree.ReadMethod | internal/runtime/expression.go:452-484 | A method call with any number of arguments reads back with the value of the call. |
| ExpressionTree.ReadListing | internal/runtime/expression.go:486-504 | A list literal reads back with the list of the values. |
| ExpressionScanner.BlankSkipped | internal/runtime/expression.go:72-76 | Blanks, tabs and line ends between tokens are passed over. |
| ExpressionScanner.ScanSpaced | internal/runtime/expression.go:69-145 | Tokens written with spaces between them are scanned as those tokens. |
| ExpressionScanner.ScanExpressionTokens | internal/runtime/expression.go:69-145 | The scanner loop gives the tokens of the text and the end, or the first error. |
| ExpressionScanner.ScanExpressionString | internal/runtime/expression.go:147-159 | The quoted text from an index and the index after it; an error when it is not closed. |
| ExpressionScanner.ScanExpressionNumber | internal/runtime/expression.go:169-190 | The longest number with fraction and exponent from an index on. |
| ExpressionScanner.EvalValueExpression | internal/runtime/expression.go:21-39 | Scanning, parsing and the check that nothing is left over. |
| ExpressionParser.ExpressionParser.ParseTernary | internal/runtime/expression.go:201-224 | Value or error and the position after it, as the grammar of the specification reads them; it moves on. |
| ExpressionParser.ExpressionParser.ParseOr | internal/runtime/expression.go:226-239 | Left-associative OR; both sides are evaluated. |
| ExpressionParser.ExpressionParser.ParseAnd | internal/runtime/expression.go:241-254 | Left-associative AND; both sides are evaluated. |
| ExpressionParser.ExpressionParser.ParseComparison | internal/runtime/expression.go:256-291 | Comparisons, IN and NOT IN, from left to right. |
| ExpressionParser.ExpressionParser.ParseAdditive | internal/runtime/expression.go:293-322 | Sums and differences, from left to right. |
| ExpressionParser.ExpressionParser.ParseMultiplicative | internal/runtime/expression.go:324-362 | Products, quotients and remainders, from left to right. |
| ExpressionParser.ExpressionParser.ParseUnary | internal/runtime/expression.go:364-401 | NOT, EMPTY and sign; words that only look like operators stay names. |
| ExpressionParser.ExpressionParser.ParsePrimary | internal/runtime/expression.go:403-450 | Parentheses, lists, literals, names and calls. |
| ExpressionParser.ExpressionParser.ParsePostfix | internal/runtime/expression.go:452-484 | Method calls and properties after a value. |
| ExpressionParser.ExpressionParser.ParseItems | internal/runtime/expression.go:522-540 | The items up to a closing token, separated by commas. |
| ExpressionParser.ExpressionParser.MatchNotIn | internal/runtime/expression.go:671-683 | Two words are consumed together or not at all. |
| ExpressionParser.ExpressionParser.MatchEmptyOperator | internal/runtime/expression.go:685-704 | EMPTY is an operator only when a value can follow it. |
| ExpressionParser.EvalTokens | internal/runtime/expression.go:29-39 | The parser object on any token list gives what the grammar gives, and terminates. |
| SqlLexer.LexConcat | internal/runtime/interceptor.go:931-985 | Texts that do not run into each other are cut as their parts. |
| SqlLexer.LexTake | internal/runtime/interceptor.go:669-675 | A prefix that ends where a lexeme starts has the same meaningful lexemes. |
| SqlForms.LineComment | internal/runtime/interceptor.go:987-1009 | Two dashes comment out the rest of the line, and without a line end the comment is open. |
| SqlForms.BlockComment | internal/runtime/interceptor.go:987-1009 | A slash and a star comment out everything up to the next star and slash. |
| SqlForms.QuotedForm | internal/runtime/interceptor.go:1025-1115 | A text between apostrophes is a string literal, one between double quotes or backticks a quoted name, one between brackets a bracketed name. |
| SqlForms.PlaceholderForm | internal/runtime/interceptor.go:1011-1023 | A placeholder goes from # or $ and a brace to the next closing brace. |
| SqlForms.WordForm | internal/runtime/interceptor.go:1170-1176 | A name of letters, underscores and digits, with no digit first, is one word. |
| SqlForms.SingleForm | internal/runtime/interceptor.go:1170-1182 | Parentheses, white space and digits are lexemes of one character. |
| SqlScan.SeekFromIsSeek | internal/runtime/interceptor.go:931-985 | Searching from a character position on is searching the lexemes from there on, at every depth. |
| SqlScan.SeekFromInWord | internal/runtime/interceptor.go:931-985 | Inside parentheses it makes no difference that the loops step through words one character at a time. |
| SqlScan.FindSqlKeyword | internal/runtime/interceptor.go:931-985 | The position of the first such word at depth zero among the lexemes, or -1. |
| SqlScan.FindSqlTailStart | internal/runtime/interceptor.go:677-727 | The position of the first trailing clause after the scan start at depth zero among the lexemes, or -1. |
| SqlScan.SqlTailScanStart | internal/runtime/interceptor.go:729-746 | The scan starts after FROM in a SELECT or a WITH with a SELECT, else at the beginning. |
| SqlScan.IsSqlTailClause | internal/runtime/interceptor.go:748-770 | Whether a word and the meaningful lexemes after it start a trailing clause. |
| SqlScan.SqlTailArgumentStartsAt | internal/runtime/interceptor.go:772-784 | Whether what follows LIMIT or OFFSET is an argument. |
| SqlScan.SqlTokenFollowedByPredicateOperator | internal/runtime/interceptor.go:786-800 | Whether what follows HAVING makes it the name of a column. |
| SqlScan.ContainsOrderBy | internal/runtime/dialect.go:229-282 | Whether ORDER is followed by BY at depth zero among the lexemes. |
| SqlScan.SkipSqlComment | internal/runtime/interceptor.go:987-1009 | A comment is skipped to its end, and only a comment. |
| SqlScan.SkipSqlPlaceholder | internal/runtime/interceptor.go:1011-1023 | A placeholder is skipped to its end, and only a placeholder. |
| SqlScan.SkipSqlQuoted | internal/runtime/interceptor.go:1075-1089 | A quoted text is skipped to its closing character that is not doubled. |
| SqlScan.ReadSqlQuotedIdentifier | internal/runtime/interceptor.go:1091-1110 | The name between the quotes with doubled quotes undone, and the position after it. |
| SqlScan.SkipSqlSpacesAndComments | internal/runtime/interceptor.go:568-581 | The position of the next meaningful lexeme. |
| SqlScan.HasSqlKeywordAt | internal/runtime/interceptor.go:1060-1069 | Whether the lexeme at a position is the keyword. |
| SqlQuote.QuotedNameReadsBack | internal/runtime/dialect.go:225-227 | A quoted name is one closed lexeme exactly when the text after it does not start with its closing quote, and then reads back as the name, for each dialect. |
| SqlColumns.ContainsSqlColumn | internal/runtime/entity_interceptor.go:311-350 | The loop over characters finds the key of the column as the last part of a name outside comments, literals, placeholders and subqueries. |
| SqlNames.ColumnKeyIs | internal/runtime/sqlsession.go:1179-1195 | Columns are compared by their names in small letters without underscores, hyphens, dots and spaces, whether the short cut is taken or not. |
| SqlColumns.SqlParenStartsSubquery | internal/runtime/entity_interceptor.go:352-358 | Whether SELECT or WITH is the first word after a parenthesis. |
| SqlColumns.ReadSqlIdentifierNamePath | internal/runtime/interceptor.go:1130-1145 | The last part of a dotted name and the position after it. |
| SqlColumns.ReadSqlIdentifierNameSegment | internal/runtime/interceptor.go:1147-1168 | One part of a name with its quotes undone, and the position after it. |
| SqlColumns.ContainsIsFinds | internal/runtime/entity_interceptor.go:311-350 | The search over characters is a search over the lexemes, whatever closed comments, literals and subqueries are in the text, and whatever names, as long as bracketed ones and parentheses do not come together. |
| SqlPresence.ColumnThere | internal/runtime/entity_interceptor.go:311-350 | In a text without subqueries a column is found exactly when a lexeme that ends a dotted name is the same by the characters that count, and the column has such characters. |
| SqlPresence.SubqueryHides | internal/runtime/entity_interceptor.go:311-358 | With a subquery, whose parenthesis stands right before SELECT or WITH, the names before it and behind it are looked at, and none inside. |
| SqlPath.QuoteIdentifierPath | internal/runtime/wrapper.go:788-819 | The parts of a trimmed dotted name quoted one by one, or an error for a part that is no identifier. |
| SqlPath.PlainQuoted | internal/runtime/dialect.go:88-230 | A plain name is quoted by backticks, double quotes or brackets, as the dialect says. |
| SqlPath.PathNames | internal/runtime/wrapper.go:788-819 | A dotted name without white space around its parts can be quoted exactly when every part is made of letters, underscores and digits, with no digit first, and has exactly those parts. |
| SqlPath.PathLex | internal/runtime/wrapper.go:788-819 | A quoted dotted name is read as exactly its quoted parts and the dots, for each dialect. |
| SqlPath.PathFound | internal/runtime/entity_interceptor.go:311-350 | A quoted dotted name is found under the key of its last part. |
| SqlList.SplitSqlTopLevelComma | internal/runtime/interceptor.go:491-536 | The pieces are the texts of the items between commas at depth zero of the lexemes. |
| SqlList.PiecesAreItems | internal/runtime/interceptor.go:491-536 | The same from any position and depth. |
| SqlList.FindClosingSqlParen | internal/runtime/interceptor.go:622-659 | The position of the matching parenthesis as this scanner counts. |
| SqlList.CloseFromIsClose | internal/runtime/interceptor.go:622-659 | Without bracketed names, which this scanner does not skip, that is the matching parenthesis of the lexemes. |
| SqlList.ItemsConcat | internal/runtime/interceptor.go:491-536 | A comma and more items at the end of a list add exactly those items. |
| SqlPredicate.DisjunctsJoin | internal/runtime/interceptor.go:385-394 | Joined by AND, the disjuncts of two predicates are those of the first with all of the second joined to the last one, whatever BETWEEN they contain. |
| SqlPredicate.JoinExact | internal/runtime/interceptor.go:385-394 | A complete predicate can be joined with any further condition exactly when it has no OR at depth zero. |
| SqlPredicate.JoinedExact | internal/runtime/interceptor.go:385-394 | A complete condition can be joined to any predicate exactly when it has no OR at depth zero. |
| SqlRewrite.AppendSqlCondition | internal/runtime/interceptor.go:374-395 | The text the code writes. |
| SqlRewrite.SplitSqlConditionTail | internal/runtime/interceptor.go:669-675 | The text before the trailing clauses, and they. |
| SqlRewrite.SpliceParses | internal/runtime/interceptor.go:374-395 | The spliced statement reads back as the old one with the condition joined to its predicate: head and trailing clauses stay. |
| SqlRewrite.SpliceExact | internal/runtime/interceptor.go:374-395 | Any further condition restricts a statement exactly when its predicate has no OR at depth zero. |
| SqlRewrite.AppendedStatement | internal/runtime/interceptor.go:374-395 | The same for texts: comments, literals and names around the splice do not matter. |
| SqlRewrite.SplicedReadable | internal/runtime/interceptor.go:374-395 | The result can be spliced into again. |
| SqlRewrite.StackedConditions | internal/runtime/interceptor.go:374-395 | Any number of conditions, one after the other, restricts the statement to the rows that meet them all. |
| SqlRewrite.StackedAnyOrder | internal/runtime/interceptor.go:374-395 | Their order does not matter. |
| SqlClauses.ClauseIs | internal/runtime/interceptor.go:748-806 | A trailing clause begins exactly with: ORDER BY, GROUP BY, HAVING before no operator, FETCH FIRST or NEXT, FOR UPDATE, SHARE, NO or KEY, and LIMIT or OFFSET before a digit, a placeholder, a parenthesis or ALL; in any letter case. |
| SqlClauses.TailIs | internal/runtime/interceptor.go:677-746 | The trailing clauses are those from the first such beginning at depth zero, behind the first FROM of a SELECT or of a WITH that has a SELECT, else in the whole statement. |
| SqlClauses.ClausesStay | internal/runtime/interceptor.go:374-395 | A condition for a statement without a clause, a space and a clause gives the trimmed statement, WHERE or AND, the condition, and the clause. |
| SqlClauses.NoClauseAtEnd | internal/runtime/interceptor.go:374-395 | A condition for a statement without a trailing clause, as with ORDER or GROUP without BY, HAVING before an operator, or LIMIT without an argument, is put at its end. |
| SqlExamples.GroupByStays | internal/runtime/interceptor.go:374-395 | A grouped SELECT gets its WHERE before the GROUP BY. |
| SqlUpdate.AppendUpdateAssignment | internal/runtime/entity_interceptor.go:275-287 | The text the code writes, or the error without SET. |
| SqlUpdate.AssignExact | internal/runtime/entity_interceptor.go:275-287 | Exactly one SET item is added, and nothing else changes, exactly when the UPDATE has a WHERE or no trailing clause. |
| SqlUpdate.AssignedStatement | internal/runtime/entity_interceptor.go:275-287 | The same for texts. |
| SqlLock.StatementRuntime.ApplyOptimisticLock | internal/runtime/entity_interceptor.go:169-196 | The text with the increment and the comparison, each unless the column is there already, and the old version under a name no other argument has; statement and arguments are unchanged without a version, for a bad column name and without SET. |
| SqlOrder.LockedUpdate | internal/runtime/entity_interceptor.go:169-196 | Of an UPDATE with SET, WHERE and trailing clauses in this order, the table, the old SET items and the trailing clauses stay; exactly the assignment is added to the SET items and exactly the condition to the predicate, and the UPDATE stays in order. |
| SqlLock.LockedStatement | internal/runtime/entity_interceptor.go:169-196 | For every text of an UPDATE in order, every dialect and every column name that can be quoted: the rewritten text reads back as the old one with the increment as a further SET item and the comparison joined to the predicate, each unless the search found the column. |
| SqlLock.SqlSetContainsColumn | internal/runtime/entity_interceptor.go:289-300 | Whether the column is named between SET and WHERE. |
| SqlLock.SqlWhereContainsColumn | internal/runtime/entity_interceptor.go:302-309 | Whether the column is named between WHERE and the trailing clauses. |
| SqlPresence.SetContainsIs | internal/runtime/entity_interceptor.go:289-300 | The column is looked for in the text from behind the first SET at depth zero to the first WHERE at depth zero behind it, or to the end. |
| SqlPresence.WhereContainsIs | internal/runtime/entity_interceptor.go:302-309 | The column is looked for in the text from behind the first WHERE at depth zero to the first trailing clause behind it. |
| SqlPresence.WhereContainsAtEnd | internal/runtime/entity_interceptor.go:302-309 | Without a trailing clause it is looked for up to the end. |
| SqlPresence.NoWhere | internal/runtime/entity_interceptor.go:302-309 | Without a WHERE at depth zero no column is found there. |
| SqlPresence.AssignmentPlaced | internal/runtime/entity_interceptor.go:275-287 | A comma and the assignment are written before the first WHERE at depth zero behind SET, and to the end without one. |
| SqlPresence.NoSet | internal/runtime/entity_interceptor.go:275-300 | There is an error exactly without a SET at depth zero, and then no column is found behind SET. |
| SqlMiddle.MiddleSpliceable | internal/runtime/entity_interceptor.go:275-287 | The text after the assignment was put in still meets what the condition needs, its borders and comments included. |
| SqlLock.LockIsFound | internal/runtime/entity_interceptor.go:289-350 | For every dialect and column name: the search finds the increment and the comparison that a lock writes exactly when the name has a character that counts in the comparison, and finds a name without one in no text. |
| SqlOrder.AssignedParse | internal/runtime/entity_interceptor.go:275-287 | The assignment changes neither the predicate nor the trailing clauses. |
| SqlOrder.SplicedItems | internal/runtime/interceptor.go:374-395 | A condition changes neither the table nor the SET items. |
| SqlLock.NextSqlArgName | internal/runtime/interceptor.go:802-815 | The first name with the prefix that is not taken; the search ends. |
| SqlInsert.AppendTenantInsertColumn | internal/runtime/interceptor.go:397-437 | The text the code writes, the flag for no change, or one of its errors. |
| SqlInsert.AppendTenantInsertValues | internal/runtime/interceptor.go:439-476 | The rows with one more value each and what follows them, or one of its errors. |
| SqlInsert.InsertColumnListContains | internal/runtime/interceptor.go:478-489 | Whether an item of the list has the key of the column. |
| SqlColumnList.ListContainsIs | internal/runtime/interceptor.go:478-566 | A list of names, plain, in quotes or brackets, or behind another name and a dot, has the column exactly when one of them is the same by the characters that count, and the column has such characters. |
| SqlInsert.QuotedUnquoted | internal/runtime/interceptor.go:549-566 | Quotes are undone for every name and dialect, except that doubled closing brackets stay doubled. |
| SqlInsert.ReadSqlTableReference | internal/runtime/interceptor.go:583-597 | The end of a dotted name of plain, quoted and bracketed parts. |
| SqlInsert.ReadSqlIdentifierSegment | internal/runtime/interceptor.go:599-620 | The end of one part of a name. |
| SqlInsert.AddedRows | internal/runtime/interceptor.go:439-476 | For any number of rows: each row gets the value as its last one, and what follows the rows stays. |
| SqlInsert.AddedColumn | internal/runtime/interceptor.go:397-437 | The statement reads back with the column as the last one and the value as the last one of every row; table, other values and trailing clause stay. |
| SqlInsert.RowsTokens | internal/runtime/interceptor.go:439-476 | The rewritten rows have the lexemes of the rows with the value put in. |
| SqlInsert.TenantInsertReads | internal/runtime/interceptor.go:397-476 | The same for texts without bracketed names: columns and values stay aligned. |
| SqlInsert.TenantInsertTwice | internal/runtime/interceptor.go:397-437 | A second rewriting changes nothing exactly when the column name has a character that counts in the comparison. |
| SqlExamples.OrInWhere | internal/runtime/interceptor.go:374-395 | A SELECT with OR that meets every other hypothesis: a row of the first alternative is selected although it does not meet the added condition. |
| SqlExamples.LimitWithoutWhere | internal/runtime/entity_interceptor.go:275-287 | An UPDATE with LIMIT and no WHERE: the assignment becomes part of the LIMIT clause and the SET items stay. |
| SqlComments.AssignedTextExact | internal/runtime/entity_interceptor.go:275-287 | For every UPDATE and assignment, on one line from the WHERE on: the text is the parsed statement with the assignment put in exactly when no comment is open before it. |
| SqlComments.AssignmentLost | internal/runtime/entity_interceptor.go:275-287 | Otherwise it reads as what is before the WHERE, without the assignment and the WHERE. |
| SqlComments.SplicedTextExact | internal/runtime/interceptor.go:374-395 | For every statement and condition, with trailing clauses on one line: the text is the parsed statement with the condition joined exactly when no comment is open before it. |
| SqlComments.ConditionLost | internal/runtime/interceptor.go:374-395 | Otherwise it reads as the statement without the condition and the trailing clauses. |
| SqlExamples.CommentBeforeWhere | internal/runtime/entity_interceptor.go:275-287 | Such an UPDATE of one row, of which an UPDATE of all rows without the assignment is left. |
| SqlExamples.UnderscoreColumn | internal/runtime/interceptor.go:397-437 | An INSERT to which a tenant column named `_` is added twice. |
| SqlLock.UnderscoreVersion | internal/runtime/entity_interceptor.go:311-350 | A version column named `_` can be quoted and is never found in any text. |
| Mapper.SoftDeleteSimulatesDelete | internal/runtime/base_mapper.go:513-723 | Over every run of inserts, selects, counts, updates and deletes the results and row counts are those of a table with real deletes, the live rows are its rows, and no physical row disappears. Inserts are live and reuse no deleted id; wrappers have no OR at the top. |
| Mapper.CallSimulates | internal/runtime/base_mapper.go:513-723 | The same for one call, from any table. |
| Mapper.WrapperExact | internal/runtime/base_mapper.go:739-787 | For every wrapper: the joined text picks the wanted live rows of every table exactly when no alternative but the last can hold of a row that is not live; a wrapper without OR has no such alternative. |
| Mapper.WrapperWithOr | internal/runtime/base_mapper.go:739-787 | The same for one table: no earlier alternative holds of one of its dead rows. |
| Mapper.AndLiveRow | internal/runtime/base_mapper.go:749-762 | What the joined text means for a row: an earlier alternative holds, or the last one and the row is live. |
| Mapper.AndLive | internal/runtime/base_mapper.go:749-762 | With one alternative or none the joined text holds of exactly the live rows that the wrapper asks for. |
| Mapper.DeletedRowListed | internal/runtime/base_mapper.go:739-787 | A wrapper with OR and a table whose deleted row a list shows, and a table with real deletes does not. |
| Mapper.VersionCountsSuccesses | internal/runtime/base_mapper.go:513-579 | For any interleaving of updates by id with no other writer, the version is its first value plus the number of successes, and the successes consumed the versions in between, each once and in order. |
| Mapper.UpdateCountsVersion | internal/runtime/base_mapper.go:513-579 | One update succeeds only on the version its entity carries, and counts it up by one; otherwise the row stays. |
| MapperReads.UpdateWrites | internal/runtime/base_mapper.go:513-579 | A successful update by id changes exactly one row: each column gets the value of its field as its strategy and expression say, the version is counted up, and every other column and row is as before. |
| MapperReads.StrategiesMean | internal/runtime/base_mapper.go:905-942 | In the row after a successful update by id, for each ordinary column: never and always written; written unless the value is null, null or empty, or null or zero, as the strategy of the column says, else that of the mapper, else always. |
| MapperReads.ManagedColumns | internal/runtime/base_mapper.go:905-942 | In the same row the version is counted up, and the key, the soft-delete mark and the time of creation stay. |
| MapperReads.RefusedExactly | internal/runtime/base_mapper.go:513-610 | An update is refused exactly when a field is missing, nothing is to be set, or its wrapper is empty; a delete by wrapper exactly when that is empty. |
| MapperReads.ListReads | internal/runtime/base_mapper.go:256-385 | A wrapper without OR lists and counts exactly the rows that meet it and are not deleted. |
| MapperReads.NothingUnderNull | internal/runtime/base_mapper.go:210-254 | Nothing is read or deleted under a null id. |
| MapperReads.RowWritten | internal/runtime/base_mapper.go:905-942 | The assignments of an update write each column as its field and strategy say. |
| MapperReads.SelectReads | internal/runtime/base_mapper.go:210-234 | Selecting by id gives the row under the id, or the error of a missing row when there is none that is not deleted. |
| MapperReads.InsertReadsBack | internal/runtime/base_mapper.go:392-424 | An inserted row is read back under its id, which was free, and no other row is read differently. |
| MapperReads.DeleteHides | internal/runtime/base_mapper.go:673-691 | A deleted row, removed or marked, is not read any more; the count says whether there was one; no other row is read differently. |
| Mapper.BaseMapper.UpdateSetColumns | internal/runtime/base_mapper.go:905-942 | The assignments by column strategy and the version increment; refused for a missing field or no assignment. |
| Mapper.BaseMapper.SelectById | internal/runtime/base_mapper.go:210-234 | The row under the id if it is live, else the error of a missing row; the table stays. |
| Mapper.BaseMapper.SelectList | internal/runtime/base_mapper.go:256-266 | The rows of the wrapper and the live condition as the joined text reads; the table stays. |
| Mapper.BaseMapper.Count | internal/runtime/base_mapper.go:373-384 | The number of those rows. |
| Mapper.BaseMapper.Insert | internal/runtime/base_mapper.go:392-424 | One row more, or a refusal for a taken id. |
| Mapper.BaseMapper.UpdateById | internal/runtime/base_mapper.go:513-579 | The rows with the id, the version and the live mark are set; refused without id or version. |
| Mapper.BaseMapper.Update | internal/runtime/base_mapper.go:582-636 | The rows of the wrapper are set; refused without a condition. |
| Mapper.BaseMapper.DeleteById | internal/runtime/base_mapper.go:673-691 | The row is marked or removed. |
| Mapper.BaseMapper.Delete | internal/runtime/base_mapper.go:699-723 | The rows of the wrapper are marked or removed; refused without a condition. |
| MemoryCache.MemoryCache.Get | internal/runtime/cache.go:136-159 | The value, the list with the entry in front, and the counters; an expired entry is dropped and counted. |
| MemoryCache.MemoryCache.Put | internal/runtime/cache.go:162-186 | The entry in front with the new value and time, and what exceeds the capacity dropped from the back and counted. |
| MemoryCache.MemoryCache.Remove | internal/runtime/cache.go:189-202 | The entry is dropped and counted, if there is one. |
| MemoryCache.MemoryCache.Clear | internal/runtime/cache.go:205-218 | All entries are dropped; the counters stay but for the clears. |
| MemoryCache.MemoryCache.RemoveElement | internal/runtime/cache.go:220-235 | The element leaves the list and the map together. |
| MemoryCache.MemoryCache.MoveToFront | internal/runtime/cache.go:157-157 | The element comes first and the others keep their order. |
| MemoryCache.MemoryCache.Shrink | internal/runtime/cache.go:181-183 | Elements leave from the back until the capacity is kept. |
| CacheRuns.HitsAreLatest | internal/runtime/cache.go:136-235 | After any run no key is held twice, the capacity is kept, and a hit is the value last put since the last remove or clear, no older than the time to live. |
| CacheRuns.UnevictedIsMap | internal/runtime/cache.go:136-235 | A cache that has evicted nothing answers as an unbounded map of the unexpired values. |
| CacheRuns.CountersAddUp | internal/runtime/cache.go:122-235 | Hits and misses add up to the reads, puts and clears are counted; insertions to entries left, removed, evicted, expired and cleared. |
| CacheRecency.RecentStays | internal/runtime/cache.go:136-186 | From any cache: a key that is put is still read after any run that does not remove it, as long as fewer other keys than the capacity are used meanwhile and no more time passes than the time to live. |
| CacheRecency.HeldRun | internal/runtime/cache.go:136-235 | Only keys used since then ever come before a key in the list. |
| CacheRuns.IncludedStep | internal/runtime/cache.go:136-235 | One operation with the same clock on two caches of capacities m <= n keeps the inclusion and hits the larger whenever it hits the smaller. |
| CacheRuns.LargerCacheKeepsMore | internal/runtime/cache.go:136-235 | After the same timed operations the larger cache holds every entry of the smaller one and has had at least as many hits. |
| BlockingCache.EveryInterleaving | internal/runtime/blocking_cache.go:25-141 | For any number of threads in any order: every closed channel was closed once, every waiter has a closed channel or the one of its key's flight, and between two grants of a key its flight is removed. |
| BlockingCache.LoaderOrWaiter | internal/runtime/blocking_cache.go:106-118 | A thread that missed loads the key exactly when there is no flight for it, and then makes one; else it waits for the flight that is there. |
| BlockingCache.WokenAsksAgain | internal/runtime/blocking_cache.go:25-50 | A waiting thread goes on exactly when its channel is closed, and then asks the delegate again unless its context has ended. |
| BlockingCache.ReleaseWakes | internal/runtime/blocking_cache.go:120-141 | Whoever removes a flight, alone or with all the others, makes every thread waiting for the key able to go on. |
| BlockingCache.StepGood | internal/runtime/blocking_cache.go:25-141 | Each step of each thread keeps the invariant. |
| BlockingCache.BlockingCache.BeginFlight | internal/runtime/blocking_cache.go:106-118 | The channel of the key's flight, and whether the caller is the one to load. |
| BlockingCache.BlockingCache.ReleaseFlight | internal/runtime/blocking_cache.go:120-132 | The flight is removed and its channel closed, if there is one. |
| BlockingCache.BlockingCache.ReleaseAllFlights | internal/runtime/blocking_cache.go:134-141 | All flights are removed and their channels closed, in whatever order the map is walked. |
| Properties.NewConfigPropertyResolver | internal/runtime/mybatis_properties.go:15-36 | With the map overwritten while it is walked: the result is that of some walk over the keys; success means that every property can be expanded; and when no referenced key has a placeholder left, it succeeds exactly then and every value is its full expansion, whatever the order. |
| Properties.PropertyIsFull | internal/runtime/mybatis_properties.go:52-102 | The recursion with a stack finds a property exactly when substitution in rounds does, and with the same text. |
| Properties.PropertySound | internal/runtime/mybatis_properties.go:52-71 | The same in one direction, from any stack. |
| Properties.PropertyComplete | internal/runtime/mybatis_properties.go:52-71 | The same in the other direction, from any stack of keys not found so early. |
| Properties.WalkOutcome | internal/runtime/mybatis_properties.go:28-34 | Every walk fails unless all keys can be expanded; when no referenced key has a placeholder left, every walk then ends with the expansions. |
| Properties.OverwrittenSame | internal/runtime/mybatis_properties.go:28-34 | Overwriting some values by their expansions leaves the expansions of the others as they were, when no referenced key has a placeholder left. |
| Properties.ResolvableIffAcyclic | internal/runtime/mybatis_properties.go:52-102 | Every key can be expanded exactly when all placeholders are closed, all references defined and none circular. |
| Properties.NoDollarsClean | internal/runtime/mybatis_properties.go:73-102 | Literal text without a dollar sign is enough for the order not to matter. |
| PropertyOrder.OrderMattersIff | internal/runtime/mybatis_properties.go:15-36 | For all properties: all walks end alike exactly when some key cannot be expanded or no referenced key has a placeholder left. |
| PropertyOrder.DollarOrderMatters | internal/runtime/mybatis_properties.go:15-36 | Three properties with a dollar sign in a literal and two walks over them that end differently. |
| Properties.Resolver.ResolveProperty | internal/runtime/mybatis_properties.go:52-71 | The expansion of a property below a stack, or its error; the stack is as before, also on an error. |
| Properties.Resolver.ResolveString | internal/runtime/mybatis_properties.go:73-102 | The cursor loop writes literals and expansions in order. |
| Properties.ReadReference | internal/runtime/mybatis_properties.go:82-90 | The trimmed name of the next placeholder and the cursor after it. |
| ResultMaps.XmlResultMaps | ormgen/xml.go:1134-1157 | Whatever the order of the declarations: each resolved map is all that is inherited along its chain, and resolving fails exactly for a bad id or a broken chain. |
| ResultMaps.Resolver.ResolveXmlResultMap | ormgen/xml.go:1159-1181 | With the memo filled so far, the result is that of the chain, and the memo stays correct. |
| ResultMaps.MergeIsFlatten | ormgen/xml.go:1203-1219 | Merging a child into what its parent inherited is inheriting along the longer chain: lists are concatenated from the root on, single settings come from the nearest map that has them. |
| ResultMaps.NearestIs | ormgen/xml.go:1203-1219 | A single setting of a chain is that of the last declaration in it that has one, or else that of the root. |
| ResultMaps.ChainIffUnbroken | ormgen/xml.go:1159-1181 | A chain is found exactly when no ancestor is missing and none comes back. |
| ResultMaps.ChainOfParent | ormgen/xml.go:1159-1181 | The chain of a map is the map alone when it names no parent, else that of its parent, by local id, and itself. |
| ResultMaps.LocalIdIs | ormgen/xml.go:1221-1229 | The prefix of the own namespace is dropped from an id, and nothing else is. |
| ResultMaps.OrderDoesNotMatter | ormgen/xml.go:1134-1157 | Declarations in another order give the same models and the same chains. |
| ResultMaps.Register | ormgen/xml.go:1136-1147 | The declared models by local id; a blank or repeated id is refused. |
| Snowflake.IdsStrictlyIncrease | internal/runtime/identifier_generator.go:59-91 | The identifiers of a new generator strictly increase over every run, however the clock goes back, exactly when each call after a failed wait sees a clock past the last millisecond used; all are non-negative int64 values with the node. |
| Snowflake.DecodeCompose | internal/runtime/identifier_generator.go:43-91 | An identifier decodes to its timestamp, node and sequence number, and is 0 only when all of them are. |
| Snowflake.ComposeOrder | internal/runtime/identifier_generator.go:43-91 | Identifiers are ordered as their timestamps and then their sequence numbers. |
| Snowflake.NextIssues | internal/runtime/identifier_generator.go:59-91 | One call gives an identifier above the last one, unless a failed wait is followed by a clock that has not moved. |
| Snowflake.NodesDisjoint | internal/runtime/identifier_generator.go:59-91 | Generators with different nodes never issue the same identifier, whatever their clocks do. |
| Snowflake.FailedWaitRepeats | internal/runtime/identifier_generator.go:169-182 | On a clock that stands still, one more call than there are sequence numbers after a failed wait breaks the order. |
| Snowflake.Generator.NextID | internal/runtime/identifier_generator.go:59-91 | The state and the result after a call, with its clock readings. |
| Snowflake.FirstPastIs | internal/runtime/identifier_generator.go:169-182 | The wait ends with the first reading past the current millisecond, and without one exactly when there is none. |
| Snowflake.DecodeBeforeEpoch | internal/runtime/identifier_generator.go:43-91 | Before the epoch an identifier decodes to the clock itself. |
| Snowflake.WaitNextIdentifierMillis | internal/runtime/identifier_generator.go:169-182 | The first reading past the current millisecond, or the error once the context is done. |
| Batch.NothingLostOrRepeated | internal/runtime/batch.go:89-216 | Over every run, however the delegate answers: the requests executed and then the queue are those the caller queued, in order and with their arguments, and queries and commits reach the delegate only with an empty queue. |
| Batch.ReadsSeeEveryWrite | internal/runtime/batch.go:89-141 | A query or commit that reaches the delegate comes after every write queued before it was executed, and its outcome is that of the delegate; otherwise the failed write is still first in the queue. |
| Batch.QueryEnds | internal/runtime/batch.go:89-133 | A query fails as the flush before it does, else as unsupported when it is by metadata and the delegate takes none, else it ends as the delegate answers, which is asked last. |
| Batch.CommitEnds | internal/runtime/batch.go:253-261 | A commit fails as the flush before it does, else it ends as the delegate's commit, which comes last, or well when the delegate has none. |
| Batch.DrainShape | internal/runtime/batch.go:171-204 | A flush ends with an empty queue or at the item it reports, whose index is the number of results; results and queue are the old queue in order. |
| Batch.DrainConserves | internal/runtime/batch.go:171-204 | A flush moves requests from the queue to the delegate and drops none. |
| Batch.DrainRows | internal/runtime/batch.go:171-204 | The rows of the results are those the delegate reported. |
| Batch.BatchSession.Flush | internal/runtime/batch.go:171-204 | Results, queue and error after a flush. |
| Batch.BatchSession.Query | internal/runtime/batch.go:89-102 | Flushes first and asks only when that worked; fails as the flush or the delegate does. |
| Batch.BatchSession.CommitContext | internal/runtime/batch.go:245-253 | Flushes first and commits only when that worked; fails as the flush or the delegate does. |
| Batch.BatchSession.Exec | internal/runtime/batch.go:105-119 | The request is queued. |
| Batch.BatchSession.ExecStatement | internal/runtime/batch.go:144-168 | The request is queued, unless the statement cannot be executed later. |
| Batch.BatchSession.ExecItem | internal/runtime/batch.go:206-217 | An item goes out by its metadata when the delegate takes it, else by name. |
| Batch.RunBatch | internal/runtime/base_mapper_batch.go:87-119 | A flush after each batch and one for the rest; the rows and the error of the loop. |
| Batch.LoopSums | internal/runtime/base_mapper_batch.go:87-119 | The loop returns the rows of the executed requests, from any state of it. |
| Batch.BatchReturnsRows | internal/runtime/base_mapper_batch.go:87-119 | What is returned is the sum of the rows of all executed requests, which without an error are all those queued. |
| Batch.FullBatchFlushed | internal/runtime/base_mapper_batch.go:87-119 | A batch is flushed exactly when it is full: what the calls up to there queued goes out in one flush, and the next batch starts empty. |
| Batch.LastBatch | internal/runtime/base_mapper_batch.go:87-119 | What is left at the end goes out in one flush; when a call fails before the batch is full what was queued is dropped. |
| Batch.BatchRowsAffected | internal/runtime/base_mapper_batch.go:127-133 | The sum of the rows of some results. |
| StructTags.PrintParseBuild | ormgen/render_entity_struct.go:43-156 | A column that is not transient and has a name is printed exactly when no text holds a quote, a semicolon, a line break, a carriage return or a tab, and parsing and building give the column back with its texts trimmed. |
| StructTags.PrintsExactly | ormgen/render_entity_struct.go:43-148 | When printing succeeds. |
| StructTags.ParsePrinted | ormgen/tag.go:52-117 | Parsing a printed tag gives the attributes of the column. |
| StructTags.BuildBack | ormgen/scan.go:163-301 | Building from the attributes of a column gives the column back. |
| StructTags.ColumnStructTag | ormgen/render_entity_struct.go:43-128 | The printed tag, or the error of the first text that cannot be printed. |
| StructTags.TagPrinter.AppendReverseTagString | ormgen/render_entity_struct.go:138-148 | One attribute more for a text, none for an empty one, an error for one that cannot be printed. |
| StructTags.ParseFieldTag | ormgen/tag.go:52-82 | The attributes of a tag, each once and of its kind, or an error. |
| StructTags.BuildColumn | ormgen/scan.go:163-301 | The column of a field and its attributes, or none. |
| TagNames.MarksMean | ormgen/scan.go:204-294 | Each of the ten switches, written by its name in a tag, sets its own field of the column and nothing else. |
| TagNames.NumbersMean | ormgen/scan.go:261-275 | Size, scale and order priority, written by their names, set their own fields to the number and nothing else. |
| TagNames.TextsMean | ormgen/scan.go:230-287 | Each of the seven texts, written by its name, sets its own field to that text and nothing else. |
| TagNames.OptionsMean | ormgen/scan.go:183-224 | Each of the five options, written by its name, sets its own field to what its value stands for, and a value that stands for nothing is refused. |
| TagNames.OptionValues | internal/runtime/field_strategy.go:27-46 | The values of the options, as they are, in small letters, or in small letters with hyphens. |
| TagNames.OptionsPrinted | ormgen/render_entity_struct.go:130-136 | Strategies and fills are printed as their words in small letters, those of strategies with hyphens, and not at all when they are the default. |
| TagNames.TransientMeans | ormgen/scan.go:163-170 | A transient field is no column, whatever its tag says about one. |
| StructTags.ColumnBuilder.ReadText | ormgen/tag.go:149-158 | A text attribute, with a check of its kind. |
| StructTags.ColumnBuilder.ReadFlag | ormgen/tag.go:160-169 | A switch, with a check of its kind. |
| StructTags.ColumnBuilder.ReadNumber | ormgen/tag.go:171-180 | A number, with a check of its kind. |

## Left out

- Drivers, `database/sql`, row scanning, reflection and type handlers: the database is a map of rows and a statement is what its parsed form does to it.
- `QueryWrapper` and `CompileSQL`: wrappers are their conditions, and the rows a condition picks are a parameter.
- Characters outside ASCII: a text is a sequence of one-byte characters, and white space, letter case and identifiers are those of ASCII.
- The splitting of prefix and suffix overrides at `|`: the overrides of a trim node are given as lists.
- Values of expressions: the operators, functions and methods on values, truth and number parsing are parameters of the grammar.
- Placeholders in the renderer are a root and the path after it; `DynamicAlias` and `DynamicText` connect this with the characters of the text, where the validity of a path is a parameter.
- `rewriteDynamicTables` and `applyLogicDelete`: the replacement of table names and the rewriting of DELETE to UPDATE; the conditions they splice in are covered.
- SqlLock.StatementRuntime.ApplyOptimisticLock: the guard on the command and the version field, and the search for the version among arguments and entities, are the caller's; the version is a parameter.
- SqlLock.LockedStatement: asks for SET, WHERE and trailing clauses in this order, closed texts, and no comment left open before the WHERE or at the end of the body. Whether a second lock leaves the whole text alone is not stated, only that it finds what the first one wrote.
- Comment, literal and quoting rules of particular databases beyond what the scanners themselves know.
- The expression plan cache, whose size is approximate under concurrency.
- The mutex of `BlockingCache`: each locked section is one step, and the delegate's answers are free choices.
- Random identifiers (`NextUUID`).
- Nil receivers, nil contexts and the texts of error messages: errors are their kinds.
- `BatchSession.Clear`, `Rollback` and `Close` in runs; row counts are unbounded integers.
- The Go AST, XML decoding, code rendering and file writing of the generator.
- Result map ids with a namespace prefix resolve to their local part; maps of other namespaces are not modelled.
- `setTimeField`, sequence ids and other values filled into entities before a statement is built.
- SqlRewrite.AppendedStatement: asks for texts whose comments, literals and names are closed, without vertical tabs (which Go trims and the scanners do not skip), and for a statement that is one block; a statement that starts with WITH is not one.
- SqlInsert.TenantInsertReads: asks for texts without bracketed names, which `findClosingSQLParen` does not skip.
- SqlInsert.TenantInsertTwice: for the same texts, so not for the brackets of SQL Server.
- DynamicProof.RenderingPreservesMeaning: asks that no caller argument and no name of the tree starts with the prefix of aliases.
- DynamicContext.RenderDynamicSql: without the option that shrinks the white space of the whole statement.
- DynamicText.NormalSyms: for texts in which no placeholder is broken over two lines, whose name would be joined by a space.
- DynamicText.TextRendered: for the same texts as DynamicText.NormalSyms.
- Mapper.BaseMapper.SelectList: without the grouping, the order and the LAST text of a wrapper.
- Mapper.BaseMapper.Count: without the grouping and the LAST text of a wrapper.
- Mapper.BaseMapper.Insert: without generated identifiers, filled times and insert strategies.
- Mapper.BaseMapper.UpdateById: without filled times and without writing the new version back to the entity.
- Mapper.BaseMapper.Update: without filled times and the LAST text of a wrapper.
- Mapper.BaseMapper.Delete: without the LAST text of a wrapper.
- Properties.NewConfigPropertyResolver: which walk is taken is left open, as Go leaves it.
