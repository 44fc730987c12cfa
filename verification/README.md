# The query compiler and the text editor, verified

These modules model three parts of the repository and prove what they promise.

**The `$where` compiler.** A filter is a tree of groups, fields, JSON paths, relations and SQL, rendered with as few
parentheses as it can be. `Filters` gives the tree its three-valued meaning; `WhereText` is the text it is written as
and the values it binds; `WhereWriter` and `QueryContexts` write that text step by step into a statement whose
fragments share their values and aliases. `SqlText` reads tokens back with SQL's precedence and evaluates them, by
section 8.12 of SQL-92, but that it takes a `NOT` right after another, as PostgreSQL, MySQL and SQLite do.
`WhereTheorem` joins the two: what is read is what the tree means. `StandardGrammar` is section 8.12's own grammar, of
one `NOT` at most, and `RepeatedNot` says which trees it reads. `PlaceholderOrder`, `NamedRows`, `NegatedNothing` and
`LikePatterns` are about the order of what is bound, which trees name rows, where the text does not read, and the
pattern language (section 8.5 of SQL-92).

**Transformations that keep meaning.** `Upserts` runs MySQL's guarded list on a row as it changes, against the forms
whose assignments are simultaneous; `UpsertText` is their text and the order it binds in, and `UpsertForms` reads both
off that text and says exactly when they do the same. `JsonFold` folds an update to one write per path, `JsonUpdates`
compiles the writes to calls that all read the column as stored, and `JsonFoldTheorem`, `JsonRemovals` and
`JsonFoldMeaning` prove exactly when what they leave is what the operators leave one after another. `JsonText` is the
text of those calls as it is built and the order it binds in, `JsonWriter` the loops that build it, and `JsonRendering`
proves it the text of the expression compiled. `Aggregates` is the derived table of a grouped query with filters of its
own; `GroupJoins` moves a relation's filter into its join; `QueryJoins` is the map of joins.

**The text-edit engine.** `Edits` is the specification of the rendering, `EditRuns` the loops that do it, `EditSplice`
an independent reading of the same edits position by position, `EditOverlaps` when they throw, `EditCounts` how often an
insertion is written, and `EditOffsets` the map from the result's offsets to the source's, through any number of passes.

Beside them, `PgArrays` and `SparseVectors` write and read back two literals.

Where the code does not do what its documentation says, or what its reader would expect, the model does what the code
does, a lemma names an input, and another says exactly when the promise is kept:

- a field's `$not: {}` is rendered `NOT ()`, which is no condition (`NegatedNothing.ReadsExactlyWhere`);
- a `$not` or `$nor` of one operand that is itself negated is rendered `NOT NOT`, which section 8.12 of SQL-92 does not
  read (`RepeatedNot.NotOfNotIsRepeated`, `RepeatedNot.StandardExactlyWhere`);
- `namesRows` says it answers as the rendered `WHERE` would, and differs on a relation filter of `{}` and on SQL with
  no text (`NamedRows.NamesRowsExactlyWhere`, `NamedRows.BareRelationNamesNone`); MySQL's upsert inherits both: it drops
  the one and writes a `CASE WHEN` of nothing for the other (`Upserts.BareRelationIsDropped`,
  `UpsertForms.BlankSqlIsMalformed`, `UpsertForms.FormsAgreeExactly`);
- MySQL's upsert sets its columns one by one, each reading the others as already set, which is checked of the condition
  and not of the values (`Upserts.CrossReadingDiffers`, `UpsertForms.FormsAgreeExactly`);
- an `$unset` folded over a dotted `$set` loses the parents that `$set` would have made, unless another path set makes
  them (`JsonFoldMeaning.UnsetLosesParents`, `JsonFoldMeaning.FoldMeansExactly`);
- an update that removes all it sets and appends leaves a NULL column NULL, where its operators leave an object
  (`JsonFoldMeaning.SetThenUnsetOfNull`, `JsonFoldMeaning.JsonUpdateExactly`);
- moving a grouped relation's filter into its join keeps the rows only where no row has two related rows the filter
  tells apart, which a to-one relation's key is relied on for and nothing in the statement enforces
  (`GroupJoins.MovedLosesARow`, `GroupJoins.MovedExactly`, and `GroupJoins.ResolvedExactly` for several);
- an edit that keeps a stretch outside the range it replaces writes what is inserted there a second time
  (`EditCounts.KeptElsewhereIsWrittenTwice`, `EditCounts.TimesWrittenExactly`).

`dafny verify dfyconfig.toml` checks the whole project.

## Model

| member | source | states |
|---|---|---|
| `LikePatterns.LiteralMatchesItself` | packages/orm/src/dialect/operators.ts:225-231 | A value written as a pattern matches that value and no other string, whatever wildcards, backslashes and brackets it holds. |
| `LikePatterns.StartsWithIsPrefix` | packages/orm/src/dialect/operators.ts:280-292 | `$startsWith` of a value matches exactly the strings the value is a prefix of. |
| `LikePatterns.EndsWithIsSuffix` | packages/orm/src/dialect/operators.ts:280-292 | `$endsWith` of a value matches exactly the strings the value is a suffix of. |
| `LikePatterns.IncludesIsSubstring` | packages/orm/src/dialect/operators.ts:280-292 | `$includes` of a value matches exactly the strings that hold it. |
| `LikePatterns.PatternIsIdempotent` | packages/orm/src/dialect/operators.ts:233-246 | A pattern rewritten once is left as it is when rewritten again. |
| `LikePatterns.PatternMeansTheSameEverywhere` | packages/orm/src/dialect/operators.ts:225-246 | A rewritten pattern matches the same strings on an engine that reads `[` as opening a character class, whatever its classes mean, and on one that does not. |
| `LikePatterns.RegexMeansPattern` | packages/orm/src/dialect/operators.ts:248-272 | Searching with the regex a pattern becomes finds a match in exactly the strings the pattern matches, the anchor of an edge `%` dropped. |
| `SqlShapes.ParensAreFactor` | packages/orm/src/dialect/abstractSqlDialect.ts:360-363 | Any condition in parentheses is read as one operand, whatever follows it. |
| `SqlShapes.JoinShape` | packages/orm/src/dialect/abstractSqlDialect.ts:372-375 | Operands joined by one connective are read back as those operands in order. |
| `SqlShapes.ChainShape` | packages/orm/src/dialect/abstractSqlDialect.ts:368-379 | Operands past the width, split in parenthesized halves at every level, are read as the tree of those halves. |
| `SqlShapes.ChainMeans` | packages/orm/src/dialect/abstractSqlDialect.ts:368-379 | However a list is split in halves, its three-valued value is that of all its operands, or of any. |
| `SqlShapes.ChainDepth` | packages/orm/src/dialect/abstractSqlDialect.ts:365-379 | At most sixteen times two to the `t` operands are at most `15 + t` connectives deeper than the deepest of them. |
| `WhereCorrectness.LikeReads` | packages/orm/src/dialect/abstractSqlDialect.ts:1136-1147 | A `$like`-family condition, its pattern and column folded together or neither, is true of the strings its operator asks for. |
| `WhereCorrectness.InReads` | packages/orm/src/dialect/abstractSqlDialect.ts:3390-3403 | `$in` and `$nin` are the three-valued membership of the value, the empty list and a JSON path's spelled-out booleans included. |
| `WhereCorrectness.ComparisonReads` | packages/orm/src/dialect/abstractSqlDialect.ts:1270-1289 | A comparison reads as the operator on its operand, one with `null` as a null check, and is unknown on NULL. |
| `WhereCorrectness.BetweenReads` | packages/orm/src/dialect/abstractSqlDialect.ts:1282-1285 | `$between` reads as both bounds met, its own `AND` taken by no condition beside it. |
| `WhereCorrectness.OpReads` | packages/orm/src/dialect/abstractSqlDialect.ts:1207-1229 | One operator of a field is read as one operand with that operator's value, a nested `$not` included. |
| `WhereCorrectness.ValReads` | packages/orm/src/dialect/abstractSqlDialect.ts:1083-1087 | Every operator a field's value applies is asked for, and together they are read as one operand. |
| `WhereTheorem.GroupReads` | packages/orm/src/dialect/abstractSqlDialect.ts:1090-1120 | A group reads as its clauses all or any, negated or not, and fits the position it is written for. |
| `WhereTheorem.RelatedReads` | packages/orm/src/dialect/abstractSqlDialect.ts:2932-2970 | A relation filter reads as whether a related row meets it, correlated on every key, through an alias that hides no other. |
| `WhereTheorem.ClauseReads` | packages/orm/src/dialect/abstractSqlDialect.ts:1034-1088 | Any clause's text reads, where it stands, with the truth the clause has, and is empty just where it names no condition. |
| `WhereTheorem.WhereReads` | packages/orm/src/dialect/abstractSqlDialect.ts:1001-1032 | A `$where` tree's text fits its position, operand or not, and has the tree's value in every scope. |
| `WhereTheorem.WhereCompiles` | packages/orm/src/dialect/abstractSqlDialect.ts:1001-1032 | Parsed with `OR` below `AND` below `NOT`, which may be repeated, and evaluated in three-valued logic off the values bound, the text of a `$where` is as true of a row as the tree is; a tree that names no condition is written as nothing. |
| `WhereTheorem.BareCompiles` | packages/orm/src/dialect/abstractSqlDialect.ts:1001-1032 | The same of the condition alone, as an aggregate's filter or an upsert's guard holds it. |
| `WhereTheorem.OperandCompiles` | packages/orm/src/dialect/abstractSqlDialect.ts:1011-1031 | A `$where` written as an operand keeps its value under `NOT` and beside any other operand of `AND` or `OR`. |
| `NegatedNothing.ReadsExactlyWhere` | packages/orm/src/dialect/abstractSqlDialect.ts:1215-1217 | Where `NOT` may be repeated, a `$where`'s text reads as a condition exactly where no field's `$not`, at any depth, is of an empty map; where one is, it holds `()`. |
| `StandardGrammar.StandardReads` | packages/orm/src/dialect/abstractSqlDialect.ts:1090-1120 | A text is a condition of section 8.12's grammar, one `NOT` at most before each operand, exactly where it is one with `NOT` repeated at will and repeats none, and then the same one. |
| `RepeatedNot.DoublesExactlyWhere` | packages/orm/src/dialect/abstractSqlDialect.ts:1090-1120 | A `$where`'s text holds a `NOT` right after another exactly where a `$not` or `$nor` negates one operand alone that is written with a `NOT` itself, at any depth and with empty operands dropped. |
| `RepeatedNot.StandardExactlyWhere` | packages/orm/src/dialect/abstractSqlDialect.ts:1001-1032 | The text is a condition of section 8.12's grammar exactly where no field's `$not` is of an empty map and no `$not` or `$nor` negates one such operand alone. |
| `RepeatedNot.StandardCompiles` | packages/orm/src/dialect/abstractSqlDialect.ts:1001-1032 | Read by that grammar, the text of such a `$where` is as true of a row as the tree is. |
| `RepeatedNot.NotOfNotIsRepeated` | packages/orm/src/dialect/abstractSqlDialect.ts:1109-1119 | A `$not` of one `$not` of one null check is written `NOT NOT a IS NULL`, read where `NOT` may be repeated and refused by section 8.12's grammar. |
| `WhereWriter.FormatIn` | packages/orm/src/dialect/abstractSqlDialect.ts:3390-3403 | Each value of an `IN` is bound as the text is written, left to right. |
| `WhereWriter.OperatorCondition` | packages/orm/src/dialect/abstractSqlDialect.ts:1235-1268 | One operator's text and the values it pushed; refused exactly on a pattern ending in a bare backslash or on no operator. |
| `WhereWriter.FieldCondition` | packages/orm/src/dialect/abstractSqlDialect.ts:1207-1229 | A field's operator, a `$not` rendered in a fragment, writes the specified text and pushes its values after those there. |
| `WhereWriter.Compare` | packages/orm/src/dialect/abstractSqlDialect.ts:1034-1088 | One key of a `$where` appends the specified text, values and aliases to the statement, in the branch its kind takes. |
| `WhereWriter.CompareLogicalOperator` | packages/orm/src/dialect/abstractSqlDialect.ts:1090-1120 | A group appends its clauses' text, those that emit none dropped, negated and parenthesized as specified. |
| `WhereWriter.CompareRelation` | packages/orm/src/dialect/abstractSqlDialect.ts:3293-3303 | A relation filter claims its alias before its text, and binds what its own `$where` binds. |
| `WhereWriter.ItemOperands` | packages/orm/src/dialect/abstractSqlDialect.ts:534-542 | Each clause of a group is rendered on its own fragment, and only those that emitted text are kept, in order. |
| `WhereWriter.ClauseOperands` | packages/orm/src/dialect/abstractSqlDialect.ts:534-542 | Each key of a `$where` is rendered on its own fragment, and only those that emitted text are kept, in order. |
| `WhereWriter.RenderWhere` | packages/orm/src/dialect/abstractSqlDialect.ts:1001-1032 | The statement ends with the specified text, values and aliases of the tree, or refuses it exactly where a clause is refused. |
| `PlaceholderOrder.WhereOrdered` | packages/orm/src/dialect/abstractSqlDialect.ts:517-554 | A rendered `$where` carries one placeholder for each value it bound, the k-th from the left naming the k-th value, through any nesting and with empty operands dropped. |
| `PlaceholderOrder.NoTextBindsNothing` | packages/orm/src/dialect/abstractSqlDialect.ts:529-542 | A fragment that emits no text bound no value, so dropping it leaves no value behind. |
| `PlaceholderOrder.PositionalReadsTheSame` | packages/orm/src/dialect/abstractSqlDialect.ts:545-554 | An engine that counts `?` by place and one that reads `$n` by number read the same values. |
| `NamedRows.NamesByLeaf` | packages/orm/src/dialect/operators.ts:53-66 | `namesRows` holds exactly where the tree, at any nesting, has a condition or SQL, or a relation narrowed by something. |
| `NamedRows.WhereEmits` | packages/orm/src/dialect/abstractSqlDialect.ts:1001-1032 | A `$where` emits text exactly where the tree has a condition, SQL with text, or a relation. |
| `NamedRows.NamesRowsExactlyWhere` | packages/orm/src/dialect/operators.ts:53-66 | `namesRows` agrees with the rendered text exactly where the tree has a condition, or has blank SQL and a bare relation both or neither. |
| `NamedRows.BareRelationNamesNone` | packages/orm/src/dialect/operators.ts:57-66 | A relation filter of `{}` names no rows and still renders an `EXISTS`. |
| `Aliases.FirstFree` | packages/orm/src/dialect/queryContext.ts:58-62 | The search for an alias ends, on a finite set of names, at the first candidate none of them is. |
| `Aliases.Claimed` | packages/orm/src/dialect/queryContext.ts:54-65 | A claimed alias is none the statement has taken, nor the parent, whatever its case. |
| `QueryContexts.SqlQueryContext.constructor` | packages/orm/src/dialect/queryContext.ts:9-20 | A fragment pushes to its statement's own list of values. |
| `QueryContexts.SqlQueryContext.CreateFragment` | packages/orm/src/dialect/queryContext.ts:22-24 | A fragment of a fragment belongs to the statement, and shares its values and its mode. |
| `QueryContexts.SqlQueryContext.Append` | packages/orm/src/dialect/queryContext.ts:32-37 | The text is what it was with the piece after it. |
| `QueryContexts.SqlQueryContext.AddValue` | packages/orm/src/dialect/abstractSqlDialect.ts:545-554 | A value is pushed once and its placeholder numbers it among all the statement's; inlined, nothing is pushed. |
| `QueryContexts.SqlQueryContext.ClaimAlias` | packages/orm/src/dialect/queryContext.ts:54-65 | The alias given is the first candidate free in the whole statement, and it alone is taken, without its case. |
| `QueryContexts.ClaimsAreDistinct` | packages/orm/src/dialect/queryContext.ts:54-65 | Over any run of claims from any fragments, no two aliases are the same whatever their case, none was taken before, and none is the parent it may not be. |
| `FieldsRead.FieldsReadDecide` | packages/orm/src/dialect/operators.ts:68-102 | Rows alike in the fields `fieldsRead` names are alike in every clause of the condition, unknown ones included. |
| `FieldsRead.GatherFields` | packages/orm/src/dialect/operators.ts:73-102 | The walk that fills a set answers the fields specified, or none where it meets what the query does not show. |
| `UpsertForms.ConditionReadsExactlyWhere` | packages/orm/src/dialect/abstractSqlDialect.ts:2494-2499 | The text of an upsert's condition, a `CASE WHEN` guard or a condition of its own, reads as one condition exactly where something it holds is written and no field's `$not` in it is of an empty map. |
| `UpsertForms.GuardTakes` | packages/orm/src/dialect/abstractSqlDialect.ts:2190-2214 | Read off its text before a `THEN`, a guard is true of exactly the rows its `$where` takes. |
| `UpsertForms.FormsAgreeExactly` | packages/orm/src/dialect/mysqlLikeSqlDialect.ts:170-197 | MySQL's statement, its list run left to right on the row as it changes, and one with a condition of its own, each read off its text, do the same to every row found, for every engine and row inserted, exactly where there is nothing to set; or the condition names rows, is written, and reads in neither, or no entry as listed reads a column one before it sets, or no row meets it; or it names none, no entry reads a column one before it sets, and a row it does not take holds what every entry sets. |
| `UpsertForms.MysqlIsSimultaneous` | packages/orm/src/dialect/mysqlLikeSqlDialect.ts:170-197 | They do the same under any condition that names rows and reads, where each value reads only its own column or the row inserted. |
| `UpsertForms.BlankSqlIsMalformed` | packages/orm/src/dialect/mysqlLikeSqlDialect.ts:180-196 | Under a condition of SQL with no text MySQL is sent `CASE WHEN THEN`, and `ON CONFLICT`, with no `WHERE`, sets the row. |
| `Upserts.SimultaneousExactly` | packages/orm/src/dialect/mysqlLikeSqlDialect.ts:170-197 | Where both run, the rows they leave are the same exactly where no entry as listed reads a column one before it sets or no row meets the condition, and, under a condition that names no rows, exactly where none does and a row the condition does not take holds what every entry sets. |
| `Upserts.DroppedExactly` | packages/orm/src/dialect/mysqlLikeSqlDialect.ts:181-183 | A condition of relations narrowed by nothing, which MySQL's form drops, is missed by no row exactly where a row it does not take holds what every entry sets and no entry reads a column one before it sets. |
| `Upserts.UnguardedExactly` | packages/orm/src/dialect/abstractSqlDialect.ts:2468-2481 | With no condition, the same exactly where no entry reads a column an earlier one sets. |
| `Upserts.ListIsSafe` | packages/orm/src/dialect/mysqlLikeSqlDialect.ts:180-196 | The list is a reordering of the entries in which no condition reads a column set before it, whatever the values read. |
| `Upserts.RefusedExactly` | packages/orm/src/dialect/mysqlLikeSqlDialect.ts:184-193 | An update is refused exactly where its condition names rows and reads two of the columns set; where what it reads is not shown, exactly where more than one is set. |
| `Upserts.BareRelationIsDropped` | packages/orm/src/dialect/mysqlLikeSqlDialect.ts:181-183 | A condition of a bare relation is dropped by MySQL's form and kept by the others: a row one sets the other leaves. |
| `Upserts.CrossReadingDiffers` | packages/orm/src/dialect/mysqlLikeSqlDialect.ts:170-174 | Two columns set from each other, which the simultaneous forms swap, a list run in order does not. |
| `UpsertText.RenderingOrdered` | packages/orm/src/dialect/abstractSqlDialect.ts:2495-2499 | A guard binds in order wherever it comes to stand in a statement. |
| `UpsertText.RowsOrdered` | packages/orm/src/dialect/abstractSqlDialect.ts:2108-2142 | The rows inserted bind in order, first row first, SQL among their values binding its own where it stands. |
| `UpsertText.AssignmentOrdered` | packages/orm/src/dialect/abstractSqlDialect.ts:2190-2245 | `CASE WHEN guard THEN value ELSE column END` binds the guard again and then the value, be it a value, SQL that binds its own, arithmetic on either, or a JSON change. |
| `UpsertText.ListOrdered` | packages/orm/src/dialect/abstractSqlDialect.ts:2175-2188 | A `SET` list binds in order, each assignment's guard bound again before its value. |
| `UpsertText.MysqlUpsertOrdered` | packages/orm/src/dialect/mysqlLikeSqlDialect.ts:148-168 | Every placeholder of MySQL's upsert, left to right, is the value bound at its place, rows before guards and values, the key its header reports bound to none: a `?` reads its own. |
| `UpsertText.ConflictUpsertOrdered` | packages/orm/src/dialect/abstractSqlDialect.ts:2357-2366 | So is every one of an `ON CONFLICT` upsert, its `WHERE` bound after the list. |
| `UpsertText.MergeIsNumbered` | packages/orm/src/dialect/mergeSqlDialect.ts:83-99 | `MERGE` binds what a found row takes before the rows its text opens with, so its placeholders are numbered, not ordered, wherever both bind. |
| `UpsertText.AppendAssignment` | packages/orm/src/dialect/abstractSqlDialect.ts:2195-2245 | One assignment's text and values, its guard rendered in the statement before its value is bound. |
| `UpsertText.AppendAssignments` | packages/orm/src/dialect/abstractSqlDialect.ts:2175-2188 | The list appended is the entries' assignments in order with a comma between each, and nothing else. |
| `UpsertText.AppendRows` | packages/orm/src/dialect/abstractSqlDialect.ts:2108-2142 | The rows appended are each row's values in order, bound as they are written, SQL and the keyword of a column left out among them. |
| `UpsertText.UpsertMysql` | packages/orm/src/dialect/mysqlLikeSqlDialect.ts:149-217 | The statement is the ordered list's upsert, the key of one row set through `LAST_INSERT_ID` first where its header reports it, or `INSERT IGNORE` where there is nothing to assign; it is refused exactly where the condition is, or reads two columns the update sets. The row inserted is read by its alias, or as `VALUE(column)` where the engine gives it none. |
| `JsonSql.ChainedCall` | packages/orm/src/dialect/jsonSql.ts:57-70 | The loop nests calls of as many groups as fit, each around the one before. |
| `JsonSql.SharesAreWhole` | packages/orm/src/dialect/jsonSql.ts:52-70 | No group is split, lost, repeated or moved, and no call takes none. |
| `JsonSql.ChainedFits` | packages/orm/src/dialect/jsonSql.ts:47-70 | Every call takes at most `maxArgs` arguments exactly where there are no groups, or a target and one group are no more than that. |
| `JsonSql.ChainedMeans` | packages/orm/src/dialect/jsonSql.ts:52-70 | However the groups are shared among calls, evaluating them applies every group in order to the target. |
| `JsonSql.OneByOneMeans` | packages/orm/src/dialect/pgLikeSqlDialect.ts:412-434 | PostgreSQL's strict calls, one path each around the one before, leave what the calls of many paths leave, a replaced value that is none handed over as JSON's null, where no value set is NULL. |
| `JsonSql.WrittenMeans` | packages/orm/src/dialect/abstractSqlDialect.ts:2760-2767 | In the form of any of the three engines, a write applies every group in order to the target. |
| `JsonUpdates.ArrayWriteMeans` | packages/orm/src/dialect/abstractSqlDialect.ts:2738-2758 | The `CASE` written for an array is, over any stored document, its pulls and then its appends, unique ones looked for in the array stored, and the value there where that is no array. |
| `JsonUpdates.ArrayUpdateMeans` | packages/orm/src/dialect/abstractSqlDialect.ts:2708-2711 | An array column's expression leaves what its writes leave of the array stored, or of none. |
| `JsonUpdates.ArraysMean` | packages/orm/src/dialect/abstractSqlDialect.ts:2713-2727 | Pull-only keys through `JSON_REPLACE` and then appending keys through `JSON_SET`, each reading the column as stored, leave what the writes leave in the order they came. |
| `JsonUpdates.ArraysLeaveOthers` | packages/orm/src/dialect/abstractSqlDialect.ts:2720-2727 | A value that is no array is untouched, and pulls alone make no key of none. |
| `JsonUpdateTheorem.ParentsWritten` | packages/orm/src/dialect/abstractSqlDialect.ts:2820-2831 | Parents written off the column as stored, outermost first and each once, make an object wherever there is none and keep those there are. |
| `JsonUpdateTheorem.ParentsFirst` | packages/orm/src/dialect/abstractSqlDialect.ts:2728-2734 | Making every parent before anything is set, or each as its path is set, leaves the same document where no path is inside another. |
| `JsonUpdateTheorem.ObjectUpdateMeans` | packages/orm/src/dialect/abstractSqlDialect.ts:2697-2736 | The SQL of a folded update, whose calls all read the stored column, is its pulls, appends, sets with their parents and removals applied one after another; NULL stays NULL where none puts a key. |
| `JsonText.UpdateInOrder` | packages/orm/src/dialect/abstractSqlDialect.ts:2701-2736 | A JSON update carries its placeholders in the order its values are bound, though each later write's text is around the one before it. |
| `JsonText.UpdateBinds` | packages/orm/src/dialect/abstractSqlDialect.ts:2721-2735 | It binds the arrays only pulled from, then those appended to, each its pulls and then its appends, a unique one's test before its item, and last what is set. |
| `JsonText.ChangeInOrder` | packages/orm/src/dialect/abstractSqlDialect.ts:2701-2736 | So does any change of a JSON column, an object's or an array's, once folded. |
| `JsonRendering.ChangeIsWritten` | packages/orm/src/dialect/abstractSqlDialect.ts:2701-2758 | What is built part by part, each bound before the next, is the left-to-right text of the very expression whose meaning `JsonUpdateMeans` and `ArrayFoldMeans` give, in the forms of MySQL, SQLite and PostgreSQL. |
| `JsonWriter.AddUpdate` | packages/orm/src/dialect/abstractSqlDialect.ts:2701-2736 | The writer's loops, run in the source's order, write that text and bind those values. |
| `JsonWriter.AddArray` | packages/orm/src/dialect/abstractSqlDialect.ts:2742-2758 | An array's write binds its pulls and then each append, wrapped around what is written so far. |
| `JsonWriter.ChainCalls` | packages/orm/src/dialect/jsonSql.ts:57-70 | The loop over the groups' text nests the calls the specification nests. |
| `JsonFold.FoldJsonUpdate` | packages/orm/src/util/dialect.util.ts:426-469 | The fold, a map at a time through each operator, is the writes specified. |
| `JsonFold.FoldJsonArrayUpdate` | packages/orm/src/util/dialect.util.ts:407-424 | An array's fold, push by push and then `$addToSet` by `$addToSet`, is the writes specified. |
| `JsonFold.AppendFolds` | packages/orm/src/util/dialect.util.ts:497-502 | An item folded into an array's writes leaves what appending it to the array they leave does, a unique one once and looked for only where no pull removes it. |
| `JsonFold.ArrayFoldMeans` | packages/orm/src/util/dialect.util.ts:407-424 | An array column's update, folded and compiled to one expression, is its pulls, pushes and `$addToSet`s one after another, each looking in the array as the last left it. |
| `JsonFoldTheorem.FoldSetMeans` | packages/orm/src/util/dialect.util.ts:438-450 | A `$set` folded in leaves what setting its path in the document so far does: writes inside it go, an array write at its key goes, and inside a value set it is worked out there. |
| `JsonFoldTheorem.AppendToMeans` | packages/orm/src/util/dialect.util.ts:471-495 | A `$push` or `$addToSet` folded in leaves what appending to the document so far does: onto a value set, nothing under a dotted `$set`, or onto the stored array. |
| `JsonFoldTheorem.FoldIsFolded` | packages/orm/src/util/dialect.util.ts:426-469 | The fold writes each path once, whatever the update: no array key where a set path begins, and no set path inside another. |
| `JsonRemovals.FoldUnsetMeans` | packages/orm/src/util/dialect.util.ts:457-467 | An `$unset` folded in, whatever it takes with it, leaves what removing its path from the document so far does, given back the parents of the paths set that it took. |
| `JsonRemovals.UnsetsExactly` | packages/orm/src/util/dialect.util.ts:455-467 | All the removals folded leave of every object what removing the paths one after another does exactly where every parent they lose is made all the same; an object of no keys tells them apart where one is not. |
| `JsonFoldMeaning.FoldMeansExactly` | packages/orm/src/util/dialect.util.ts:426-469 | The fold leaves of every object what `$pull`, `$set`, `$push`, `$addToSet` and `$unset` leave one after another exactly where, of each removed path of two keys or more that no other removal leads to and that takes a path set with it while inside none, the parent is on the way of a path set that no removal covers. |
| `JsonFoldMeaning.FoldWritesKeys` | packages/orm/src/util/dialect.util.ts:386-389 | The fold puts a key in a document exactly where a path set is covered by no removal, or an item goes in an array whose key is neither removed nor led through by a path set. |
| `JsonFoldMeaning.JsonUpdateMeans` | packages/orm/src/dialect/abstractSqlDialect.ts:2697-2736 | A JSON update, folded and compiled to calls that each read the stored column, leaves the column its operators leave one after another, wherever it keeps the parents of what it removes and, over NULL, does not remove all it sets and appends. |
| `JsonFoldMeaning.JsonUpdateExactly` | packages/orm/src/dialect/abstractSqlDialect.ts:2697-2736 | Over every value the column may store, it does so exactly under those two conditions. |
| `JsonFoldMeaning.SetThenUnsetMeans` | packages/orm/src/util/dialect.util.ts:457-467 | For one path set and one removed, the fold keeps the operators' meaning on every object exactly where the removed path is one key or does not lead to the set one. |
| `JsonFoldMeaning.BesideMeans` | packages/orm/src/util/dialect.util.ts:457-467 | A removal of the parent of a path set is harmless on every object where another path set leads through that parent. |
| `JsonFoldMeaning.UnsetLosesParents` | packages/orm/src/util/dialect.util.ts:457-461 | Where it does, the fold leaves `{}` as it is and the operators leave the parents they made. |
| `JsonFoldMeaning.SetThenUnsetOfNull` | packages/orm/src/util/dialect.util.ts:386-389 | A key set and removed by one update leaves NULL as it is, where the operators leave `{}`. |
| `Aggregates.WriteAggregateValues` | packages/orm/src/dialect/abstractSqlDialect.ts:1798-1798 | Each entry's read, rendered in turn into the statement, is the one specified; refused exactly where a filter is. |
| `Aggregates.CasedValues` | packages/orm/src/dialect/abstractSqlDialect.ts:1865-1874 | The values `CASE WHEN` leaves, NULLs skipped, are those of the rows the entry's filter lets through. |
| `Aggregates.CasedRows` | packages/orm/src/dialect/abstractSqlDialect.ts:1865-1874 | Counting the ones a case of `*` leaves counts the rows the filter lets through. |
| `Aggregates.FormsAgree` | packages/orm/src/dialect/abstractSqlDialect.ts:1800-1836 | Named in a derived table or read where they stand, the entries of every group of every table are the same. |
| `Aggregates.AggregateMeans` | packages/orm/src/dialect/abstractSqlDialect.ts:1784-1842 | A grouped query answers, for each group, every entry's aggregate over the rows that entry's own `$where` lets through, `DISTINCT` and `COUNT(*)` included. |
| `Grouping.GroupsMapped` | packages/orm/src/dialect/abstractSqlDialect.ts:1837-1839 | Grouping a derived table by alias groups the rows it was made of by the fields the aliases name. |
| `Grouping.GroupHasOneKey` | packages/orm/src/dialect/abstractSqlDialect.ts:1837-1839 | Every row of a group is one of the rows and has the group's key, so the key read off its first row is that of all. |
| `GroupJoins.ResolveGroupJoins` | packages/orm/src/dialect/queryJoins.ts:93-117 | Each filter keyed at the top on a joined relation moves into that join, and the rest of the `$where` is left in order. |
| `GroupJoins.FilterLast` | packages/orm/src/dialect/abstractSqlDialect.ts:969-992 | A join's own condition may as well be applied once everything is joined. |
| `GroupJoins.MovedIsExists` | packages/orm/src/dialect/queryJoins.ts:107-116 | A filter in its relation's `INNER` join keeps the rows an `EXISTS` beside that join keeps, where no row's related rows are told apart by it. |
| `GroupJoins.ResolvedKeepsRows` | packages/orm/src/dialect/queryJoins.ts:87-117 | Moving every filter keyed at the top keeps exactly the joined rows, in order, for every database where no row has two related rows a filter tells apart. |
| `GroupJoins.OneIsAlike` | packages/orm/src/dialect/queryJoins.ts:87-92 | One related row at most is enough of a database for any filter. |
| `GroupJoins.MovedExactly` | packages/orm/src/dialect/queryJoins.ts:87-117 | For one relation and its filter, the rows kept are the same exactly where no row's related rows are told apart. |
| `GroupJoins.ResolvedExactly` | packages/orm/src/dialect/queryJoins.ts:87-117 | For all the filters moved together, the rows kept are the same exactly where, of the rows joined before any is filtered, every one that meets the whole `$where` joined only rows each moved filter is true of; and no row is kept that was not. |
| `GroupJoins.MovedLosesARow` | packages/orm/src/dialect/queryJoins.ts:87-117 | A user of two posts, one of which the filter is true of, is kept twice beside an `EXISTS` and once where the filter has moved. |
| `QueryJoins.JoinMap.AddJoin` | packages/orm/src/dialect/queryJoins.ts:183-217 | The join at a path is the one there, or one put after the others under an alias claimed for it. |
| `QueryJoins.JoinMap.AddPopulateJoins` | packages/orm/src/dialect/queryJoins.ts:219-233 | The to-one relations populated are joined with what each asks for, recursion ending on the query though entities lead back to one another. |
| `QueryJoins.JoinMap.AddPathJoins` | packages/orm/src/dialect/queryJoins.ts:235-260 | The to-one relations a path passes through are joined, searches by vector left out, recursion ending on the path. |
| `QueryJoins.ResolveQueryJoins` | packages/orm/src/dialect/queryJoins.ts:73-85 | The joins are what is populated and then what is sorted by, and the aliases taken are theirs. |
| `QueryJoins.ResolvedHolds` | packages/orm/src/dialect/queryJoins.ts:50-85 | Every join's parent comes before it, each path and each alias once, and a `$sort` changes neither the columns selected nor whether any join is required. |
| `QueryJoins.RequiredAsAsked` | packages/orm/src/dialect/queryJoins.ts:156-168 | A read drops rows exactly where what it populates asks for a required relation, at any depth it joins. |
| `EditRuns.RenderRange` | packages/codemod/src/edits.ts:80-107 | The loop writes the specified text of a range and where each edit of it went, or throws exactly where the specification overlaps. |
| `EditRuns.ScanRange` | packages/codemod/src/edits.ts:85-107 | Each edit in turn, the stretches between, and the moot ones skipped, leave the specified text and offsets. |
| `EditRuns.WriteParts` | packages/codemod/src/edits.ts:102-102 | A replacement's pieces, the stretches it keeps rendered with the edits inside, are written in order. |
| `EditRuns.ApplyEdits` | packages/codemod/src/edits.ts:23-78 | Edits throw exactly where a live one crosses another, at the top or in what live ones keep, and what is written otherwise is their splice, position by position. |
| `EditSplice.OrderedSorts` | packages/codemod/src/edits.ts:62-70 | The list is sorted outermost first, the edits of it those asked for. |
| `EditSplice.RenderIsSplice` | packages/codemod/src/edits.ts:80-107 | Whatever range is kept and by whichever edit, its rendering is its splice: the outermost edit at each position, and what it replaces moot unless it keeps it. |
| `EditSplice.EditedIsSplice` | packages/codemod/src/edits.ts:56-78 | A list of edits that does not overlap makes of a source what splicing it position by position does. |
| `EditSplice.NoneCrossSplices` | packages/codemod/src/edits.ts:23-30 | Edits no two of which cross never throw, and are spliced. |
| `EditOverlaps.OverlapsExactly` | packages/codemod/src/edits.ts:80-107 | A list of edits overlaps exactly where, at the top or in a stretch that live edits keep, a live edit ends inside another that starts after it; one that crosses in a range already replaced does not count. |
| `EditSplice.EdgeInsertionStaysOutside` | packages/codemod/src/edits.ts:80-91 | A replacement that keeps its own range writes no insertion at its edges: it writes what it would were there none. |
| `EditCounts.TimesWrittenExactly` | packages/codemod/src/edits.ts:80-107 | Copies inside what other edits keep counted, an insertion is written once where no replacement swallows it and once more for each writing by a live edit of a stretch it keeps, in whatever order the edits are asked for; and never exactly where no chain of such edits reaches it. |
| `EditCounts.TimesWrittenShows` | packages/codemod/src/edits.ts:80-107 | That count is the text's: one character more in the insertion makes the text longer by one for each time it is written. |
| `EditCounts.WrittenOnceIfReached` | packages/codemod/src/edits.ts:80-107 | Where every edit keeps the insertion once at most, out of the range it replaces, it is written once if reached, and else never. |
| `EditCounts.InsertionWrittenOnce` | packages/codemod/src/edits.ts:23-30 | An insertion no replacement swallows is always written; it is written once at most where the stretches each edit keeps lie in its own range and do not meet. |
| `EditCounts.KeptElsewhereIsWrittenTwice` | packages/codemod/src/edits.ts:80-107 | An edit that keeps a stretch outside its own range writes what is inserted there a second time. |
| `EditOffsets.EditedMapsTo` | packages/codemod/src/edits.ts:71-77 | `sourceOffset` never goes back, stays in the source, and reads each character no edit wrote off where it was. |
| `EditOffsets.EditedMapsWritten` | packages/codemod/src/edits.ts:56-59 | An offset of the result is in an edit's text or in the source's own, and one in an edit's text maps to the start of the very edit whose text holds it. |
| `EditOffsets.UneditedIsIdentity` | packages/codemod/src/edits.ts:38-44 | A pass that changes nothing is the identity of running passes one after another, and is what no edits make of a text. |
| `EditOffsets.FollowedMapsTo` | packages/codemod/src/edits.ts:41-44 | Passes one after another map as one does, and read a character both keep off where it first was. |
| `PgArrays.QuotedReads` | packages/orm/src/dialect/pgLikeSqlDialect.ts:467-469 | A text with its backslashes and then its quotes escaped reads as itself, up to the quote that closes it. |
| `PgArrays.ToPgArrayReads` | packages/orm/src/dialect/pgLikeSqlDialect.ts:454-472 | An array literal reads back, by section 8.15.6 of the PostgreSQL manual, as the array it was written of, however it nests. |
| `PgArrays.ToPgArrayTellsApart` | packages/orm/src/dialect/pgLikeSqlDialect.ts:454-472 | No two arrays of texts, NULLs and nested arrays are written alike, the text `NULL` and none included. |
| `SparseVectors.ParseSparse` | packages/orm/src/dialect/vectorCast.ts:39-54 | The loop that fills the dense array answers the pairs written over zeros in order, or none where one is refused. |
| `SparseVectors.SparsevecReadsBack` | packages/orm/src/dialect/vectorCast.ts:17-25 | Every vector of integers, its zeros and its length included, is read back from the literal it is written as. |
| `SparseVectors.AcceptedIsInBounds` | packages/orm/src/dialect/vectorCast.ts:36-54 | Any literal accepted gives as many numbers as its dimension says, every pair in bounds, and at each index the last pair's value or zero. |

## Left out

- SQL text is tokens: identifier escaping, literal spelling and lexing are not modelled, and a table, a JSON path or a
  raw SQL body is one token. A raw body is assumed to stand as one operand where it is placed, since nothing
  parenthesizes it.
- JSON paths are compared as one kind of value: the numeric, text and JSON casts and the mode a path is read in are not
  modelled, nor a ref among the booleans of a path's list.
- WhereCorrectness.LikeReads: folding is of both sides or neither; `ILIKE` and engines that ignore case natively are not
  modelled. Folding a name's case is ASCII.
- WhereCorrectness.OpReads: `$near`, `$all`, `$elemMatch` and `$size` are not modelled.
- WhereTheorem.RelatedReads: a relation through a junction is not modelled, nor entity filters merged into a scope.
- WhereTheorem.ClauseReads: a relation's size, `$near` and the JSON array operators are not modelled, nor a computed
  field; a full-text search is one opaque condition.
- WhereWriter.FieldCondition: leaves out the branches of `$near` and the JSON array operators.
- WhereWriter.Compare: leaves out the branch of a relation's size.
- WhereWriter.CompareRelation: leaves out the branch of a junction, and entity filters.
- WhereTheorem.WhereCompiles: reads a `NOT` right after another; of the grammar that does not,
  `RepeatedNot.StandardCompiles` is the same, of the trees `RepeatedNot.StandardExactlyWhere` names.
- Values are null, integers, strings and booleans; normalization is that of booleans. Dates, bytes and floating point are
  not among them.
- Only the JSON functions of MySQL, SQLite and PostgreSQL are evaluated; SQL Server's forms are not, and PostgreSQL's
  refusal of a path that reads an array by a key that is no index is not modelled. JSON equality and containment of an
  element are equality of values, and SQL set at a JSON path is left out.
- JsonText.UpdateInOrder: a path is one token, and what a pull's subquery selects from is written alike for the three
  engines.
- JSON keys are taken as already accepted by the key check, a `$set` of `undefined` as absent, and what `$addToSet` adds as
  a scalar, which the code refuses otherwise.
- Upserts.SimultaneousExactly: what a JSON change leaves of its column is opaque here, as arithmetic and SQL are;
  `JsonFoldMeaning` says what it leaves. The header's key, set to itself, is left out of the row.
- UpsertForms.FormsAgreeExactly: what is read off the text is the condition; what an assignment sets is its value's
  meaning, and the raw bodies in a condition are assumed to read as one operand.
- UpsertText.MergeIsNumbered: the insert branch and the match on the conflict keys are left out of the text, which bind
  nothing.
- Aggregates.AggregateMeans: `$having`, `$sort` and paging of groups are not modelled; an alias is taken to name one
  entry.
- QueryJoins.ResolvedHolds: keys are taken to hold no dot, so a path is its keys.
- GroupJoins.ResolvedKeepsRows: a join starts with no filter of its own, as one off a group's path does.
- Entities' own filters, their columns' names, and the errors a to-one relation's query raises are not modelled.
- PgArrays.ToPgArrayReads: white space between items, which is never written, is not read, and the engine's demand that
  nested arrays have one shape is not modelled.
- SparseVectors.SparsevecReadsBack: is of integers; any other number is read by a function taken as given. White space
  around the literal and the limit on an array's length are left out.
- The float32 blobs of a vector and their shortest decimal text are left out: rounding is their whole point.
- Edits carry their place among those asked for, so identical ones are told apart; offsets of syntax nodes are taken as
  given, and the removal of list elements is left out, whose two boundary conventions can cross.
- Drivers, pools, transactions, streaming, DDL, triggers, row locks, paging text and the command line are left out.
