# Garance: verified model

Garance is a backend platform: a Rust engine over PostgreSQL (schema migrations, row queries, row
level security), Go services for authentication and storage behind a gateway, and a TypeScript
client. This project models its parts that carry the most state and branching and proves what they
promise, for all inputs, all runs and all iteration orders of hash maps.

`dafny verify dfyconfig.toml` checks everything.

## What is modelled

**Schema migrations.** `Planner.Diff` is the planner of `diff/diff.rs` with its eighteen buckets, its
counters and its verdict. `Catalogue` gives every statement it emits a meaning on a PostgreSQL
catalogue: when it is accepted, and what it changes. `Plan` says which statements belong to a plan and
in which bucket each stands; within a bucket any order is allowed. `PlanOutcome` proves exactly when a
plan runs to the end and that all plans end in the same catalogue, `Convergence` what that catalogue
is, `Fixpoint` what a second planning finds, and `PlanFindings` lists the families of schemas for
which migrating fails; `WellFormedRuns` shows that running a plan keeps the catalogue well-formed, and
`PlanShape` reads plans statement by statement: types, policies, order and counters.
`docs/site/schema.md:119` says that relations create no constraints; the code makes a foreign key of
every relation, and the model follows the code.

**Introspection.** `ForeignKeyFolding` is the loop that folds catalogue rows into foreign keys,
`ForeignKeyQuery` the rows its query gives it when constraints share a name.

**Access rules.** `AccessRules` has the rule builder of the TypeScript schema package, the translation
of rules to SQL, a reader for the SQL it writes, SQL's three-valued logic, and the policies; `PolicyText`
reads the CREATE POLICY statements back and says whom they let through.

**The query path.** `SdkQuery` is the client's fluent builder, `ListTransport` the two ways its
parameters travel, `QueryFilter` the engine's parser, `SelectBuilder` the SQL builder, `SelectReader` a
character-level reader for that SQL, `SelectMeaning` what reading it back and evaluating it gives,
`RowVisibility` which rows row level security lets each of the two ways see, and `QueryPath` puts all of
them together. `WriteBuilder` does the same for insertions and updates.

**Protocols over a store.** `MigrateApply`, `FirstLogin` and `OAuthState` are state machines whose steps
are single store operations of any number of concurrent calls; `Sessions` works with whole service
calls, and `RefreshRace` takes a refresh apart into its statements. `Users` is the user table they share.
UNIQUE keys are part of the store.

**Smaller cores.** `FileStore` keeps file rows and objects in step over whole calls, `UploadRace` takes
uploads apart into their statements; `PasswordHash` is the stored form of password hashes.

`Text`, `Decimal`, `SqlText`, `Normalize`, `Schema` and `Wrappers` hold what these share.

## How the parts fit

- `IsPlan(desired, current, p)` is the pivot of the planner: `Diff` returns such a list, and all results
  about running a plan hold of every such list. A run of a plan is `Catalogue.Run`.
- `Inputs` collects what the planner's two schemas and the catalogue have to do with each other:
  `current` is a reading of a well-formed catalogue, foreign keys are single-column and point at `id`,
  and every relation names a desired table with an `id` column.
- `Describes`, a reading of a catalogue, has every foreign key as it is declared; `ForeignKeyQuery` says
  exactly when the engine's query and loop read one so.
- PostgreSQL's comparison operators, its sorting, the names it reports types under and the text it reports
  for a default, Argon2, SHA-256,
  `isValidRedirectURI`, password hashing during sign-in, random tokens, ids and the clock are parameters.

## Model

| member | source | states |
|---|---|---|
| Planner.Diff | engine/crates/garance-engine/src/diff/diff.rs:35-224 | whatever order the hash sets are walked in, the statements are a plan for the two schemas: every planned statement once, buckets in the fixed order; the counters count the plan's statements and the changed columns; `has_destructive` says whether a current table or column is not desired |
| Planner.SummarySizes | engine/crates/garance-engine/src/diff/diff.rs:58-110 | the counters of created and dropped tables and of added and dropped columns are the sizes of the set differences between the schemas |
| Planner.DiffStatements.Push | engine/crates/garance-engine/src/diff/diff.rs:226-247 | a statement goes to the end of its own bucket, the others stay as they are |
| Planner.DiffStatements.Assemble | engine/crates/garance-engine/src/diff/diff.rs:202-221 | the concatenation has exactly the emitted statements, none twice, none before one of an earlier bucket |
| Planner.PlanNewTable | engine/crates/garance-engine/src/diff/diff.rs:44-67 | exactly the CREATE TABLE and the UNIQUE constraints of a new table are added, and counted |
| Planner.PlanDroppedTable | engine/crates/garance-engine/src/diff/diff.rs:70-85 | exactly the drops of a table, its foreign keys and its indexes are added, and counted |
| Planner.PlanColumnShape | engine/crates/garance-engine/src/diff/diff.rs:117-141 | the statements a change of type or nullability takes, in both branches, and the column counted once |
| Planner.PlanColumnDefault | engine/crates/garance-engine/src/diff/diff.rs:143-153 | SET or DROP DEFAULT exactly when the normalised defaults differ |
| Planner.DiffForeignKeys | engine/crates/garance-engine/src/diff/diff.rs:249-281 | exactly the foreign keys of relations not yet realised are added and those no relation justifies dropped |
| Planner.AddMissingForeignKeys | engine/crates/garance-engine/src/diff/diff.rs:256-269 | exactly the foreign keys of the relations that no existing foreign key realises are added; for a new table, those of all its relations |
| Planner.PlanSecurity | engine/crates/garance-engine/src/diff/diff.rs:172-200 | row security for new tables only, policies dropped and created for tables with access rules |
| PlanOutcome.AcceptsIffPermitted | engine/crates/garance-engine/src/diff/diff.rs:202-221 | when a statement's turn comes, PostgreSQL accepts it exactly if a condition on the two schemas holds; the earlier statements of the plan have prepared everything else |
| PlanOutcome.AcceptsDropTable | engine/crates/garance-engine/src/diff/diff.rs:69-85 | at a DROP TABLE no foreign key of another table references the table any more |
| PlanOutcome.PlanRunsIffUnblocked | engine/crates/garance-engine/src/diff/diff.rs:35-224 | every plan runs to the end if and only if five conditions hold that can be checked beforehand |
| PlanOutcome.PlansAgree | engine/crates/garance-engine/src/diff/diff.rs:40-47 | all plans for the same schemas end alike: every iteration order of the hash sets gives the same final catalogue, or all are refused |
| PlanOutcome.ForeignKeyNameInjective | engine/crates/garance-engine/src/diff/diff.rs:303-303 | different relations of one table get foreign keys of different names |
| PlanRun.ReachedUnique | engine/crates/garance-engine/src/diff/diff.rs:202-221 | the catalogue reached depends only on the set of statements executed |
| PlanShape.SerialColumns | engine/crates/garance-engine/src/diff/diff.rs:44-58 | every plan creates a new table's `serial` column as `int4` and its `bigserial` column as `int8` |
| PlanShape.SerialColumnsStay | engine/crates/garance-engine/src/diff/diff.rs:113-126 | and changes no type where they are that already |
| PlanShape.PolicyStatements | engine/crates/garance-engine/src/schema/rls.rs:20-65 | a policy is created for reading exactly with a rule for reading, for inserting and updating with one for writing, for deleting with one for deleting, each under its own name |
| PlanShape.PolicyDrops | engine/crates/garance-engine/src/diff/diff.rs:183-190 | the policies of exactly the four generated names are dropped |
| PlanShape.NewTablesOnly | engine/crates/garance-engine/src/diff/diff.rs:60-66 | UNIQUE constraints and row security are planned for new tables only, a constraint for every UNIQUE column outside the primary key, under its name |
| PlanShape.PlansTakeTurns | engine/crates/garance-engine/src/diff/diff.rs:202-221 | no statement of a plan stands before one of an earlier kind, in the order of the source |
| PlanShape.CountersCount | engine/crates/garance-engine/src/diff/diff.rs:9-23 | each counter of the summary is the number of the plan's statements of its kind |
| PlanShape.ModifiedColumns | engine/crates/garance-engine/src/diff/diff.rs:113-154 | `columns_modified` is the number of columns whose type or nullability the plan changes, however many statements that takes, plus the number of those whose default it changes |
| Convergence.FinalTables | engine/crates/garance-engine/src/diff/diff.rs:44-85 | after a plan the tables are exactly the desired ones |
| Convergence.FinalColumns | engine/crates/garance-engine/src/diff/diff.rs:88-154 | after a plan the columns are exactly the desired ones, each with its desired type and nullability, and the default it was already reported to have, or else the desired one verbatim |
| Convergence.ForeignKeysAreJustified | engine/crates/garance-engine/src/diff/diff.rs:271-280 | every foreign key left after a plan is justified by a relation |
| Convergence.RelationsRealised | engine/crates/garance-engine/src/diff/diff.rs:249-309 | after a plan a relation is realised by a foreign key exactly when its column belongs to its table |
| Convergence.NewTables | engine/crates/garance-engine/src/diff/diff.rs:60-66 | new tables end with row security, their primary key and their UNIQUE constraints |
| Convergence.FinalPolicies | engine/crates/garance-engine/src/diff/diff.rs:181-218 | policies after a plan: every generated one is gone, the others stay with their tables |
| Convergence.ConvergedIffSettled | engine/crates/garance-engine/src/diff/diff.rs:35-224 | a completed plan leaves what the desired schema asks for if and only if relation columns are the table's own, primary-key columns of new tables are not nullable, every type that is created or altered is reported under a name that reads back, and every default is reported as the wanted one up to normalisation |
| Convergence.OwnNameReadsBack | engine/crates/garance-engine/src/schema/introspect.rs:67-75 | a type that PostgreSQL reports under the name it was declared with reads back |
| Fixpoint.SilentIffConverged | engine/crates/garance-engine/src/diff/diff.rs:88-161 | the planner emits nothing but policy statements if and only if the catalogue is as desired |
| Fixpoint.SecondPlanSilent | engine/crates/garance-engine/src/diff/diff.rs:113-157 | planning again from a reading of the result emits nothing but policy statements, under the same exact condition |
| Fixpoint.EmptyIffConverged | engine/crates/garance-engine/src/diff/diff.rs:35-224 | without access rules a plan is empty if and only if the catalogue is as desired |
| Fixpoint.DestructiveIffLoss | engine/crates/garance-engine/src/diff/diff.rs:84-109 | data is flagged as lost if and only if some existing table or column is missing after the plan |
| PlanFindings.ForeignColumnBlocks | engine/crates/garance-engine/src/diff/diff.rs:296-309 | a relation whose foreign key column belongs to the other table makes every plan fail |
| PlanFindings.HasManyExample | engine/crates/garance-engine/src/diff/diff.rs:302-307 | a concrete one-to-many schema that no plan can create from an empty database |
| PlanFindings.DroppedUniqueBlocks | engine/crates/garance-engine/src/diff/diff.rs:77-81 | dropping a table that has a UNIQUE constraint fails on its index |
| PlanFindings.DroppedUniqueExample | engine/crates/garance-engine/src/diff/diff.rs:77-81 | a concrete database whose only table no plan can drop |
| PlanFindings.UniqueTargetBlocks | engine/crates/garance-engine/src/diff/diff.rs:212-213 | a relation to a new table whose primary key is not just `id` makes every plan fail |
| PlanFindings.UniqueTargetExample | engine/crates/garance-engine/src/diff/diff.rs:212-213 | a concrete schema of that kind that no plan can create from an empty database |
| PlanFindings.GeneratedPoliciesAreGone | engine/crates/garance-engine/src/diff/diff.rs:183-218 | after any plan a table with access rules has none of the policies generated for it |
| PlanFindings.PublicExample | engine/crates/garance-engine/src/diff/diff.rs:183-218 | a concrete public table: every plan runs from an empty database, and the policy for reading is gone |
| PlanFindings.NullableKeyBlocksNextPlan | engine/crates/garance-engine/src/diff/diff.rs:121-136 | after creating a table with a nullable primary-key column, every plan made from a reading of the result fails |
| PlanFindings.NullableKeyExample | engine/crates/garance-engine/src/diff/diff.rs:121-136 | a concrete schema of that kind: the first plan runs from an empty database, the next fails |
| PlanFindings.ForeignNameNeverSettles | engine/crates/garance-engine/src/diff/diff.rs:117-126 | a column whose type is reported under a name that does not read back gets the same change of type planned again after every plan |
| PlanFindings.VarcharDoesNotReadBack | engine/crates/garance-engine/src/diff/normalize.rs:4-26 | `varchar(255)`, reported as `varchar`, is such a type |
| PlanFindings.DefaultNeverSettles | engine/crates/garance-engine/src/diff/diff.rs:143-153 | a column whose default is reported as another expression gets it set, or dropped, again by every further planning |
| PlanFindings.StringDefaultIsRecast | engine/crates/garance-engine/src/diff/normalize.rs:29-53 | `'draft'`, reported as `'draft'::text`, is such a default |
| PlanFindings.DraftExample | engine/crates/garance-engine/src/diff/diff.rs:143-153 | a concrete schema of that kind: every plan runs from an empty database, and planning again sets the default once more |
| WellFormedRuns.ApplyKeepsWellFormed | engine/crates/garance-engine/src/diff/sql_gen.rs:1-92 | every accepted statement of a plan keeps the catalogue well-formed: anchors, keys, foreign keys and index names |
| WellFormedRuns.OutcomeIsInput | engine/crates/garance-engine/src/diff/diff.rs:35-224 | what a plan leaves is a fit input for planning again |
| Normalize.TypeReadsBack | engine/crates/garance-engine/src/diff/normalize.rs:4-76 | for every type name, the normalised name, read as the name of a catalogue type and made canonical, is itself again |
| Normalize.TypeSpellings | engine/crates/garance-engine/src/diff/normalize.rs:4-26 | each canonical type name is the result for exactly its own spellings, letter case and outer white space aside; every other name is kept |
| Normalize.CatalogueSpellings | engine/crates/garance-engine/src/schema/types.rs:50-69 | each introspected type is read from exactly its own spellings; every other name is kept |
| Normalize.CanonicalTypes | engine/crates/garance-engine/src/diff/normalize.rs:56-76 | the canonical name of each introspected type |
| Normalize.DefaultSpellings | engine/crates/garance-engine/src/diff/normalize.rs:29-53 | the four canonical defaults are the results for exactly their own spellings; every other default is kept, trimmed |
| Normalize.DefaultIdempotent | engine/crates/garance-engine/src/diff/normalize.rs:29-53 | normalising a default twice is normalising it once |
| Schema.ColumnNamed | engine/crates/garance-engine/src/schema/types.rs:20-22 | finds a column of that name, and fails only if there is none |
| ForeignKeyFolding.IntrospectForeignKeys | engine/crates/garance-engine/src/schema/introspect.rs:126-147 | one foreign key for each constraint of the rows, none twice, each the fold of its own rows |
| ForeignKeyFolding.FoldedIsDeclared | engine/crates/garance-engine/src/schema/introspect.rs:133-144 | for rows that are the cross product of local and referenced columns in order of position, a constraint folds to its local columns in order without repeats and exactly its referenced columns |
| ForeignKeyFolding.SingleColumnKey | engine/crates/garance-engine/src/schema/introspect.rs:133-144 | a single-column key to `id` folds to the form the planner compares |
| ForeignKeyQuery.FaithfulIffSharedAlike | engine/crates/garance-engine/src/schema/introspect.rs:106-147 | the query joins by constraint name alone: a foreign key is read with its own columns, target and referenced columns, however PostgreSQL orders the rows, if and only if no constraint of its name in the schema has other ones |
| ForeignKeyQuery.RelationsReadIff | engine/crates/garance-engine/src/schema/introspect.rs:112-118 | the foreign keys of two relations are both read as they are if and only if their names differ or they have the same column and target |
| ForeignKeyQuery.NamesMeetIff | engine/crates/garance-engine/src/diff/diff.rs:303-303 | the keys of two relations get the same name exactly if an underscore can be read on either side of table and relation |
| ForeignKeyQuery.NamesMeet | engine/crates/garance-engine/src/diff/diff.rs:303-303 | relation `b_c` of table `a` and relation `c` of table `a_b` get the same name, and a result of the query is folded to a foreign key that is not the declared one |
| AccessRules.AccessConditionBuilder.constructor | packages/schema/src/table.ts:17-22 | a chain starts with one `where` condition |
| AccessRules.AccessConditionBuilder.OrCondition | packages/schema/src/table.ts:24-31 | one condition is appended, and the chain is the builder itself |
| AccessRules.AccessConditionBuilder.OrBuilder | packages/schema/src/table.ts:24-31 | the other chain's conditions are appended, also when it is the same builder; the other chain is unchanged |
| AccessRules.BuildAccessRule | packages/schema/src/table.ts:108-114 | a chain becomes its conditions, a lone condition a list of one |
| AccessRules.OrWidens | packages/schema/src/table.ts:24-31 | a joined chain admits exactly what either side admits |
| AccessRules.LiteralReadsBack | engine/crates/garance-engine/src/schema/rls.rs:127-139 | every literal reads back as its value, strings with any number of quotes included |
| AccessRules.RuleReadsBack | engine/crates/garance-engine/src/schema/rls.rs:75-124 | a rule's clause reads back as the disjunction of its conditions, whatever the order of the filter maps, if and only if every name can be quoted; with such names it reads back at all if and only if no condition has an empty filter set |
| AccessRules.ClauseReadsBackIff | engine/crates/garance-engine/src/schema/rls.rs:75-124 | the same for every rule: the clause is what the rule means if and only if column names hold no double quote and unknown names leave the comment they stand in open at its depth |
| AccessRules.PlainNamesContained | engine/crates/garance-engine/src/schema/rls.rs:80-122 | an unknown name without comment delimiters stays inside its comment |
| AccessRules.UnknownNameCanAdmit | engine/crates/garance-engine/src/schema/rls.rs:77-81 | a concrete unknown rule name that closes its comment, and whose clause is true of every row and user |
| AccessRules.ClauseAdmitsExactly | engine/crates/garance-engine/src/schema/rls.rs:75-124 | for every rule whose names can be quoted, the clause is true in three-valued logic exactly on the rows that satisfy some condition; empty rules, and unknown names that stay inside their comment, admit nobody |
| AccessRules.NullFilterAdmitsNobody | engine/crates/garance-engine/src/schema/rls.rs:110-118 | the clause of a filter on null or a nested value is true of no row, not even one with NULL there |
| AccessRules.RequestPassesIff | engine/crates/garance-engine/src/api/routes.rs:28-42 | with `request.user_id` set as the engine sets it, a user's request passes exactly if the rule admits the user; an anonymous one also if the rule asks for any user, or for an owner in a column that is empty |
| AccessRules.GeneratePolicies | engine/crates/garance-engine/src/schema/rls.rs:20-65 | one policy for each command that has a rule and no other; deletion does not inherit the rule for writing |
| AccessRules.PolicyAdmitsExactly | engine/crates/garance-engine/src/schema/rls.rs:20-65 | as values: when the rule's names can be quoted and its filters are not empty, a command passes its policy exactly when the rule admits the existing row (SELECT, DELETE), the new row (INSERT) or both (UPDATE) |
| PolicyText.PolicyReadsBackIff | engine/crates/garance-engine/src/schema/rls.rs:20-65 | a CREATE POLICY statement reads back as its policy if and only if the names hold no double quote and each clause closes its own parentheses, strings, names and comments |
| PolicyText.StatementsAdmitExactly | engine/crates/garance-engine/src/schema/rls.rs:20-65 | every generated statement reads back as a policy on the table, and its command passes exactly when the rule for it admits the rows it touches: reading by the rule for reading, inserting and updating by that for writing, deleting by that for deleting |
| PolicyText.EveryRuleHasItsStatement | engine/crates/garance-engine/src/schema/rls.rs:20-65 | every command with a rule has a statement that reads back as a policy for it |
| QueryFilter.OperatorWords | engine/crates/garance-engine/src/query/filter.rs:7-16 | each operator is parsed from exactly its own word, and every other word is refused |
| QueryFilter.Word | engine/crates/garance-engine/src/query/filter.rs:7-16 | every operator has a word that is parsed to it |
| QueryFilter.ParseQueryParams | engine/crates/garance-engine/src/query/filter.rs:46-71 | parsing succeeds exactly on well-formed parameters and then gives every filter and sort key in order and the last selection, limit and offset; otherwise the error of the first ill-formed one |
| QueryFilter.MapMeaning | engine/crates/garance-engine/src/query/filter.rs:46-71 | for parameters from a map, the order of the walk changes nothing but the order of the filters |
| SdkQuery.QueryBuilder.Select | sdks/typescript/src/data.ts:14-17 | the call is recorded and the fields are those the calls so far determine |
| SdkQuery.QueryBuilder.Eq | sdks/typescript/src/data.ts:19-22 | the call is recorded and the fields are those the calls so far determine |
| SdkQuery.QueryBuilder.Neq | sdks/typescript/src/data.ts:24-27 | the call is recorded and the fields are those the calls so far determine |
| SdkQuery.QueryBuilder.Gt | sdks/typescript/src/data.ts:29-32 | the call is recorded and the fields are those the calls so far determine |
| SdkQuery.QueryBuilder.Gte | sdks/typescript/src/data.ts:34-37 | the call is recorded and the fields are those the calls so far determine |
| SdkQuery.QueryBuilder.Lt | sdks/typescript/src/data.ts:39-42 | the call is recorded and the fields are those the calls so far determine |
| SdkQuery.QueryBuilder.Lte | sdks/typescript/src/data.ts:44-47 | the call is recorded and the fields are those the calls so far determine |
| SdkQuery.QueryBuilder.Order | sdks/typescript/src/data.ts:49-52 | the call is recorded and the fields are those the calls so far determine |
| SdkQuery.QueryBuilder.Limit | sdks/typescript/src/data.ts:54-57 | the call is recorded and the fields are those the calls so far determine |
| SdkQuery.QueryBuilder.Offset | sdks/typescript/src/data.ts:59-62 | the call is recorded and the fields are those the calls so far determine |
| SdkQuery.QueryBuilder.Execute | sdks/typescript/src/data.ts:65-69 | the parameters sent are those the calls determine, with the selection unless it is empty |
| SdkQuery.SelectReadsBack | engine/crates/garance-engine/src/query/filter.rs:50-50 | a selection reads back as its column names, with or without a space behind the commas |
| SdkQuery.OrderReadsBack | engine/crates/garance-engine/src/query/filter.rs:51-58 | an order parameter reads back as its column and direction if and only if the column has no comma, no dot and no leading space |
| SdkQuery.SdkRoundTrip | sdks/typescript/src/data.ts:14-69 | for every sequence of calls and every order of the record, the engine reads exactly the last call of every slot |
| ListTransport.GatewayListRows | services/gateway/internal/proxy/engine.go:49-75 | the request has the first value of every filter key, of `select` and `order`, and the scanned counts or zero |
| ListTransport.GrpcParams | engine/crates/garance-engine/src/grpc/server.rs:44-56 | the parameters are the request's filters in some order and then its non-empty texts and positive counts, together the request's fields, none twice |
| ListTransport.TransportsAgree | engine/crates/garance-engine/src/api/routes.rs:289-291 | for every single-valued query the direct route accepts, the gRPC route accepts it too, and both mean the same if and only if texts are not empty, the limit is at least 1 and the offset not negative |
| ListTransport.ZeroLimitIsLost | engine/crates/garance-engine/src/grpc/server.rs:51-53 | a limit of zero is kept on one way and dropped on the other |
| ListTransport.CallsThroughGateway | services/gateway/internal/proxy/engine.go:49-75 | a client's calls sent through the gateway mean what they mean sent directly |
| Decimal.ParsePrinted | engine/crates/garance-engine/src/grpc/server.rs:51-56 | a printed 64-bit integer parses back to itself |
| Decimal.ScanSignedPrinted | services/gateway/internal/proxy/engine.go:66-75 | a printed 64-bit integer scans back to itself |
| SelectBuilder.BuildSelect | engine/crates/garance-engine/src/query/builder.rs:8-45 | succeeds exactly when every selected and filtered column exists and IS gets null, true or false; then the text is that of the query's translation with its parameters; otherwise the error of the first offence |
| SelectBuilder.BuildCondition | engine/crates/garance-engine/src/query/builder.rs:23-34 | one filter adds one condition, its parameters in order, and the next placeholder number stays one past the parameters |
| SelectBuilder.FilterErrors | engine/crates/garance-engine/src/query/builder.rs:22-26 | a filter is refused for an unknown column, and IS for every word but null, true and false in any letter case |
| SelectMeaning.PlaceholdersInOrder | engine/crates/garance-engine/src/query/builder.rs:21-35 | the placeholders of a statement are $1 to $n in order, n the number of its parameters |
| SelectReader.SelectReadsBack | engine/crates/garance-engine/src/query/builder.rs:18-44 | the text of a statement reads back as that statement if and only if its names hold no double quote and its limit and offset are not negative |
| SelectMeaning.ConditionMeans | engine/crates/garance-engine/src/query/builder.rs:21-35 | a condition with its parameters in place is true exactly on the rows its filter wants |
| SelectMeaning.WindowElements | engine/crates/garance-engine/src/query/builder.rs:37-43 | the k-th record of an answer is made of the sorted row offset + k, as far as the limit goes |
| SelectMeaning.BuiltReadsBackIff | engine/crates/garance-engine/src/query/builder.rs:38-43 | what the builder writes reads back as what it was made from if and only if the columns of the order, which it does not look up, hold no double quote, and the counts are not negative |
| SelectMeaning.QuotedOrderIsLost | engine/crates/garance-engine/src/query/builder.rs:38-41 | an order column with a double quote is accepted and not read back |
| SelectMeaning.SelectMeansQuery | engine/crates/garance-engine/src/query/builder.rs:8-45 | under that condition, reading the SQL back and evaluating it with its parameters gives the rows that satisfy all filters, then ordered, offset, limited and projected, if every column of the order exists, and is refused if one does not |
| SelectMeaning.UnknownOrderIsRefused | engine/crates/garance-engine/src/query/builder.rs:38-41 | a concrete query the builder accepts and PostgreSQL refuses, for a column of its order |
| RowVisibility.SameRowsIff | engine/crates/garance-engine/src/grpc/server.rs:61-66 | the gRPC route sets no user: on a table with a rule for reading both routes see the same rows if and only if the rule gives the same verdict on every row for the request's setting and for the pooled connection |
| RowVisibility.SeenWithoutClause | engine/crates/garance-engine/src/schema/rls.rs:4-9 | without row level security, or for an exempt role, every row is seen; with it and without a policy, none by any other |
| RowVisibility.OwnersRowsIff | engine/crates/garance-engine/src/api/routes.rs:279-311 | for a rule that admits owners, the exact rows on which a user's direct view and the view over a pooled connection are the same |
| QueryPath.SameMeaningSameAnswer | engine/crates/garance-engine/src/api/routes.rs:289-291 | queries that differ only in the order of their filters are refused alike and answered alike |
| QueryPath.ClientGetsItsRows | sdks/typescript/src/data.ts:65-69 | over either transport, by way of the SQL text, the client gets the answer of the query its calls intend on the rows that transport may see, or a refusal if a column is unknown: by the builder, or by PostgreSQL for a column of the order |
| QueryPath.OwnRowIsMissed | engine/crates/garance-engine/src/grpc/server.rs:61-66 | a user's own row is the answer on the direct route and missing on the gRPC route, when its connection is subject to row level security |
| WriteBuilder.FirstUnknownOf | engine/crates/garance-engine/src/query/builder.rs:54-55 | the column an error names is the first unknown one |
| WriteBuilder.WriteErrors | engine/crates/garance-engine/src/query/builder.rs:54-70 | an insertion is built exactly if every column exists, and otherwise refused for the first that does not; an update likewise, and for lack of a primary key |
| WriteBuilder.InsertMeansBody | engine/crates/garance-engine/src/api/routes.rs:357-359 | for every body and every order of its map, the insertion gives each column the text of its own value and nothing else, which is what the body asks for if and only if the value is not null; it is a statement if and only if the body is not empty |
| WriteBuilder.UpdateMeansBody | engine/crates/garance-engine/src/api/routes.rs:390-399 | the same for an update, whose key placeholder gets the id appended behind the values |
| WriteBuilder.NullIsWrittenAsText | engine/crates/garance-engine/src/api/routes.rs:357-359 | null in any column of any body is written exactly as the string `null` is, so no body can make a column NULL |
| MigrateApply.StepKeepsInv | engine/crates/garance-engine/src/api/routes.rs:516-546 | every statement of every call keeps effects and tracking rows matched one to one |
| MigrateApply.MigrationsApplyOnce | engine/crates/garance-engine/src/api/routes.rs:504-546 | under every interleaving, each file's SQL takes effect at most once, and the tracking table has exactly the files applied |
| MigrateApply.LoserNeverApplies | engine/crates/garance-engine/src/api/routes.rs:541-546 | a call whose file another call has recorded never takes effect and is never answered with success |
| MigrateApply.MigrationCompletes | engine/crates/garance-engine/src/api/routes.rs:516-572 | from every state of every run, a call that has started, whose file is not tracked and for whose file no other open transaction holds a row, can go on to the answer 201; then exactly its SQL has taken effect in addition and the tracking row has its checksum |
| MigrateApply.CheckConflictsIff | engine/crates/garance-engine/src/api/routes.rs:516-528 | the check answers with a conflict if and only if the file has been applied |
| MigrateApply.RecordRefusedIff | engine/crates/garance-engine/src/api/routes.rs:541-544 | the insertion is refused if and only if another call's row for the file has been committed |
| MigrateApply.BothPassTheCheck | engine/crates/garance-engine/src/api/routes.rs:516-528 | two calls for one file can both pass the check, for every request |
| FirstLogin.StepKeepsInv | services/auth/internal/service/oauth.go:129-168 | every store operation of every call keeps emails unique and calls settled on the owner of their key |
| FirstLogin.LoginsAgree | services/auth/internal/service/oauth.go:129-168 | under every interleaving no call fails, all that return for a key return the same user, and the identity row points to that user |
| FirstLogin.LoginCompletes | services/auth/internal/service/oauth.go:129-168 | from every state of every run every call can go on to return a user |
| FirstLogin.CreateOutcome | services/auth/internal/store/user.go:30-46 | a new user has the reported email, no password, and is neither verified nor banned; a taken email changes nothing |
| OAuthState.StepKeepsInv | services/auth/internal/store/oauth_state.go:21-44 | every step keeps each state value consumed at most once, in time, by the grant's own data |
| OAuthState.StateBacksOneCallback | services/auth/internal/service/oauth.go:66-127 | a state backs at most one successful callback, for its provider, before expiry, with the redirect URI checked at authorisation |
| OAuthState.ConsumeFindsIff | services/auth/internal/store/oauth_state.go:30-44 | a callback finds its row if and only if the state value was granted less than 600 seconds ago and nobody has consumed it |
| OAuthState.CompleteSucceedsIff | services/auth/internal/service/oauth.go:72-126 | with its row consumed, a callback succeeds if and only if it is for the row's provider and the provider's side works, with the row's redirect URI |
| OAuthState.CallbackSucceeds | services/auth/internal/service/oauth.go:66-127 | from every state of every run a callback for an unexpired, unconsumed state value and its provider can go on to success |
| Sessions.AuthService.SignUp | services/auth/internal/service/auth.go:42-66 | the error cases, and otherwise one new user and one new session |
| Sessions.AuthService.SignIn | services/auth/internal/service/auth.go:68-96 | succeeds exactly for an existing, unbanned user with a matching password, and then adds one session |
| Sessions.AuthService.RefreshToken | services/auth/internal/service/auth.go:98-127 | the whole new state and the answer are those of a rotation |
| Sessions.AuthService.SignOut | services/auth/internal/service/auth.go:129-135 | the whole new state is that of a sign-out |
| Sessions.SignedOutSessions | services/auth/internal/service/auth.go:129-135 | a sign-out with a live token revokes that one session and nothing else; a dead token changes nothing |
| Sessions.RotatedSessions | services/auth/internal/service/auth.go:107-126 | a rotation revokes that one session and adds one unless the user is banned |
| Sessions.RefreshAtMostOnce | services/auth/internal/service/auth.go:98-135 | over every run a refresh token succeeds at most once, and never after sign-out or expiry |
| Sessions.NewTokenRefreshes | services/auth/internal/store/session.go:25-45 | the token of a sign-in by an unbanned user refreshes exactly within thirty days, and not after a sign-out with it |
| Sessions.DeadForever | services/auth/internal/store/session.go:37-56 | a token that no longer opens a session never does so again |
| Sessions.RotationAndActiveSessions | services/auth/internal/service/auth.go:98-127 | a successful refresh keeps the number of the user's active sessions, a banned one lowers it by one, other users keep theirs |
| RefreshRace.LookUpFindsIff | services/auth/internal/service/auth.go:98-110 | statement by statement, a lookup finds the session exactly when the token has not expired and no earlier statement of any call revoked it |
| RefreshRace.BothSucceedOnlyOverlapping | services/auth/internal/service/auth.go:98-127 | two refreshes of one token both succeed only if each looked the session up before the other revoked it |
| RefreshRace.OverlappingBothSucceed | services/auth/internal/service/auth.go:98-127 | and for every open token there is such a run in which both do |
| FileStore.StorageService.CreateBucket | services/storage/internal/store/bucket.go:28-45 | the whole new state and the answer: one bucket more, or a refusal when the name is taken |
| FileStore.StorageService.DeleteBucket | services/storage/internal/service/storage.go:45-48 | the bucket and exactly the rows of its files are gone, all objects stay |
| FileStore.StorageService.Upload | services/storage/internal/service/storage.go:51-89 | the answer and the whole new state in each case: bucket missing, too large, type not allowed, S3 failing, name taken with the object removed, or object and row stored |
| FileStore.StorageService.Download | services/storage/internal/service/storage.go:92-110 | succeeds exactly when bucket, row and object are there, and returns that object and row |
| FileStore.StorageService.Delete | services/storage/internal/service/storage.go:113-125 | for an existing bucket and working S3, row and object of the file are gone, everything else stays, no download of it succeeds, and the answer is success exactly if the row existed; otherwise nothing changes and the error says why |
| FileStore.DownloadableAfter | services/storage/internal/service/storage.go:51-125 | an uploaded file can be downloaded with its bytes; a deleted one cannot, nor a file of a deleted bucket |
| FileStore.ObjectKeyInjective | services/storage/internal/service/storage.go:75-75 | object keys tell files apart when bucket names have no slash |
| FileStore.ObjectKeysCollide | services/storage/internal/service/storage.go:75-75 | with a slash in a bucket name two files can share an object |
| FileStore.ExecAgreesIff | services/storage/internal/service/storage.go:80-86 | a call keeps rows and objects in agreement if and only if it is not an upload over an existing file |
| FileStore.RunAgrees | services/storage/internal/service/storage.go:51-125 | over every run of whole calls without such an upload every row has its object with the uploaded bytes and obeys its bucket's limits |
| UploadRace.StepKeepsInv | services/storage/internal/service/storage.go:73-88 | every statement of every upload keeps a file's row with its one recorded call, the object of a call that is alone, and removed objects removed |
| UploadRace.UploadSurvivesIff | services/storage/internal/service/storage.go:73-88 | under every interleaving, when all uploads of a file have been answered, the row's object is there with the bytes of the upload that succeeded if and only if no other upload of the file put an object |
| UploadRace.NewFileIsLost | services/storage/internal/service/storage.go:79-86 | a run of two uploads of a new file, neither over an existing row, that ends with the row and without the object |
| PasswordHash.Base64RoundTrip | services/auth/internal/crypto/password.go:44-45 | unpadded base64 decodes to the bytes encoded |
| PasswordHash.EncodedGroup | services/auth/internal/crypto/password.go:44-45 | three bytes are encoded as the letters of their four sextets, by section 4 of RFC 4648 |
| PasswordHash.EncodedTails | services/auth/internal/crypto/password.go:44-45 | a tail of one or two bytes is encoded as two or three letters |
| PasswordHash.FormatText | services/auth/internal/crypto/password.go:42-46 | the stored string in full, with the order of its fields |
| PasswordHash.ParamsRoundTrip | services/auth/internal/crypto/password.go:42-65 | the three cost parameters scan back from their text |
| PasswordHash.ParseOfFormat | services/auth/internal/crypto/password.go:34-75 | parsing a formatted hash recovers parameters, salt and key |
| PasswordHash.FormatInjective | services/auth/internal/crypto/password.go:42-46 | different parameters, salts or keys are never stored alike |
| PasswordHash.ParseAnyHeader | services/auth/internal/crypto/password.go:50-59 | neither the algorithm's name nor the version number matters to verification |
| PasswordHash.VerifyHashed | services/auth/internal/crypto/password.go:34-81 | the hashed password is accepted, and any password exactly when its recomputed key equals the stored one |

## Left out

Weaker than the source, by intention:

- NormalizeType: letter case is folded for ASCII only.
- Convergence.FinalColumns: the order of columns in a table and of columns in a composite key is not modelled. Altering a type is taken to report a kept default as if it had been declared with the new type.
- PlanOutcome.PlanRunsIffUnblocked: acceptance is about the catalogue only; casts that fail on data, NOT NULL on columns that hold nulls, a foreign key column whose type does not fit the target's `id`, and policies that depend on a column to be dropped or altered are not modelled. A UNIQUE constraint is refused the name of an existing index, but not that of a table or of a constraint of another table. A unique index without a constraint does not count as the key of a foreign key.
- Fixpoint.SecondPlanSilent: the second reading is taken to have every foreign key as declared; for two of the same name in different tables `ForeignKeyQuery` has the exact condition.
- PlanOutcome.ForeignKeyNameInjective: within one table; across tables `ForeignKeyQuery.NamesMeetIff` says when names meet. PostgreSQL truncates identifiers at 63 bytes, which can make long names equal.
- SdkQuery.SdkRoundTrip: a count is taken as an integer that JavaScript prints in decimal; beyond 2^53 it may print another number, from 10^21 on another notation.
- SelectMeaning.SelectMeansQuery: rows are the texts of their columns; `IS TRUE` and `IS FALSE` hold of the texts `true` and `false`, and sorting is a parameter. PostgreSQL's system columns, such as `ctid`, are taken for unknown ones.
- QueryPath.ClientGetsItsRows: grants of the role a request runs under, and the role switch itself, are not modelled; row level security is one policy for reading, as the engine generates it.
- WriteBuilder.InsertMeansBody: that PostgreSQL takes a text for the column's type is not modelled; number, array and object values are known by the JSON text they print as.
- MigrateApply.MigrationsApplyOnce: the migration's SQL is taken to be free of transaction control and not to touch the tracking table.
- FirstLogin.LoginsAgree: users are not deleted, and the store has no errors but "not found" and "duplicate"; the UPDATE of provider data and of the email's verification has no effect on the result.
- Sessions.AuthService.RefreshToken: creating the new session does not fail after the old one was revoked; lookup and revocation happen in one step, which `RefreshRace` takes apart.
- UploadRace.UploadSurvivesIff: about uploads only, without deletions between them; an insertion fails only on the UNIQUE name, and removing the object afterwards does not fail.
- PolicyText.PolicyReadsBackIff: the reader knows strings, quoted names and nested comments, which is what the engine writes, but not dollar quotes or line comments.
- AccessRules.RequestPassesIff: about policies only; the grants of the role that `set_rls_context` chooses are not modelled.
- FileStore.RunAgrees: runs consist of whole calls; statement by statement, two uploads of a new name can lose the object, and `UploadRace` has the exact condition. Removing an object after a failed insertion and deleting a row do not fail; deleting a bucket leaves its objects behind, as the code does.

Not modelled:

- UNIQUE, primary-key and index changes on existing tables: the planner emits nothing for them (`diff_indexes` is empty).
- Clauses of policies inside plan statements: the plan only knows their names and commands; `AccessRules` has the clauses.
- `references`, `renamed_from` and the storage section of the project schema: the planner ignores them.
- Foreign keys over several columns or to other columns than `id` in the current schema.
- `build_select_by_id` and `build_delete`: one fixed statement each.
- The reload of the cached schema, triggers and grants at the end of `migrate_apply`.
- The HTTP and gRPC encodings of parameters and results, and the conversion of rows to JSON.
- The SQL guard, JWT and AES-GCM, URL parsing and calls to OAuth providers.
- Listing files, signed URLs, the image and gateway proxies, the dashboard, the command line, type generation and realtime.
