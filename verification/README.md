# Verified models of Orbyte's tooling algorithms

A Dafny model of the algorithms in the repository whose promises are global: that a second run
changes nothing, that every thread interleaving gives the same totals, that a slice is closed, that
a size limit is used to the last byte. A module models one source file, but the regeneration script
has two, `GoJson` is the encoder the search output goes through, and `Backfill` covers two migrations.
A method that follows the source's loops is proved against a specification, and the lemmas say what
that specification means.

| file | what it models |
|---|---|
| `Base.dfy`, `Text.dfy` | options, insertion-ordered dictionaries, filtering; numerals, code-point order, `split`, `join`, `strip` |
| `RecommendedModels.dfy` | selecting one catalog model per curation rule, deriving names, the runtime-visible view |
| `Regeneration.dfy` | building sections and the whole recommended-models file, from disk to disk |
| `AlembicEnv.dfy` | `-x` argument parsing, range sharding of tenants, the per-schema migration loop |
| `MigrationRunner.dfy` | a batch with its retry; worker pool, result loop and monitor as a transition system |
| `OpenApiSlice.dfy` | reference collection, the worklist closure, pruning, the sliced document |
| `BenchRunner.dfy` | concurrent questions under two locks, and the resume file over many sessions |
| `GoJson.dfy` | Go's pretty-printed JSON: escaping, layout, sizes, and a reader that gets every value back |
| `SearchEnvelope.dfy` | the documents of the search command, the binary search for what fits, the truncated envelope |
| `ChatStream.dfy`, `ChatUser.dfy` | the packet state machine, and session and parent chaining driven by it |
| `MockLlm.dfy` | model-name knobs, tool choice, streamed deltas and the client that merges them |
| `EnvInventory.dfy` | scope and parent marks of the syntax-tree visitor, filled while it walks |
| `Backfill.dfy` | the batched update and insert loops of two user-file migrations |
| `WikiZips.dfy` | splitting pages into zips, fresh file names |

## Where code and documentation disagree

- The regeneration script promises zero diff on a re-run of an unchanged catalog
  (`backend/scripts/update_recommended_models.py:20`). Through the file this holds exactly when no
  rule pick other than the default gets an empty display name (`Regeneration.ZeroDiffOnDisk`), because
  `serialize` drops empty names and `_sections_equal` then sees a difference.
  `Regeneration.BlankOverrideChurns` is a concrete case: an override mapping a model to the empty
  name. In memory the promise holds without any condition (`Regeneration.RerunIsFixpoint`).
- `filter_tenants_by_range` documents positions as 1-based and inclusive; the code slices 0-based and
  half-open, and counts a negative end back from the last tenant (`AlembicEnv.ShardMember`,
  `AlembicEnv.RangeByRank`). `AlembicEnv.DocumentedRangeIff` says for which bounds the two agree: with
  a non-negative or absent end, exactly when the start is absent, not positive, or past the last
  tenant the end lets in.
  `AlembicEnv.MissedTenant` is the smallest case: one tenant, positions 1 to 1.
- `content_truncated: true` can accompany complete content. `SearchEnvelope.FlagWithCompleteContent`
  says exactly when: the flag is one byte shorter as `true` than as `false`, and each invalid byte
  becomes three bytes shorter once it is a rune. `SearchEnvelope.FlagLies` gives results and a limit
  at which the command prints such an envelope.
- The benchmark's resume file is append-only, but a last record without its newline is run together
  with the next one and lost (`BenchRunner.UnterminatedRecordIsLost`). Complete lines always stay.
  `BenchRunner.RecordsRunTogether` is a two-session history that loses both records. A record cut off inside
  a multi-byte character is not skipped like other fragments: the file no longer decodes, and no later
  session gets past reading it (`BenchRunner.TornEndsHistory`, `BenchRunner.TornReachable`).
- When `run_alembic_for_batch` raises, the in-flight entry is never removed
  (`backend/alembic/run_multitenant_migrations.py:171-173`). So running batches are proved to be in the
  table, not the other way round. A batch the monitor reports as still running is at work exactly when it
  did not raise (`MigrationRunner.ReportedMeaning`), and what the table holds once the runner has returned is
  exactly what raised (`MigrationRunner.TableAtEnd`). `MigrationRunner.RaisedIsReported` is a run of six
  steps that reports a batch no worker is on.
- The slice is meant to hold every schema its endpoints need, but a reference is taken for the last segment
  of its path. References that are the prefix and a plain name are read right
  (`OpenApiSlice.PlainIsReadRight`), and where only such are left none dangles
  (`OpenApiSlice.PlainPointersResolve`). In general all resolve exactly when the schemas behind the misread
  ones are kept anyway (`OpenApiSlice.PointersResolveIff`). `OpenApiSlice.MisreadReferenceDangles` has a
  pointer below a schema that resolves before and dangles after. References to other component sections
  always dangle: they stay (`OpenApiSlice.ParameterReferenceStays`), while of the components only `schemas`
  and the security scheme are written (`backend/scripts/transform_openapi_for_docs.py:121-131`).
- `remove_internal_properties_from_schema` promises to remove internal properties recursively, but does
  not descend into the values of `properties`. Every node along `allOf`, `oneOf`, `anyOf`, `items` and
  `additionalProperties` ends clean (`OpenApiSlice.PruneCleans`). Nodes below property values do exactly
  when each public property reached along those edges had a deeply clean schema before
  (`OpenApiSlice.DeepCleanIffNested`, and `OpenApiSlice.SliceDeeplyClean` for all component schemas of
  the output). `OpenApiSlice.NestedPropertySurvives` is the smallest schema that keeps a `tenant_id`.
  Schemas written inline in an operation are not pruned at all: of an operation only the security entry
  and the parameter list change (`OpenApiSlice.SliceKeepsPublicOperations`). A sliced operation holds no
  internal property or required name anywhere exactly when what stays of it held none before
  (`OpenApiSlice.OperationCleanIff`); `OpenApiSlice.InlineSchemaSurvives` keeps a `tenant_id` in a request body.

## Model

| member | source | states |
|---|---|---|
| RecommendedModels.SelectMeaning | backend/scripts/update_recommended_models.py:253-282 | a rule picks nothing exactly when no model passes; otherwise a passing one that none is newer than, nor equally new with a smaller id |
| RecommendedModels.CandidateMeaning | backend/scripts/update_recommended_models.py:253-276 | a model passes exactly when it is of the vendor, matched and not excluded, neither named nor priced free, not expired on the day, and with text output if that is asked for |
| Text.StringLeMeaning | backend/scripts/update_recommended_models.py:282 | the tie-break compares ids at their first difference, a prefix first |
| RecommendedModels.SelectIgnoresOrder | backend/scripts/update_recommended_models.py:265-282 | permuting a catalog without ties changes no rule's pick |
| RecommendedModels.DistinctIdsAreTieFree | backend/scripts/update_recommended_models.py:265-282 | pairwise distinct ids leave no tie |
| RecommendedModels.NativeNameMeaning | backend/scripts/update_recommended_models.py:285-294 | an override wins; otherwise the id is kept, or loses what precedes its first slash if it has one, or that with every dot dashed |
| RecommendedModels.StrippedNameMeaning | backend/scripts/update_recommended_models.py:297-309 | of a name with ": " beside an id with a vendor, the part before the first ": " goes exactly when it is that vendor, case and punctuation aside |
| RecommendedModels.AlphanumericsMeaning | backend/scripts/update_recommended_models.py:306-307 | what the comparison keeps of a text is what it keeps of its parts, in order |
| RecommendedModels.AlphanumericMeaning | backend/scripts/update_recommended_models.py:306-307 | of one character: a digit, a letter in lower case, or nothing |
| RecommendedModels.UnstrippedName | backend/scripts/update_recommended_models.py:302-303 | any other name stays |
| RecommendedModels.DisplayNameMeaning | backend/scripts/update_recommended_models.py:312-320 | none unless display names are emitted; an override wins even when blank; otherwise the catalog name without its vendor |
| RecommendedModels.VisibleModels | backend/scripts/update_recommended_models.py:323-334 | the loop over a section computes the view defined by in-place insertion, and nothing for no section |
| RecommendedModels.VisibleOfDefaultFirst | backend/scripts/update_recommended_models.py:323-334 | a default-first section without repeated names shows exactly its entries in order |
| RecommendedModels.VisibleMeaning | backend/scripts/update_recommended_models.py:323-334 | the view starts with the default, repeats no name, invents no entry and loses no name or display name |
| RecommendedModels.VisibleInOrder | backend/scripts/update_recommended_models.py:323-334 | the view in full: one entry for each name, in the order the names are first listed, each the first with a display name, or the first of all when none has one |
| Regeneration.DedupeNames | backend/scripts/update_recommended_models.py:373-385 | the loop over the picks yields one entry per native name, at its first pick |
| Regeneration.BuildSection | backend/scripts/update_recommended_models.py:337-406 | the loops produce the specified section, error and warnings; without a pin or a matched default-source rule the previous section comes back equal, models included, with the warning about it last, or NoDefaultModel when there is none |
| Regeneration.DefaultMeaning | backend/scripts/update_recommended_models.py:346-357 | the default is the pin, else the native name of the first default-source rule that matched |
| Regeneration.KeptMeaning | backend/scripts/update_recommended_models.py:359-371 | a section fails exactly when it has no default and no previous section; without a default it is the previous one, with the warning last; with one there is no such warning |
| Regeneration.UnmatchedWarned | backend/scripts/update_recommended_models.py:348-354 | one warning for each rule without a pick, in rule order |
| Regeneration.EntriesMeaning | backend/scripts/update_recommended_models.py:373-385 | the entries in rule order are exactly those of the picks first with their native name, with that pick's display name |
| Regeneration.DedupedCovers | backend/scripts/update_recommended_models.py:375-385 | every pick's native name is listed |
| Regeneration.DedupedSource | backend/scripts/update_recommended_models.py:375-385 | each entry carries the display name of the first pick with that native name |
| Regeneration.BuiltSectionMeaning | backend/scripts/update_recommended_models.py:337-406 | a built section lists the default first, then every other entry in order, and no name twice |
| Regeneration.UnpickedDefault | backend/scripts/update_recommended_models.py:387-400 | a default no rule picked shows its override unless blank, else what was shown for it before, else nothing |
| Regeneration.FreshView | backend/scripts/update_recommended_models.py:323-406 | what the runtime shows of a built section |
| Regeneration.SectionSettles | backend/scripts/update_recommended_models.py:337-421 | rebuilding a built or kept section over itself gives an equal visible view: pins, fallbacks and inherited display names included |
| Regeneration.SettledOnDisk | backend/scripts/update_recommended_models.py:409-490 | after a write and a read the same holds exactly when no blank display name is generated next to the default |
| Regeneration.BumpAdvances | backend/scripts/update_recommended_models.py:424-429 | a bump adds one to the last dotted part, keeps the prefix, and gives a version that differs and can be bumped again |
| Regeneration.BumpMeaning | backend/scripts/update_recommended_models.py:424-429 | a version can be bumped exactly when what follows its last dot is a numeral, which then goes up by one |
| Regeneration.UnchangedIffSettled | backend/scripts/update_recommended_models.py:432-469 | a build returns the previous file untouched exactly when every section already looks like its own rebuild and there are no others |
| Regeneration.BuildSettles | backend/scripts/update_recommended_models.py:432-469 | the file any successful build returns is settled |
| Regeneration.BuiltFileMeaning | backend/scripts/update_recommended_models.py:432-469 | a new file has the bumped version, the day's date and the sections in rule order; a section without a default is the one in the previous file, models included, whatever else moves |
| Regeneration.FailureMeaning | backend/scripts/update_recommended_models.py:438-464 | a build fails for the first section that has neither a default nor a predecessor, or else for a version it cannot bump while the content moves, and for nothing else |
| Regeneration.WarningsInOrder | backend/scripts/update_recommended_models.py:438-450 | the warnings are those of each section, one after the other |
| Regeneration.RerunIsFixpoint | backend/scripts/update_recommended_models.py:432-469 | feeding the result back as the previous file returns it untouched with the same warnings, on any day and for any catalog from which the rules pick the same models |
| Regeneration.SelectionUntilExpiry | backend/scripts/update_recommended_models.py:116-123 | the rules pick the same on two days between which no model expires |
| Regeneration.SelectionIgnoresOrder | backend/scripts/update_recommended_models.py:265-282 | the rules pick the same from a permuted catalog without ties |
| Regeneration.CatalogOrderIrrelevant | backend/scripts/update_recommended_models.py:432-469 | permuting a tie-free catalog changes neither file, warnings nor failure |
| Regeneration.VersionMovesWithContent | backend/scripts/update_recommended_models.py:452-469 | the version moves exactly when section names or visible views do; otherwise nothing moves |
| Regeneration.ReadBack | backend/scripts/update_recommended_models.py:210-227 | reading a written file gives it back but for empty display names |
| Regeneration.WriteReadWrite | backend/scripts/update_recommended_models.py:472-490 | writing what was read from a written document gives the same document |
| Regeneration.ZeroDiffOnDisk | backend/scripts/update_recommended_models.py:210-490 | a second run, on any day, from which the same models are picked leaves the written document alone if and only if no blank display name is generated next to the default |
| Regeneration.BlankOverrideChurns | backend/scripts/update_recommended_models.py:476-480 | rules, catalog and file for which the second run differs |
| AlembicEnv.GetSchemaOptions | backend/alembic/env.py:114-207 | the loop and the checks read the arguments into the options, or the first error; each accepted option is what the last argument for its own key says |
| AlembicEnv.AcceptedMeaning | backend/alembic/env.py:133-207 | options are accepted exactly when the bounds are integers in order and schemas are not chosen in two ways, by name and all or by range; multi-tenant ones have to choose in one |
| AlembicEnv.AcceptedOptions | backend/alembic/env.py:118-207 | in terms of the command line: either bound is present exactly when its key is, with the value its last argument parses to; switches are on when it says true in any case, or by default; the schemas are the non-blank trimmed parts of theirs, in order |
| AlembicEnv.KeyGiven | backend/alembic/env.py:117-124 | a key's value is what its last argument has after the first equals sign, trimmed |
| AlembicEnv.ArgumentsAccepted | backend/alembic/env.py:119-124 | the first argument without an equals sign is the error; there is none exactly when all have one |
| AlembicEnv.SchemaNamesMeaning | backend/alembic/env.py:160-168 | a blank value names no schemas; any other the non-blank trimmed parts between its commas, in order |
| AlembicEnv.RejectedMeaning | backend/alembic/env.py:133-198 | each rejection says what is wrong and that nothing checked before it was |
| AlembicEnv.SchemaNamesRoundTrip | backend/alembic/env.py:160-168 | splitting the comma-joined names returns the list exactly when it is non-empty and every name is non-empty, comma-free and trimmed |
| AlembicEnv.BatchArgumentsRoundTrip | backend/alembic/run_multitenant_migrations.py:65-95 | the arguments built for a batch of plain names, with or without the retry flag, are accepted and read back as that batch in order |
| AlembicEnv.BatchArguments | backend/alembic/run_multitenant_migrations.py:65-95 | what the arguments of any batch are read as: the names its text splits into, or an error when there is none |
| AlembicEnv.FilterTenantsByRange | backend/alembic/env.py:65-111 | the loops compute the list filtered by sorted position, or the list itself without bounds |
| AlembicEnv.ShardMember | backend/alembic/env.py:94-103 | whatever bounds are given, a tenant is kept exactly when its 0-based sorted position lies in the half-open range |
| AlembicEnv.RangeByRank | backend/alembic/env.py:79-111 | the result is the original list less the tenants outside the range by the number of tenants before them, no sorting involved |
| AlembicEnv.DocumentedRangeIff | backend/alembic/env.py:65-111 | the documented 1-based inclusive range is what is kept exactly for the bounds stated |
| AlembicEnv.MissedTenant | backend/alembic/env.py:73-74 | a list and range whose documented tenant is dropped |
| AlembicEnv.ShardKeepsOrder | backend/alembic/env.py:105-111 | a shard lists entries at ascending positions of the original, every position of a non-tenant among them |
| AlembicEnv.ShardsPartition | backend/alembic/env.py:65-111 | for distinct ids and ascending cut points covering all tenants, each tenant is in exactly one shard |
| AlembicEnv.MigrateSchemas | backend/alembic/env.py:290-318 | the loop migrates everything migratable up to the first failure, or everywhere with continue=true, and succeeds accordingly |
| AlembicEnv.AlembicUpgrade | backend/alembic/env.py:260-318 | bad arguments change nothing and fail; otherwise the chosen schemas go through the loop |
| MigrationRunner.RunAlembicForBatch | backend/alembic/run_multitenant_migrations.py:57-97 | the two processes do what the batch does stepped schema by schema; of plain names everything migratable ends at head wherever the failing ones sit, and success means all are |
| MigrationRunner.BatchStepKeeps | backend/alembic/env.py:294-318 | each schema handled keeps what the passes have reached and brings only migratable schemas to head |
| MigrationRunner.BatchRunMeaning | backend/alembic/run_multitenant_migrations.py:68-97 | stepped from any point to its end, a batch succeeds exactly when every schema migrates, and exactly the migratable ones join those at head |
| MigrationRunner.BatchesCover | backend/alembic/run_multitenant_migrations.py:117 | batches are non-empty, full but for the last, and concatenate to the input |
| MigrationRunner.InvKept | backend/alembic/run_multitenant_migrations.py:161-210 | every step of every thread keeps: each batch in one place and started once, the table accurate, each batch as far as its own steps have brought it, each result its batch's |
| MigrationRunner.InvAlways | backend/alembic/run_multitenant_migrations.py:125-210 | the invariant holds throughout every interleaving |
| MigrationRunner.QueueInOrder | backend/alembic/run_multitenant_migrations.py:176-178 | batches wait in the order submitted and are taken from the oldest |
| MigrationRunner.AtMostMaxWorkersRunning | backend/alembic/run_multitenant_migrations.py:162-174 | at most max_workers batches run at once, and each running one is in the table |
| MigrationRunner.RunnerOutcome | backend/alembic/run_multitenant_migrations.py:107-210 | every batch starts exactly once; True exactly when all succeeded without exception; a batch that did not raise succeeded exactly when all it names migrate, and has those that can at head; nothing else gets there |
| MigrationRunner.RunnerResult | backend/alembic/run_multitenant_migrations.py:107-210 | with plain names, True means every schema is at head, and a batch that did not raise has all its migratable schemas there |
| MigrationRunner.StuckMeansStayed | backend/alembic/run_multitenant_migrations.py:137-156 | a batch is reported at a tick exactly when it was in the table in every state since the tick before |
| MigrationRunner.ReportedMeaning | backend/alembic/run_multitenant_migrations.py:137-174 | a reported batch is at work exactly when it has not ended in an exception |
| MigrationRunner.TableAtEnd | backend/alembic/run_multitenant_migrations.py:164-210 | when the runner returns the table holds exactly the batches that raised |
| MigrationRunner.RaisedIsReported | backend/alembic/run_multitenant_migrations.py:137-174 | a run of six steps that reports a batch no worker is on |
| MigrationRunner.FirstTickSilent | backend/alembic/run_multitenant_migrations.py:137-148 | nothing is reported at the first tick |
| MigrationRunner.AlwaysCanMove | backend/alembic/run_multitenant_migrations.py:161-210 | until it returns, some thread other than the monitor can move without an exception |
| MigrationRunner.StepsUseUp | backend/alembic/run_multitenant_migrations.py:161-210 | every step but a monitor tick uses up a measure of the work left |
| MigrationRunner.RunsAreBounded | backend/alembic/run_multitenant_migrations.py:161-210 | a schedule has at most eight steps a batch, two a schema it names and one to return, ticks aside |
| OpenApiSlice.CollectSchemaRefs | backend/scripts/transform_openapi_for_docs.py:21-32 | adds exactly the schema names referred to anywhere in the value; fails exactly when some reference is not a string |
| OpenApiSlice.PointersByPath | backend/scripts/transform_openapi_for_docs.py:21-32 | the references of a value are the `$ref` strings found along its paths through objects and arrays, at any depth |
| OpenApiSlice.RefsAreStringsIff | backend/scripts/transform_openapi_for_docs.py:21-32 | collecting fails exactly when some path leads to a `$ref` that is not a string |
| OpenApiSlice.GetAllReferencedSchemas | backend/scripts/transform_openapi_for_docs.py:35-55 | the worklist returns the least set that holds the initial names and is closed under references of defined schemas; a failure comes from a schema that set must hold |
| OpenApiSlice.RemoveInternalProperties | backend/scripts/transform_openapi_for_docs.py:58-86 | the field-by-field pruning computes the specified schema |
| OpenApiSlice.PruneCleans | backend/scripts/transform_openapi_for_docs.py:58-86 | no internal property or required name is left at any node along the recursion edges |
| OpenApiSlice.DeepCleanIffNested | backend/scripts/transform_openapi_for_docs.py:58-86 | none is left below property values either exactly when every public property on the way had a deeply clean schema |
| OpenApiSlice.NestedPropertySurvives | backend/scripts/transform_openapi_for_docs.py:63-66 | a schema whose nested internal property survives |
| OpenApiSlice.PruneIdempotent | backend/scripts/transform_openapi_for_docs.py:58-86 | pruning twice is pruning once; a schema is unchanged exactly when it was clean |
| OpenApiSlice.PruneKeepsPublic | backend/scripts/transform_openapi_for_docs.py:63-73 | exactly the properties other than tenant_id and db_session stay, values untouched; required keeps its other names in order or goes when none is left |
| OpenApiSlice.PruneKeepsRest | backend/scripts/transform_openapi_for_docs.py:58-86 | every other key stays as it was, and so do the keys worked on where their values are of another kind; along the edges each value is pruned in place |
| OpenApiSlice.PruneRefs | backend/scripts/transform_openapi_for_docs.py:58-86 | pruning adds no reference |
| OpenApiSlice.SliceOperations | backend/scripts/transform_openapi_for_docs.py:126-140 | the loop over a path's methods keeps the public ones, cleaned, and collects their references |
| OpenApiSlice.SlicePaths | backend/scripts/transform_openapi_for_docs.py:123-140 | the loop over paths keeps those with a public method and collects all their references |
| OpenApiSlice.SliceSchemas | backend/scripts/transform_openapi_for_docs.py:145-158 | exactly the referenced defined schemas, pruned |
| OpenApiSlice.PublicMeaning | backend/scripts/transform_openapi_for_docs.py:139 | an operation is public exactly when it has tags and they say so: "public" is an element of the list, a key of the object, or a part of the string |
| OpenApiSlice.KeptIffReached | backend/scripts/transform_openapi_for_docs.py:123-158 | the output keeps exactly the defined schemas that a chain of references reaches from a public operation as the input has it |
| OpenApiSlice.SliceKeepsPublicOperations | backend/scripts/transform_openapi_for_docs.py:89-140 | an operation stays exactly when its tags say public, and changes only in its security entry, set to BearerAuth, and its parameters, from which those named tenant_id or db_session go |
| OpenApiSlice.EndpointRefs | backend/scripts/transform_openapi_for_docs.py:89-140 | securing and cleaning an operation adds no reference |
| OpenApiSlice.SliceIsSound | backend/scripts/transform_openapi_for_docs.py:108-160 | every schema name the code reads off a reference in the output, if the input defines it, the output does; no internal parameter in any operation; component schemas clean along the recursion edges |
| OpenApiSlice.PlainIsReadRight | backend/scripts/transform_openapi_for_docs.py:21-32 | of the prefix and a name without slash, percent sign or tilde, the code reads the schema the fragment leads into |
| OpenApiSlice.PointersResolveIff | backend/scripts/transform_openapi_for_docs.py:21-55 | every reference left in the output into a schema of the input leads into a schema of the output exactly when the closure holds the schema behind each misread one |
| OpenApiSlice.PlainPointersResolve | backend/scripts/transform_openapi_for_docs.py:21-55 | none dangles when every schema reference left is the prefix and a plain name |
| OpenApiSlice.MisreadReferenceDangles | backend/scripts/transform_openapi_for_docs.py:28 | a document whose pointer below a schema resolved before and dangles after |
| OpenApiSlice.ParameterReferenceStays | backend/scripts/transform_openapi_for_docs.py:89-140 | a parameter given by reference stays in every public operation, wherever it points |
| OpenApiSlice.OperationCleanIff | backend/scripts/transform_openapi_for_docs.py:89-140 | a sliced operation is clean at every depth exactly when everything of it that stays was |
| OpenApiSlice.InlineSchemaSurvives | backend/scripts/transform_openapi_for_docs.py:89-140 | an operation whose inline schema keeps its tenant_id |
| OpenApiSlice.SliceDeeplyClean | backend/scripts/transform_openapi_for_docs.py:104-105 | the component schemas of the output are clean at every depth exactly when the public properties of those kept were |
| OpenApiSlice.TransformOpenApi | backend/scripts/transform_openapi_for_docs.py:108-160 | a well-formed document is transformed; any result is the slice over the least closed set, defines every schema name read off its references that the input defined, resolves every reference into a defined schema where none of those is misread, and has its parameters and the recursion edges of its component schemas clean |
| BenchRunner.LoadCompletedQuestionIds | backend/scripts/run_enterpriserag_bench_questions.py:131-149 | fails exactly on a file that ends inside a character, else returns exactly the ids on parsable lines, the unterminated last one included |
| BenchRunner.IdsMeaning | backend/scripts/run_enterpriserag_bench_questions.py:136-147 | an id is on file exactly when a line holds its record or the unterminated tail is one, and twice exactly when two of those do |
| BenchRunner.RemainingMeaning | backend/scripts/run_enterpriserag_bench_questions.py:691-703 | the questions left are exactly those within the cap and not on file, in their order |
| BenchRunner.RemainingIsNew | backend/scripts/run_enterpriserag_bench_questions.py:691-704 | the questions left after the cap and the resume filter are distinct, asked for, and not on file |
| BenchRunner.InvKept | backend/scripts/run_enterpriserag_bench_questions.py:539-640 | any next step of any question, in any order, keeps locks, counters, attempts, file and log consistent |
| BenchRunner.CountersConserved | backend/scripts/run_enterpriserag_bench_questions.py:539-640 | with the progress lock free, completed = successful + failed and at most the total; at most three submissions a question and `parallelism` at once |
| BenchRunner.FinishedRun | backend/scripts/run_enterpriserag_bench_questions.py:642-671 | at the end completed is the total and every question is logged or failed, never both; on file are the old records and the log, less what an unterminated start glues together, so from a newline new questions are on file or failed |
| BenchRunner.RepliesDecide | backend/scripts/run_enterpriserag_bench_questions.py:554-640 | from the replies of a finished run: a question failed exactly when one raised or all three timed out, and is answered exactly when one answered; it was submitted once for each reply, all but the last of them timeouts |
| BenchRunner.StuckCountsTimeouts | backend/scripts/run_enterpriserag_bench_questions.py:570-583 | stuck counts the timeouts, each once its task has had the progress lock |
| BenchRunner.AlwaysCanMove | backend/scripts/run_enterpriserag_bench_questions.py:539-640 | the two locks and the semaphore never deadlock |
| BenchRunner.RunsAreBounded | backend/scripts/run_enterpriserag_bench_questions.py:539-644 | no schedule takes more than twenty steps a question |
| BenchRunner.CutOffRunKeepsDistinct | backend/scripts/run_enterpriserag_bench_questions.py:612-615 | a run cut off anywhere, its last write perhaps lost or torn, leaves no id twice and loses no complete line |
| BenchRunner.NeverTwoRecords | backend/scripts/run_enterpriserag_bench_questions.py:686-732 | over any number of sessions, each finished or killed, no id is on two parsable lines |
| BenchRunner.RecordsAppend | backend/scripts/run_enterpriserag_bench_questions.py:612-615 | complete lines stay, and a file that ends with a newline gains exactly the new records |
| BenchRunner.NoIdWrittenTwice | backend/scripts/run_enterpriserag_bench_questions.py:686-732 | over sessions cut off anywhere that leave a newline at the end, the file is its start plus what each session wrote, with no id twice |
| BenchRunner.UnterminatedRecordIsLost | backend/scripts/run_enterpriserag_bench_questions.py:612-615 | the next write keeps every record on file exactly when the last one had its newline |
| BenchRunner.RecordsRunTogether | backend/scripts/run_enterpriserag_bench_questions.py:612-615 | two sessions, the first killed before a newline, that leave a file with neither record |
| BenchRunner.TornEndsHistory | backend/scripts/run_enterpriserag_bench_questions.py:131-149 | after a session that left a torn character no other session runs |
| BenchRunner.TornReachable | backend/scripts/run_enterpriserag_bench_questions.py:612-615 | a session cut off there |
| GoJson.ObjSwap | cli/cmd/search.go:126 | replacing a member changes the size of the printed object by the difference of the two values |
| GoJson.ArrGrows | cli/cmd/search.go:126 | a printed array never shrinks as items are added |
| GoJson.RunesSize | cli/cmd/search.go:144 | going through runes saves three bytes for each invalid one |
| GoJson.EscapeSize | cli/cmd/search.go:126 | the bytes each character takes: short escapes, other escapes, HTML-significant characters and line separators, UTF-8 |
| GoJson.EscapeIsSafe | cli/cmd/search.go:126 | a printed string holds no control character and none of < > & |
| GoJson.DeeperIsIndented | cli/cmd/search.go:126 | a value one level further in is the same text with each line two spaces further in |
| GoJson.MembersLaidOut | cli/cmd/search.go:126 | an object has a member to a line, a colon and a space between key and value |
| GoJson.ItemsLaidOut | cli/cmd/search.go:126 | an array has an item to a line |
| GoJson.TextReadsBack | cli/cmd/search.go:126 | escaped text reads back as exactly the runes it was made from |
| GoJson.ValueReadsBack | cli/cmd/search.go:126 | any value printed at any depth is read back by a JSON reader, which stops right after it |
| SearchEnvelope.EnvelopeGrows | cli/cmd/search.go:124-131 | showing more results never makes the envelope smaller |
| SearchEnvelope.TrimmedGrows | cli/cmd/search.go:143-149 | showing more runes of the content never makes it smaller |
| SearchEnvelope.LargestFit | cli/cmd/search.go:160-190 | on a rendering that grows, the binary search returns the largest count that fits and its rendering, or the rendering of zero |
| SearchEnvelope.FitResults | cli/cmd/search.go:129-139 | the first search finds the longest prefix of whole results that fits |
| SearchEnvelope.FitContent | cli/cmd/search.go:141-152 | the second finds the longest rune prefix of the first content that fits |
| SearchEnvelope.BuildTruncatedSearchOutput | cli/cmd/search.go:109-158 | the best envelope of the three kinds, over the limit only when the zero-result envelope is |
| SearchEnvelope.FlagWithCompleteContent | cli/cmd/search.go:141-149 | the envelope printed has complete content under content_truncated exactly when the whole result was over by at most one byte plus three for each invalid byte |
| SearchEnvelope.FlagLies | cli/cmd/search.go:141-149 | results and a limit for which it does |
| SearchEnvelope.EnvelopeReadsBack | cli/cmd/search.go:22-47 | looking members up by key in what a JSON reader gets from an envelope gives every field of each result shown and of the truncation object, each its own |
| SearchEnvelope.BestEnvelopeReadsBack | cli/cmd/search.go:112-113 | whatever the limit, the envelope chosen is valid JSON that describes results from the front, or the front of the first one's content, with their number and the metadata |
| SearchEnvelope.WriteSearchJSON | cli/cmd/search.go:70-107 | always valid JSON: without a limit, within it, or without a saved copy all results, every field under its own key; otherwise the best envelope, with the number of all results, their bytes, the path and the hint under theirs |
| ChatStream.ChatStreamAnalyzer.Feed | loadtest/orbyte_client/stream_parser.py:64-123 | one line updates the summary as specified and returns exactly the milestones it adds, each once |
| ChatStream.FeedAll | loadtest/orbyte_client/stream_parser.py:64-127 | over a whole stream no milestone is returned twice, and those returned are those recorded |
| ChatStream.SummaryMeaning | loadtest/orbyte_client/stream_parser.py:64-123 | which lines set the error, the counts and the flags |
| ChatStream.CountsMeaning | loadtest/orbyte_client/stream_parser.py:64-123 | packets, heartbeats, answer characters and documents are the sums over the lines; the plan and agent milestones fire exactly when such a line came |
| ChatStream.LastOnesKept | loadtest/orbyte_client/stream_parser.py:72-97 | the reserved id is that of the last line with one, the error that of the last error line |
| ChatStream.MilestonesMatchCounts | loadtest/orbyte_client/stream_parser.py:100-119 | first_answer_token exactly when answer characters arrived, first_search_doc exactly when documents did |
| ChatStream.ReservedFromStream | loadtest/orbyte_client/stream_parser.py:81-85 | a reserved id was on some line of this stream |
| ChatStream.ErrorsStick | loadtest/orbyte_client/stream_parser.py:72-97 | an error once set is never cleared |
| ChatStream.CompletedMeaning | loadtest/orbyte_client/stream_parser.py:130-138 | completed exactly when no line was an error and start, answer text and stop all arrived |
| ChatStream.UnknownIffCompleted | loadtest/orbyte_client/stream_parser.py:140-154 | "unknown failure" is the reason exactly when the stream completed |
| ChatStream.ReasonMeaning | loadtest/orbyte_client/stream_parser.py:140-154 | the reason is the error if any line was one, else a missing answer, else a missing stop |
| ChatUser.OrbyteChatUser.BuildPayload | loadtest/orbyte_client/chat_user.py:163-191 | the fields and the payload, or the skipped turn, for each outcome of session creation |
| ChatUser.OrbyteChatUser.ChatTurn | loadtest/orbyte_client/chat_user.py:194-271 | one turn moves the fields and the wire history, every id reserved by a stream read in part or whole included, as specified, through skips, bad statuses, exceptions and disconnects |
| ChatUser.ReadMeaning | loadtest/orbyte_client/chat_user.py:232-239 | a stream is dropped exactly when the milestone occurs, after the first line that brings it |
| ChatUser.TurnMeaning | loadtest/orbyte_client/chat_user.py:163-257 | what each turn sends: in the session held, while it has sends left, with the id reserved last in it as parent; else in a new one without a parent; and when the session is given up |
| ChatUser.TurnKeepsInv | loadtest/orbyte_client/chat_user.py:194-271 | every turn keeps the link between fields and wire history |
| ChatUser.ChainingSafe | loadtest/orbyte_client/chat_user.py:163-271 | over every run, the parent each send names is the id reserved last in that session, none before there is one, and no session gets more than max_session_turns sends |
| MockLlm.ReadKnobs | loadtest/mock_llm/app.py:108-132 | every knob has its last setting, or its default; agents is at least one |
| MockLlm.SettingMeaning | loadtest/mock_llm/app.py:120-132 | the last setting of a knob counts, the default when there is none |
| MockLlm.CallsAreOffered | loadtest/mock_llm/app.py:219-292 | every call emitted is to an offered tool |
| MockLlm.ByNameMeaning | loadtest/mock_llm/app.py:222 | of tools offered under one name the last counts |
| MockLlm.RetrievalInOrder | loadtest/mock_llm/app.py:267-286 | the retrieval tools considered are those offered, in the preferred order |
| MockLlm.ForcedMeaning | loadtest/mock_llm/app.py:236-251 | a forced function is called alone, or rejected when missing, blank or not offered |
| MockLlm.RequiredMeaning | loadtest/mock_llm/app.py:259-278 | for required: as many research agents as the knob says, each on its numbered aspect, until one was called; then the report; else one retrieval tool, in order of preference, until one was called; else the report or the first tool |
| MockLlm.AutoMeaning | loadtest/mock_llm/app.py:280-292 | otherwise: the plan; or, until a tool has answered, as many retrieval tools as the knob says, in order of preference, or the first tool; or text |
| MockLlm.ChoiceContracts | loadtest/mock_llm/app.py:219-292 | a forced tool is called alone or rejected, none is silent, required always calls, and auto, explicit or not, proceeds to the plan alone or stays within the knob |
| MockLlm.RequiredLoopReachesReport | loadtest/mock_llm/app.py:259-278 | with a report tool offered, one round of calls later the report is asked for, alone |
| MockLlm.HeaderRebuilds | loadtest/mock_llm/app.py:423-445 | merging the header chunk gives every call's id and name with empty arguments |
| MockLlm.WordsOfSpaced | loadtest/mock_llm/app.py:476-483 | words streamed with a space after each split back into the same words |
| MockLlm.WordsMeaning | loadtest/mock_llm/app.py:476 | the words of a text are its longest stretches without white space, in order |
| MockLlm.GenerateCalls | loadtest/mock_llm/app.py:422-466 | the merged stream of calls is exactly the calls, finished and marked done |
| MockLlm.GenerateText | loadtest/mock_llm/app.py:467-488 | the streamed text is the answer's words, a space after each |
| MockLlm.Generate | loadtest/mock_llm/app.py:380-488 | a client that merges deltas by index ends with the non-streamed calls, finish reason and words |
| EnvInventory.EnvVisitor.Assignment | backend/scripts/env_inventory.py:290-305 | climbing the recorded parents finds the specified assignment |
| EnvInventory.EnvVisitor.MarkChildren | backend/scripts/env_inventory.py:255-260 | each child gets its parent, and its function mark when the node is or sits in a function |
| EnvInventory.EnvVisitor.Visit | backend/scripts/env_inventory.py:255-261 | visiting a subtree appends exactly its reads, in order, with marks complete, and touches no mark outside |
| EnvInventory.CollectReads | backend/scripts/env_inventory.py:398-417 | a whole tree yields one record for each read, in visiting order and nothing else, each describing what is around its own place |
| EnvInventory.RecordMeaning | backend/scripts/env_inventory.py:290-328 | a record says the name, whether no function or lambda is around the read, and the nearest assignment if it is at most eight levels up and has one plain target |
| EnvInventory.WalkMeaning | backend/scripts/env_inventory.py:255-261 | every place in the tree that holds a read is recorded exactly once, parents before children and children from first to last |
| EnvInventory.AssignmentMeaning | backend/scripts/env_inventory.py:290-305 | the nearest enclosing assignment within eight hops, if it has one plain target |
| EnvInventory.NoAssignmentAbove | backend/scripts/env_inventory.py:290-305 | none without an enclosing assignment |
| Backfill.Tables.PopulateNewIds | backend/alembic/versions/0cd424f32b1d_user_file_data_preparation_and_backfill.py:46-83 | whatever rows LIMIT picks, the loop ends with every missing id generated and all else kept, and counts exactly the missing ones |
| Backfill.Tables.PopulatePersonaUuids | backend/alembic/versions/0cd424f32b1d_user_file_data_preparation_and_backfill.py:106-152 | rows already filled stay, rows filled get their file's id and are counted; the final check passes exactly when every missing row's file exists; under the foreign key of `persona__user_file` (backend/alembic/versions/9aadf32dfeb4_add_user_files.py:66-78) it always passes, every row ends filled and the count is what was missing |
| Backfill.Tables.MigratePersonaFolders | backend/alembic/versions/16c37a30adf2_user_file_relationship_migration.py:60-98 | the batches insert exactly the missing pairs of the join, and count them |
| Backfill.MigratedMeaning | backend/alembic/versions/16c37a30adf2_user_file_relationship_migration.py:69-82 | the relation ends as the old rows untouched united with every file in a folder the persona had |
| Backfill.Tables.PopulateProjectFiles | backend/alembic/versions/16c37a30adf2_user_file_relationship_migration.py:138-174 | the relation ends as the old one united with every filed user file, and the count is what was missing |
| Backfill.PairsCounted | backend/alembic/versions/9b66d3156fc6_user_file_schema_additions.py:55 | the unique constraint makes picked files and inserted pairs equal in number |
| WikiZips.SanitizedNames | backend/scripts/get_wikidocs.py:19-47 | a sanitized name has 1 to 200 characters, all from the allowed set |
| WikiZips.SanitizedMeaning | backend/scripts/get_wikidocs.py:32-47 | a name is, in order, the title's allowed characters and one underscore for each run of white space, the first two hundred of them; "untitled" when there are none |
| WikiZips.CandidatesDiffer | backend/scripts/get_wikidocs.py:120-125 | different suffix counters give different names |
| WikiZips.FirstNames | backend/scripts/get_wikidocs.py:118-125 | the first page of a title is called after it, the second gets _1 |
| WikiZips.FreshName | backend/scripts/get_wikidocs.py:119-125 | the first free candidate, after at most as many suffixes as there are names |
| WikiZips.CountZips | backend/scripts/get_wikidocs.py:199 | full zips and one last part number the pages divided by the zip size, rounded up |
| WikiZips.NamedAreDistinct | backend/scripts/get_wikidocs.py:119-125 | naming each entry by the first suffix left free repeats no name |
| WikiZips.StreamToZips | backend/scripts/get_wikidocs.py:83-139 | every available page up to the limit is in exactly one zip, in order, named after its title with the first free suffix; all zips but the last are full; their number is the announced one when the dataset is long enough |

## Left out

- GoJson.ValueReadsBack: numbers are non-negative integers; negative numbers, fractions and exponents do not occur in these documents.
- SearchEnvelope.WriteSearchJSON: sizes exclude the newline `Fprintln` adds after the envelope, as the source's own comparison does; marshalling errors and the notes on stderr are not modelled, and the closures' shared fields become arguments of the renderings; the results are taken as `toSearchOutput` leaves them.
- OpenApiSlice.RemoveInternalProperties: works on values and returns the pruned value, so `del` in place and aliasing are not captured; every schema is copied before the source prunes it.
- OpenApiSlice.TransformOpenApi: the fixed `info`, `servers` and security-scheme blocks are omitted; a `parameters` entry that is not a list and unhashable names are outside the well-formed documents, where Python may raise.
- AlembicEnv.AlembicUpgrade: assumes multi-tenant mode; the single-schema default, `create_schema`, offline migrations and database connections are not modelled, and whether one schema can migrate is a fixed predicate.
- AlembicEnv.GetSchemaOptions: Python's `int()` is a parameter, since it accepts more than digits.
- MigrationRunner.RunnerResult: concerns non-empty, comma-free, trimmed names; other names do not survive the comma-joined argument (`AlembicEnv.SchemaNamesRoundTrip`), and `MigrationRunner.RunnerOutcome` speaks of what they are read as.
- BenchRunner.NeverTwoRecords: question lists without repeated ids; with repeats the script itself asks twice.
- BenchRunner.InvKept: an exception from writing the file counts as the process being cut off there.
- EnvInventory.CollectReads: every node has its own id but childless ones that are no reads, as the context nodes Python's `ast` shares; which calls count as reads, their types and defaults are part of the input.
- MockLlm.Generate: timing, usage counts, the context-window rejection, generated ids and synthesized arguments are inputs or left out.
- Backfill.Tables.PopulateNewIds: generated UUIDs are a parameter; their uniqueness is the database's.
- Regular expressions are predicates on ids, parsed documents stand for file text, expiration dates for their parse; `load_rules` validation is not modelled.
- Lower-casing and digits outside ASCII are not modelled.
- HTTP, server-sent events, subprocesses, Locust, SQL transport and clocks are nondeterministic outcomes; progress output and logging are dropped.
- `request_json_with_retries`, `extract_document_ids`, `find_duplicate_assignments`, the baseline diff and the drift reports: each is one easily read body.
- Column changes, constraints and the unbatched statements of the two migrations, and all their downgrades.
