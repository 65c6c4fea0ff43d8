# Verified models of the server packages

This project models, in Dafny, the parts of the monorepo whose correctness is hard to see from one function, and proves
what they are for. Each class or method is proved equal to a specification function, and the theorems are about that
function, over every input and every run; the methods of the sessions and the feed keep the invariants those theorems
establish, and promise their callers what follows.

**Permissions** (`packages/permissions`). `Tuples` and `TupleStore` are the tuple notation and the in-memory store.
`Rewrites` says what a question means: the least fixpoint of the userset rewrites. `CheckRuns` threads the request state
(memo, cycle guard, counters) through the evaluator and `Check` is the evaluator itself. `CheckCompleteness`,
`CheckSoundness`, `CheckAcyclic` and `CheckBounds` compare the two; `CheckCounterexample` and `NestedGroups` show where the
comparison ends. `ExplainRuns`, `AcyclicAnswers` and `Explain` do the same for the tracing evaluator, `ExplainTrees` says what
its trees mean and `UnseenAnswers` what they do not show. `Models` and `ValidatedModels` are about
the validation of a model and what it buys, `RequestsThrow` and `MixedSubjects` about what it does not: exactly when requests
on a validated model can throw. `SmallModels` helps to write models out.

**Permissions DSL** (`packages/permissions-dsl`). `Lowering` has the checks and the translation from the syntax tree, `Keywords` the
names it refuses,
`LoweringTheorems` relates the two validators, `Codegen` and `CodegenTheorems` show that the generated modules evaluate to
the validated definitions. `BuildSpec` is a compiler without a cache, `BuildReports` what a build reports besides, `Build` the
incremental compiler; `BuildTheorems` shows that nobody can tell them apart, over any history of edits, and `BuildReuse` that
the cache is used all the same.

**Sessions** (`packages/authentication`). `Sessions` is the service as a state machine, `SessionService` the methods,
`SessionTheorems` the invariant of the three indexes and what the reuse of a refresh token leads to (section 4.14.2 of RFC
9700), `ConsumedSentinel` the lifetime of the sentinel.

**Idempotency** (`packages/cache`). `Idempotency` is the claim protocol with one step per cache call and any number of
callers, `IdempotencyTheorems` and `IdempotencyOutcomes` what it promises in every interleaving and what it does not.

**Server feed** (`packages/serverfeed`). `ServerFeed` compares the ring, the snapshot and live delivery with the whole
history.

**References and base32** (`packages/appconfig`, `packages/utilities`). `References` resolves references in place;
`Base32` encodes and decodes with 32-bit accumulators.

Exceptions are results: `None`, or an error constructor. Records are maps of own keys. A `Map` or `Set` whose iteration
order matters is a sequence of entries (`JsMap`); where the order does not matter the method picks an arbitrary member, so
its contract holds for every order. Check the project with `dafny verify dfyconfig.toml`.

Where code and comments disagree, the model follows the code. A comment in `packages/permissions/src/dsl.ts:247-251` says
that the evaluator skips parents that lack the walked relation; it throws (`MixedSubjects.MixedSubjectsThrow`). A comment
in `packages/permissions-dsl/src/lower.ts:281` says that the safety net should never fire; it does for a userset subject
that names a permission (`LoweringTheorems.SafetyNetFires`).

## Model

| member | source | states |
|---|---|---|
| `Tuples.ParseOfStringify` | packages/permissions/src/tuple.ts:66-142 | every valid tuple is read back from its own text |
| `Tuples.StringifyOfParse` | packages/permissions/src/tuple.ts:81-142 | every text that is accepted is the canonical text of the valid tuple it is read as |
| `Tuples.StringifyInjective` | packages/permissions/src/tuple.ts:78-81 | the canonical text identifies a valid tuple, so it may serve as a storage key |
| `Tuples.MemoKeyInjective` | packages/permissions/src/check.ts:16-17 | within a request, where the subject is fixed, two questions share a memo key only if they are the same question |
| `Tuples.ValidIsKeyable` | packages/permissions/src/tuple.ts:18-22 | every object that passes its schema meets what the memo keys rely on |
| `Tuples.Notation` | packages/permissions/src/tuple.ts:52-79 | the canonical text written out, for each of the three forms of subject |
| `Tuples.MemoKeyIsTuple` | packages/permissions/src/check.ts:16-17 | a memo key is the text of the tuple that would answer the question outright |
| `Text.NameShape` | packages/permissions/src/tuple.ts:3-5 | names are a small letter followed by small letters, digits and underscores, the characters listed |
| `Text.IdShape` | packages/permissions/src/tuple.ts:7-10 | identifiers are all texts that are not empty and hold none of the four separators |
| `TupleStore.PutAddsTuple` | packages/permissions/src/in.memory.repository.ts:30-32 | a write under the canonical text adds that tuple to the stored set and keeps every entry under its own text |
| `TupleStore.DropRemovesTuple` | packages/permissions/src/in.memory.repository.ts:34-36 | a delete under the canonical text removes exactly that tuple |
| `TupleStore.InMemoryTupleRepository.constructor` | packages/permissions/src/in.memory.repository.ts:15-18 | any seed: under each text its last tuple; of schema-valid tuples exactly the set given |
| `TupleStore.InMemoryTupleRepository.All` | packages/permissions/src/in.memory.repository.ts:20-23 | lists every stored tuple, each once |
| `TupleStore.InMemoryTupleRepository.Clear` | packages/permissions/src/in.memory.repository.ts:25-28 | nothing is stored afterwards |
| `TupleStore.InMemoryTupleRepository.Write` | packages/permissions/src/in.memory.repository.ts:30-32 | any tuples: under each text the last one written, under other texts what was there; of schema-valid tuples the set grows by exactly those written |
| `TupleStore.InMemoryTupleRepository.Delete` | packages/permissions/src/in.memory.repository.ts:34-36 | any tuples: exactly the entries with their texts go; of schema-valid tuples the set loses exactly those named |
| `TupleStore.InMemoryTupleRepository.ListTuples` | packages/permissions/src/in.memory.repository.ts:38-44 | computes the first query of the evaluators over the stored tuples |
| `TupleStore.InMemoryTupleRepository.ListParents` | packages/permissions/src/in.memory.repository.ts:46-54 | computes the second query, concrete subjects only |
| `Rewrites.ListByObjectRelation` | packages/permissions/src/in.memory.repository.ts:38-44 | the stored tuples of that object and relation, all of them and no others |
| `Rewrites.ListObjectsRelatedBy` | packages/permissions/src/in.memory.repository.ts:46-54 | exactly the objects that stand as concrete subjects in that relation |
| `Rewrites.TuplesKeepOrder` | packages/permissions/src/in.memory.repository.ts:38-44 | the first query keeps the order of the store and every repetition |
| `Rewrites.ParentsKeepOrder` | packages/permissions/src/in.memory.repository.ts:46-54 | so does the second |
| `Rewrites.SatMonotone` | packages/permissions/src/dsl.ts:10-16 | without exclusion, more facts never make an expression false |
| `Rewrites.StagesGrow` | packages/permissions/src/dsl.ts:10-16 | without exclusion, the finite stages of the rules only grow |
| `Rewrites.LfpIsFixpoint` | packages/permissions/src/dsl.ts:10-16 | the union of all finite stages is a fixpoint of the rules: a finite expression looks at finitely many facts |
| `Rewrites.LfpIsLeast` | packages/permissions/src/dsl.ts:10-16 | and it lies below every set the rules do not lead out of |
| `Acyclic.StagesSettle` | packages/permissions/src/dsl.ts:10-16 | below the height of a question all later stages answer it alike, exclusions included |
| `Acyclic.DenotationUnfolds` | packages/permissions/src/dsl.ts:10-16 | on acyclic data the stages give the plain recursive denotation: a question holds exactly when its rewrite does over the denotations of what it asks |
| `CheckRuns.CheckNode` | packages/permissions/src/check.ts:66-91 | every call restores the cycle guard, drops no memo entry and forgets no depth cut |
| `Check.CheckContext.CheckInner` | packages/permissions/src/check.ts:66-91 | the stateful evaluator computes the modelled run, and on every call within the cap the guard holds exactly `depth` distinct keys |
| `Check.CheckContext.EvaluateExpr` | packages/permissions/src/check.ts:93-134 | the same for the switch over the six expression forms |
| `Check.CheckContext.SomeParentAllows` | packages/permissions/src/check.ts:108-115 | the loop over parents, left at the first grant, is the modelled run over all of them |
| `Check.CheckContext.SomeChildAllows` | packages/permissions/src/check.ts:117-121 | the loop of a union, left at the first grant |
| `Check.CheckContext.EveryChildAllows` | packages/permissions/src/check.ts:123-127 | the loop of an intersection, left at the first refusal |
| `Check.CheckContext.HasDirectTuple` | packages/permissions/src/check.ts:136-159 | the loop over stored tuples: exact match, wildcard, userset, in stored order |
| `Check.CheckRequest` | packages/permissions/src/check.ts:40-64 | the verdict and the counters handed to the sink are those of the modelled request |
| `CheckCompleteness.CheckIsLeastFixpoint` | packages/permissions/src/check.ts:66-159 | for models of direct, computed, tupleToUserset and union, over any store, cyclic ones included: a request that answers without a depth cut answers true exactly when the question is in the least fixpoint |
| `CheckCompleteness.DeniedSetMissesLfp` | packages/permissions/src/check.ts:73-90 | a set of questions each denied by the set itself has no derivable member: why provisional refusals of a cycle are final for unions |
| `CheckSoundness.CheckTrueIsDerivable` | packages/permissions/src/check.ts:66-159 | without exclusion, with cycles and depth cuts, a true answer is in the least fixpoint |
| `CheckSoundness.CheckTrueNeedsStoredGrant` | packages/permissions/src/check.ts:93-159 | if no intersection is empty, a true answer needs a stored tuple for that concrete subject or the wildcard of its namespace |
| `CheckSoundness.StoredGrantIsFound` | packages/permissions/src/check.ts:136-159 | the other way round: a tuple stored for the subject or the wildcard of its namespace makes a relation true, wherever it stands |
| `CheckSoundness.ValidStoreIsKeyable` | packages/permissions/src/tuple.ts:55-60 | a store of schema-valid tuples meets the assumption of the theorems |
| `CheckAcyclic.CheckIsDenotation` | packages/permissions/src/check.ts:66-134 | for all six forms: if every dependency chain has at most 32 edges, no cut is reported and the answer is the plain recursive denotation |
| `CheckBounds.CheckEvaluatesOnce` | packages/permissions/src/check.ts:66-91 | on every model and store: no key is evaluated twice, the guard ends empty, maxDepth is at most 33 and a cut is reported exactly when it is 33 |
| `NestedGroups.CutBeyond32` | packages/permissions/src/check.ts:6 | on a validated model and conforming store with k nested groups the membership is always derivable, and either evaluator finds it if and only if k is at most 32; the counters have the stated values |
| `CheckBounds.WalkIsCounted` | packages/permissions/src/check.ts:108-115 | a walk counts one parent lookup, also when it finds nobody |
| `CheckBounds.CheckAnswersIfAllResolve` | packages/permissions/src/dsl.ts:167-183 | a request throws only if some question it can reach is undeclared |
| `CheckCounterexample.CyclicIntersectionIsUnderapproximated` | packages/permissions/src/check.ts:79-89 | a concrete exclusion-free model that validation accepts, with a conforming store, on which a memoised provisional refusal makes check refuse a derivable question, so the fixpoint theorem stops at unions |
| `Explain.ExplainContext.TraceCheck` | packages/permissions/src/explain.ts:141-159 | the stateful tracer computes the modelled trace and leaves the modelled memo and guard |
| `Explain.ExplainContext.TraceRewrite` | packages/permissions/src/explain.ts:161-212 | the same for the switch over the expression forms |
| `Explain.ExplainContext.TraceEachChild` | packages/permissions/src/explain.ts:194-204 | children are traced one by one, none skipped |
| `Explain.ExplainContext.TraceEachParent` | packages/permissions/src/explain.ts:178-192 | parents are traced one by one, none skipped |
| `Explain.ExplainContext.TraceStored` | packages/permissions/src/explain.ts:214-253 | the trace of the stored tuples |
| `Explain.ExplainContext.FirstMatch` | packages/permissions/src/explain.ts:220-241 | the loop over stored tuples, left at the first that grants |
| `Explain.ExplainRequest` | packages/permissions/src/explain.ts:129-139 | the public entry point returns the modelled trace |
| `ExplainRuns.ExplainVerdict` | packages/permissions/src/explain.ts:141-253 | the verdict, memo and guard of the tracer are those of an evaluator that looks at every branch |
| `ExplainTrees.ExplainAccounts` | packages/permissions/src/explain.ts:161-253 | the returned tree skips no branch and each verdict follows from what is below it; a question is cut exactly past 32 in progress, a cycle exactly if it is in progress, recalled with its verdict exactly if it was answered before, and traced otherwise |
| `ExplainTrees.EverythingIsShown` | packages/permissions/src/explain.ts:214-253 | on a store without userset subjects the tree shows every question the request answered, so whatever is recalled was traced earlier in it |
| `UnseenAnswers.RecalledUnseen` | packages/permissions/src/explain.ts:220-241 | with them it need not be: a validated model, a conforming store and a request whose tree recalls a question that was answered behind a refused userset only; with the counters of that request |
| `Explain.ExplainAgreesOnAcyclicData` | packages/permissions/src/explain.ts:141-253 | on acyclic data within the cap, for all forms: whenever explain answers, check answers, and the verdicts are the same |
| `AcyclicAnswers.FullAnswersImpliesCheckAnswers` | packages/permissions/src/explain.ts:118-128 | there a request that looks at every branch asks all that a short-circuiting one asks, so if it does not throw, neither does the other |
| `Explain.ExplainAgreesOnUnions` | packages/permissions/src/explain.ts:141-253 | and on cyclic data for union-only models when neither is cut, although their memos fill differently |
| `Models.ByNameHolds` | packages/permissions/src/dsl.ts:143-151 | the private map holds exactly the definitions, under their own names |
| `Models.ByNameIgnoresOrder` | packages/permissions/src/dsl.ts:143-151 | with distinct names the map does not depend on the order of the definitions |
| `Models.NewAuthorizationModel` | packages/permissions/src/dsl.ts:143-151 | the constructor succeeds exactly when names are unique and every definition is in order, and then holds all of them |
| `Models.ValidateRelations` | packages/permissions/src/dsl.ts:195-204 | the loop accepts exactly well-named relations whose subject types resolve, in any order of the record |
| `Models.ValidateSubjects` | packages/permissions/src/dsl.ts:206-218 | a relation's subject types are accepted exactly when namespace and relation exist |
| `Models.ValidatePermissions` | packages/permissions/src/dsl.ts:220-230 | the loop accepts exactly well-named permissions that are no relations and whose expressions are in order |
| `Models.ValidateExpr` | packages/permissions/src/dsl.ts:232-285 | the recursive check with its early exits decides the declarative condition |
| `Models.ValidateWalk` | packages/permissions/src/dsl.ts:243-272 | collecting candidate namespaces and searching them decides whether some subject type leads to the computed relation |
| `ValidatedModels.ValidatedGrantNeedsTuple` | packages/permissions/src/dsl.ts:273-284 | on every validated model, exclusion included, a grant needs a stored tuple for the concrete subject or its wildcard; wildcard and userset subjects are never granted anything |
| `ValidatedModels.CheckNeverThrows` | packages/permissions/src/dsl.ts:175-183 | where every walk finds its relation on all namespaces it can lead to, no request about something declared throws, in either evaluator |
| `RequestsThrow.ExplainAnswersIffWalksLand` | packages/permissions/src/dsl.ts:243-272 | on a validated model explain answers every request about something declared, over every conforming store, if and only if every walk finds its relation on all namespaces it can lead to |
| `RequestsThrow.CheckAnswersIffWalksLand` | packages/permissions/src/dsl.ts:243-272 | the same for check on union-only models, for every subject |
| `MixedSubjects.MixedSubjectsThrow` | packages/permissions/src/dsl.ts:247-251 | a validated model and a conforming store on which check throws: an owner whose namespace lacks the walked relation is not skipped, unlike the comment says |
| `MixedSubjects.HiddenWalkNeverThrows` | packages/permissions/src/check.ts:123-134 | why the statement about check stops at unions: a validated model with a walk that does not land, which a short-circuit hides from every request over every conforming store |
| `Lowering.FillNamespace` | packages/permissions-dsl/src/lower.ts:57-68 | the two records after all assignments are the specified ones, a later member of the same name overwriting |
| `Lowering.ValidateLocal` | packages/permissions-dsl/src/lower.ts:141-179 | accepts exactly files whose namespaces and members are well named, unreserved and unique |
| `Keywords.ReservedExactly` | packages/permissions-dsl/src/lower.ts:78-135 | the names refused as reserved are exactly the keywords of the standard (section 12.7.2 of ECMA-262) and those the generated code uses |
| `Lowering.CheckRelationSubjects` | packages/permissions-dsl/src/lower.ts:238-251 | accepts exactly subjects whose namespace and relation are declared |
| `Lowering.CheckTtu` | packages/permissions-dsl/src/lower.ts:196-214 | accepts exactly walks over the first relation of that name that reach the computed relation |
| `Lowering.CheckExprRefs` | packages/permissions-dsl/src/lower.ts:217-235 | the recursive check decides the declarative condition |
| `Lowering.ValidateRefs` | packages/permissions-dsl/src/lower.ts:253-261 | accepts exactly files all of whose references resolve |
| `Lowering.Lower` | packages/permissions-dsl/src/lower.ts:275-293 | fails exactly when one of the three checks does, and otherwise returns the model of the lowered namespaces |
| `LoweringTheorems.SubjectTypeRoundTrip` | packages/permissions-dsl/src/lower.ts:32-36 | the decoder of subject types undoes the encoder, for every subject type the grammar admits |
| `LoweringTheorems.SubjectTypeNotation` | packages/permissions-dsl/src/lower.ts:32-36 | the three texts of subject types written out, and how they are read |
| `LoweringTheorems.ModelAcceptsExactly` | packages/permissions-dsl/src/lower.ts:253-291 | for a file that passes the local checks, the model constructor accepts if and only if the reference checks do and every userset subject names a relation |
| `LoweringTheorems.SafetyNetCatches` | packages/permissions-dsl/src/lower.ts:281-291 | no file with a userset subject that names a permission is accepted |
| `LoweringTheorems.SafetyNetFires` | packages/permissions-dsl/src/lower.ts:281-291 | a concrete file that passes the local and the reference checks and is rejected by the model: a userset subject names a permission, so the safety net does fire |
| `LoweringTheorems.LowerIgnoresOrder` | packages/permissions-dsl/src/lower.ts:275-293 | rearranging namespaces does not change whether a file is accepted |
| `LoweringTheorems.SameVerdict` | packages/permissions-dsl/src/lower.ts:275-293 | the same for files that may repeat a name |
| `Codegen.ExprReadsBack` | packages/permissions-dsl/src/codegen.ts:44-57 | the text of an expression evaluates to the lowered expression, whatever follows it |
| `Codegen.SubjectsReadBack` | packages/permissions-dsl/src/codegen.ts:38-62 | the text of a subject list evaluates to the lowered subject types |
| `Codegen.BlockReadsBack` | packages/permissions-dsl/src/codegen.ts:59-103 | the text of a record evaluates to the assignments of its members, the empty record included |
| `Codegen.DefinitionReadsBack` | packages/permissions-dsl/src/codegen.ts:92-113 | the exported definition of a namespace evaluates to its lowering, under its own name |
| `Codegen.Visit` | packages/permissions-dsl/src/codegen.ts:9-31 | the visitor adds exactly the builders the expression calls |
| `Codegen.UsedBuilders` | packages/permissions-dsl/src/codegen.ts:7-36 | a module imports exactly the builders its definition calls |
| `CodegenTheorems.GeneratedMeansValidated` | packages/permissions-dsl/src/codegen.ts:92-113 | for every file that validation accepts, each generated definition evaluates to the namespace the accepted model was built from |
| `CodegenTheorems.ExportedNameIsFree` | packages/permissions-dsl/src/lower.ts:126-134 | the constant a generated module exports is none of the builders it calls, nor the model of the index |
| `Build.ParseInputFiles` | packages/permissions-dsl/src/compiler.ts:109-124 | all files that parse, in order, and one error for each that does not |
| `Build.CollectDuplicateNamespaces` | packages/permissions-dsl/src/compiler.ts:127-147 | the scan with its map of first occurrences reports exactly the declarations of a name that another file declares first, and nothing if and only if no name is declared in two files |
| `BuildReports.DuplicatesBlameLater` | packages/permissions-dsl/src/compiler.ts:127-147 | exactly the repetitions are reported: the later file is blamed and the first one to declare the name is given |
| `Build.ValidatePlans` | packages/permissions-dsl/src/compiler.ts:173-183 | one error for each file that is not cached and does not lower next to its siblings, and no other |
| `Build.FrontEnd` | packages/permissions-dsl/src/compiler.ts:323-336 | the three lists of errors one after the other, empty if and only if the incremental validation passes |
| `BuildTheorems.MergedIsRearrangement` | packages/permissions-dsl/src/validate.ts:43-51 | what one file sees is a permutation of all namespaces |
| `BuildTheorems.EveryFileJudgesAll` | packages/permissions-dsl/src/validate.ts:43-59 | so the verdict on any one file is the verdict on the whole set |
| `BuildTheorems.CachedFileIsOld` | packages/permissions-dsl/src/compiler.ts:161-167 | a file that is served from the cache is, text and all, a file of the run that left the manifest |
| `BuildReuse.CachedIffUnchanged` | packages/permissions-dsl/src/compiler.ts:161-167 | a file is served from the cache if and only if it was there with the same text and saw the same names in the same order |
| `BuildReuse.ServedIsUnchanged` | packages/permissions-dsl/src/compiler.ts:214-226 | the namespaces served are all those of the unchanged files, in order |
| `BuildReuse.RebuildIsIdle` | packages/permissions-dsl/src/compiler.ts:314-366 | a build of the inputs that are recorded writes nothing, removes nothing and leaves the manifest as it is |
| `BuildTheorems.NamespacesInOrder` | packages/permissions-dsl/src/compiler.ts:155-158 | the namespaces are those of the files in their order |
| `BuildTheorems.AllCachedIsValid` | packages/permissions-dsl/src/compiler.ts:155-170 | if every file is cached, the set of namespaces is the one validated then |
| `BuildTheorems.SkippingIsSafe` | packages/permissions-dsl/src/compiler.ts:173-183 | against the manifest of an earlier successful run, the incremental validation passes exactly when validating every file would |
| `Build.Compiler.GenerateNamespaceOutputs` | packages/permissions-dsl/src/compiler.ts:191-238 | serving unchanged outputs from the manifest leaves the disk and the report of rendering and writing them all, and the namespaces served are listed |
| `Build.Compiler.WriteAggregateIndex` | packages/permissions-dsl/src/compiler.ts:246-261 | skipping the write when the manifest has the same hash leaves the disk of writing it |
| `Build.Compiler.RemoveOrphans` | packages/permissions-dsl/src/compiler.ts:264-285 | deletes what the previous manifest records for its files and this run does not produce, and the previous index if it has moved |
| `Build.Compiler.BackEnd` | packages/permissions-dsl/src/compiler.ts:338-365 | stages 4 to 7 leave the workspace of a clean build with its report and the list of namespaces served, and change nothing on a dry run |
| `Build.Compiler.Compile` | packages/permissions-dsl/src/compiler.ts:314-366 | on a consistent workspace the incremental compiler is indistinguishable from the simple one that validates, renders and writes everything, failures and dry runs included; it serves exactly the unchanged files from the cache, and when nothing has changed everything, with no output, no orphan and the workspace as it was |
| `BuildTheorems.HistoryConsistent` | packages/permissions-dsl/src/compiler.ts:314-366 | over any sequence of edits, configurations and compiles the workspace stays consistent |
| `BuildTheorems.RecordedIsProduced` | packages/permissions-dsl/src/compiler.ts:355-363 | a manifest records exactly the paths its run produced |
| `BuildTheorems.NothingStale` | packages/permissions-dsl/src/compiler.ts:264-285 | under one configuration, whatever any run generated and is still there is recorded now |
| `BuildTheorems.DiskIsCleanBuild` | packages/permissions-dsl/src/compiler.ts:314-366 | after any history that ends in a successful compile the disk holds every file of a clean build of the last inputs, and of all files ever generated only those |
| `SessionService.AuthenticationSessionService.CreateSession` | packages/authentication/src/authentication.session.service.ts:237-266 | the session is live under a new family and listed last for its subject; every other session, index entry and family is as before, and the indexes still agree |
| `SessionService.AuthenticationSessionService.UpdateSession` | packages/authentication/src/authentication.session.service.ts:291-342 | refused if and only if the token is unknown or of another subject; else only the data changes and no index does |
| `SessionService.AuthenticationSessionService.CreateOrUpdateSession` | packages/authentication/src/authentication.session.service.ts:356-372 | a known session of the subject is updated in place, a known one of another subject refused, and otherwise a new one created |
| `SessionService.AuthenticationSessionService.DeleteSession` | packages/authentication/src/authentication.session.service.ts:422-433 | afterwards the token is in none of the three indexes, and every other entry of each is as before |
| `SessionService.AuthenticationSessionService.IssueTokenForSession` | packages/authentication/src/authentication.session.service.ts:505-512 | a token is issued if and only if the session is live, and it can then be redeemed: registered, unconsumed, of the one live session of its family |
| `SessionService.AuthenticationSessionService.RotateSession` | packages/authentication/src/authentication.session.service.ts:531-577 | succeeds if and only if the session is live; the new one then has its subject, family and place in the index, the old one is in none, and the token issued can be redeemed |
| `SessionService.AuthenticationSessionService.RevokeWholeFamily` | packages/authentication/src/authentication.session.service.ts:654-666 | the loop over the family's sessions, then the blob |
| `SessionService.AuthenticationSessionService.RefreshSession` | packages/authentication/src/authentication.session.service.ts:589-625 | issues if and only if the token is unconsumed and its session live; it is consumed in any case; a consumed one ends its family and touches no other |
| `SessionService.AuthenticationSessionService.RemoveSubjectEntry` | packages/authentication/src/authentication.session.service.ts:481-488 | removes the first occurrence from the subject index |
| `SessionService.AuthenticationSessionService.LeaveFamily` | packages/authentication/src/authentication.session.service.ts:198-208 | removes the session from the blob, and the blob with its last session |
| `SessionTheorems.CreateKeeps` | packages/authentication/src/authentication.session.service.ts:237-266 | creation keeps the three indexes consistent |
| `SessionTheorems.AddSubject` | packages/authentication/src/authentication.session.service.ts:473-479 | a new session and its index entry keep the subject index exact: the live sessions of each subject, each once |
| `SessionTheorems.DeleteMeans` | packages/authentication/src/authentication.session.service.ts:422-433 | a deleted session is in no index, and the rest of every index stays |
| `SessionTheorems.RotateKeeps` | packages/authentication/src/authentication.session.service.ts:531-577 | rotation succeeds on a live session and keeps the three indexes consistent |
| `SessionTheorems.IssueMeans` | packages/authentication/src/authentication.session.service.ts:627-652 | the token issued for a live session can be redeemed, and no other index changes |
| `SessionTheorems.RevokeKills` | packages/authentication/src/authentication.session.service.ts:654-666 | revocation reaches every live session of a family that was ever issued a token, and no session of another family |
| `SessionTheorems.StepKeeps` | packages/authentication/src/authentication.session.service.ts:85-667 | every whole operation keeps the invariant |
| `SessionTheorems.RunsKeepInv` | packages/authentication/src/authentication.session.service.ts:85-667 | in every run of whole operations the session map, the subject index and the family blobs agree, with at most one live session per family |
| `SessionTheorems.RefreshOutcome` | packages/authentication/src/authentication.session.service.ts:589-625 | a presentation succeeds exactly when the token is not consumed and its session is live; a second presentation ends its family |
| `SessionTheorems.DeadStaysDead` | packages/authentication/src/authentication.session.service.ts:531-666 | no operation brings a dead family back |
| `SessionTheorems.ReuseEndsFamily` | packages/authentication/src/authentication.session.service.ts:605-612 | once a consumed token is presented, whatever follows, its family never has a live session again and every later presentation in it is refused |
| `ConsumedSentinel.SentinelOutlives` | packages/authentication/src/authentication.session.service.ts:599-605 | the sentinel outlives every moment at which the token still decodes |
| `ConsumedSentinel.AtMostOnce` | packages/authentication/src/authentication.session.service.ts:597-612 | a token passes the claim at most once over any number of presentations |
| `ConsumedSentinel.AtMostOnceExactly` | packages/authentication/src/authentication.session.service.ts:604 | every run passes at most once if and only if the token has an expiry |
| `Idempotency.NamesIdentifyEntries` | packages/cache/src/idempotency.store.ts:138-144 | the two entries of all keys have different names if and only if no key is another one followed by `:attempts` |
| `Idempotency.EntryNames` | packages/cache/src/idempotency.store.ts:138-144 | the names of the two entries |
| `Idempotency.CacheIdempotencyStore.Deduplicate` | packages/cache/src/idempotency.store.ts:96-128 | one undisturbed call: a duplicate exactly if the key has a state; otherwise dropped exactly if the failures counted with this one reach the maximum, rethrown with the key free below it, processed with the counter cleared on success; other keys untouched |
| `Idempotency.CacheIdempotencyStore.RecordFailure` | packages/cache/src/idempotency.store.ts:130-136 | the counter shows one failure more than before, none counting for a text that is no number, and no other entry changes |
| `Idempotency.SoloRun` | packages/cache/src/idempotency.store.ts:96-136 | such a call is one of the protocol's runs |
| `IdempotencyTheorems.OneHolder` | packages/cache/src/idempotency.store.ts:101-106 | in every interleaving of any number of callers, at most one caller of a key is between claim and settle |
| `IdempotencyTheorems.EarlyExpiryAdmitsSecond` | packages/cache/src/idempotency.store.ts:103-106 | why the claim may not expire before it is settled: the next delivery would hold the key as well |
| `IdempotencyTheorems.CounterLosesNothing` | packages/cache/src/idempotency.store.ts:130-136 | whenever nobody is writing or clearing it, the counter shows every failing run since the last success or its last expiry |
| `IdempotencyTheorems.FailuresBounded` | packages/cache/src/idempotency.store.ts:117-127 | work fails at most max(1, the largest maxAttempts of its calls) times for a key, until its counter is cleared or expires or its dead marker expires |
| `IdempotencyOutcomes.ToldByCount` | packages/cache/src/idempotency.store.ts:117-127 | in every interleaving: a call that is dropped has counted its own maximum or more and reports what it counted, and one that rethrows has counted less |
| `IdempotencyOutcomes.DeadWasDropped` | packages/cache/src/idempotency.store.ts:119-123 | a key is dead only if a call for it was dropped at its maximum |
| `IdempotencyOutcomes.SettlesByTally` | packages/cache/src/idempotency.store.ts:117-127 | in careful runs a call makes its key dead if and only if the failing runs since the last success or expiry have reached its maximum, and frees it otherwise |
| `IdempotencyTheorems.LateClearErasesFailure` | packages/cache/src/idempotency.store.ts:112-113 | a concrete legal run on which the marker of a success expires before the counter is cleared: the next delivery fails and its failure is erased |
| `IdempotencyTheorems.SettledStays` | packages/cache/src/idempotency.store.ts:103-116 | once completed or dead, the marker stays and work never runs for the key again, until the marker expires |
| `ServerFeed.ServerFeed.constructor` | packages/serverfeed/src/server.feed.ts:52-56 | both capacities are at least one |
| `ServerFeed.ServerFeed.Publish` | packages/serverfeed/src/server.feed.ts:59-69 | the history grows by an event with the next id, each subscription it matches is called with it once and no other is, and ring and snapshot stay the newest part of the history |
| `ServerFeed.ServerFeed.Buffer` | packages/serverfeed/src/server.feed.ts:136-139 | the ring moves on from the last bufferSize events of the history to the last ones with the new event |
| `ServerFeed.ServerFeed.UpdateSnapshot` | packages/serverfeed/src/server.feed.ts:141-154 | the snapshot moves on to the newest snapshotCap of the latest events per key, by one delete, one set and at most one eviction |
| `ServerFeed.ServerFeed.FanOut` | packages/serverfeed/src/server.feed.ts:156-165 | the loop calls each matching listener once and the others not at all |
| `ServerFeed.ServerFeed.OnEvent` | packages/serverfeed/src/server.feed.ts:104-110 | a subscription of its own, which from here on is called with exactly what matches; the others are not touched |
| `ServerFeed.ServerFeed.Cancel` | packages/serverfeed/src/server.feed.ts:107-109 | that subscription is gone and no other; what has been delivered stays |
| `ServerFeed.ServerFeed.ReplaySince` | packages/serverfeed/src/server.feed.ts:120-125 | a gap if and only if a resuming client misses an evicted event; without one, all it misses of the whole history |
| `ServerFeed.ServerFeed.Snapshot` | packages/serverfeed/src/server.feed.ts:128-132 | exactly the matching ones of the newest snapshotCap among all keys' latest events of the history, oldest first |
| `ServerFeed.FeedRefinesHistory` | packages/serverfeed/src/server.feed.ts:127-154 | after any operations the ring is the last bufferSize events of the whole history and the snapshot the last snapshotCap of the latest events per key, oldest first |
| `ServerFeed.TruncatingEarly` | packages/serverfeed/src/server.feed.ts:141-154 | truncating the snapshot before the next event makes no difference |
| `ServerFeed.LatestExtends` | packages/serverfeed/src/server.feed.ts:141-150 | one more event moves its key to the end of the latest events, whatever was there |
| `ServerFeed.GapMeansEvicted` | packages/serverfeed/src/server.feed.ts:120-125 | a gap is reported if and only if the client resumes and some event after its last one was evicted |
| `ServerFeed.ReplayComplete` | packages/serverfeed/src/server.feed.ts:120-125 | without a gap a resuming client gets every matching event of the history after its last one |
| `ServerFeed.SinceExact` | packages/serverfeed/src/server.feed.event.ts:67-79 | what replay picks: exactly the later matching events, each once, in id order |
| `ServerFeed.MatchesEach` | packages/serverfeed/src/server.feed.event.ts:67-79 | a filter is the conjunction of its criteria, and what each of them asks |
| `ServerFeed.LevelsThatPass` | packages/serverfeed/src/server.feed.event.ts:59-79 | the levels that pass each minimum level |
| `ServerFeed.HigherPassesFewer` | packages/serverfeed/src/server.feed.event.ts:59-79 | a higher minimum passes no more events |
| `ServerFeed.LatestExact` | packages/serverfeed/src/server.feed.ts:141-150 | what the snapshot is drawn from: exactly the events that no later one of their key follows, in id order |
| `ServerFeed.LatestOfKind` | packages/serverfeed/src/server.feed.ts:141-150 | which events are shown: progress, status and errors with a correlation id that no later one of that source and id replaces |
| `ServerFeed.MatchingExact` | packages/serverfeed/src/server.feed.ts:128-132 | what a snapshot picks of its entries: exactly those that match, in id order |
| `ServerFeed.FannedOutAt` | packages/serverfeed/src/server.feed.ts:156-165 | one event reaches each matching subscription once and the others not at all |
| `ServerFeed.DeliversSinceSubscribed` | packages/serverfeed/src/server.feed.ts:104-110 | a subscription that is not cancelled has received exactly the matching events since it was made, in order |
| `ServerFeed.ResumeExactlyOnce` | packages/serverfeed/src/server.feed.ts:112-125 | replay followed at once by subscribing gives each matching event exactly once and in order, however the feed goes on |
| `ServerFeed.KeyIdentifies` | packages/serverfeed/src/server.feed.ts:146 | two events share a snapshot entry only for the same source and correlation id, if no source has a colon |
| `References.CollectedAtExact` | packages/appconfig/src/references.ts:111-129 | the walk lists exactly the leaves that looking up a path finds to mention references |
| `References.WriteChangesOneLeaf` | packages/appconfig/src/references.ts:61-89 | writing through a located path changes that leaf and nothing else |
| `References.AllMeaningfulIsResolvable` | packages/appconfig/src/references.ts:76-89 | if every such leaf has a meaning, all targets exist and there is no cycle |
| `References.MeansOnce` | packages/appconfig/src/references.ts:42-134 | recursive substitution gives a leaf at most one value |
| `References.MeaningExcludesCycle` | packages/appconfig/src/references.ts:77-79 | nothing on a cycle has a meaning |
| `References.SeenIsCycle` | packages/appconfig/src/references.ts:77-79 | the path found in `seen` closes a cycle of references |
| `References.ReferenceResolver.Collect` | packages/appconfig/src/references.ts:111-128 | the recursive walk pushes the listed paths in order |
| `References.ReferenceResolver.ResolvePath` | packages/appconfig/src/references.ts:76-91 | returns and writes back what the leaf means, keeps every resolved leaf, and fails only if the tree cannot be resolved; it terminates |
| `References.ReferenceResolver.ResolveString` | packages/appconfig/src/references.ts:94-103 | a whole-value reference takes its target's value |
| `References.ReferenceResolver.Interpolate` | packages/appconfig/src/references.ts:105-115 | replacing token by token gives the spliced text, a repeated token included |
| `References.ResolveReferences` | packages/appconfig/src/references.ts:42-134 | succeeds if and only if every target exists as a primitive and no references form a cycle; then a leaf that was one reference alone holds what is at that path, with its type, any other template the text its parts make of the result, and all other leaves are as they were, in any order of the keys |
| `Base32.RoundTrip` | packages/utilities/src/base32.ts:12-75 | decoding an encoded byte array gives it back, with and without padding, for every upper-casing that leaves the alphabet alone |
| `Base32.SpacesAreIgnored` | packages/utilities/src/base32.ts:13-14 | a space anywhere in a text makes no difference to what it decodes to |
| `Base32.CaseIsIgnored` | packages/utilities/src/base32.ts:16-19 | nor does the case of ASCII letters |
| `Base32.Encode` | packages/utilities/src/base32.ts:49-75 | padded output comes in whole blocks of eight |
| `Base32.UnpaddedLength` | packages/utilities/src/base32.ts:49-66 | without padding the output is as short as the bits allow |
| `Base32.Digits` | packages/utilities/src/base32.ts:49-66 | the digits are the bits of the input, filled up with zeros, five at a time (section 6 of RFC 4648) |
| `Base32.Unpacked` | packages/utilities/src/base32.ts:22-42 | m digits decode to floor(5m/8) bytes |
| `Base32.ReencodesExactly` | packages/utilities/src/base32.ts:12-75 | encoding what digits decode to gives them back if and only if fewer than five bits are left over and all are zero |
| `Base32.ShiftInBits` | packages/utilities/src/base32.ts:32-35 | the 32-bit wrap-around of the accumulator never touches a pending bit |
| `Base32.Base32Encode` | packages/utilities/src/base32.ts:49-75 | the loops compute the specified encoding |
| `Base32.EncodeBits` | packages/utilities/src/base32.ts:50-66 | the accumulator loop computes the specified digits |
| `Base32.Base32Decode` | packages/utilities/src/base32.ts:12-42 | the loops compute the specified decoding, the first invalid character included |
| `Base32.DecodeDigits` | packages/utilities/src/base32.ts:22-42 | the accumulator loop fills the buffer with the specified bytes |
| `Base32.FirstInvalidIs` | packages/utilities/src/base32.ts:29-30 | the reported character is the first that is not in the alphabet |

## Left out

- CheckIsLeastFixpoint: stops at union-only models, because for intersections over cyclic data the code does not compute the fixpoint (`CheckCounterexample.CyclicIntersectionIsUnderapproximated`); for exclusion-free models one half remains (`CheckTrueIsDerivable`), and on acyclic data everything does (`CheckIsDenotation`).
- CheckIsDenotation: is about requests that answer; whether one throws is `CheckAnswersIfAllResolve` and `CheckNeverThrows`.
- CheckAnswersIffWalksLand: stops at union-only models, because elsewhere a short-circuit can hide a walk that does not land from every request (`MixedSubjects.HiddenWalkNeverThrows`); for explain, which hides nothing, the condition is exact on every model (`ExplainAnswersIffWalksLand`).
- The tuple store does not change during a request, and the asynchronous queries answer from it; `durationMs` and the metrics sink are not part of this model.
- The text of `formatTrace` is not part of this model.
- The grammar and the parser are a function from source text to syntax tree, and validating a file uses the same function; diagnostics carry file names and namespaces, but no texts or spans.
- Compile: takes the hash as injective, output paths as different from each other and from the index, the manifest as saved whenever a compile succeeds, and no I/O failure or outside writer; a configuration is identified with its hash, although prettier's own configuration files are not in it.
- RemoveOrphans: gives the orphans as a set; their order in the report, and a path named twice, are not modelled, here and in `BackEnd` and `Compile`.
- Build.Compiler: rendering, formatting and file names are parameters of the build; that rendered text means what it should is `GeneratedMeansValidated`, which stops before formatting, the header, the import line and the sorted index.
- Codegen.UsedBuilders: gives the set of imported builders; their order in the import line is not modelled.
- RunsKeepInv: in `SessionTheorems` it is about operations that run one after another without expiry, because the family blob is read, changed and written in separate calls; only the single-use claim is stated for interleaved presentations (`ConsumedSentinel`). The list of token identifiers in a family is not claimed to be complete, because a rotation can delete and recreate the blob.
- Claims, factors, times and their merging are one opaque text; hooks, logging, access tokens and signing are left out; drawing an identifier that was never drawn before, and decoding only what was signed, are conditions of a legal run.
- A corrupt or partly shaped family entry, which is read as an empty one, does not occur, since only the modelled operations write entries.
- OneHolder: lets the state of a key expire only while nobody is between claim and settle (`EarlyExpiryAdmitsSecond`), as do `SettledStays`, `FailuresBounded` and `CounterLosesNothing`; everything else may expire at any time.
- CounterLosesNothing: besides, the marker of a success outlives the clearing of the counter, without which the counter does lose a failure (`LateClearErasesFailure`), and the counter does not expire while it is being written.
- Idempotency: work is a success or a failure; cache failures, callers that crash between two calls and the lifetimes themselves are left out. Entries are told apart by key and kind, which `NamesIdentifyEntries` justifies exactly for keys that do not clash.
- ServerFeed.FeedRefinesHistory: takes both capacities as integers.
- ResumeExactlyOnce: listeners do not publish, subscribe or cancel while they are called; timestamps and payloads are carried but not looked at; whether a listener throws makes no difference because the loop catches it.
- ResolveReferences: works on strings already cut at their tokens, so substitution introduces no dollar sign and completes no new token; keys are not empty and hold no dot, paths are split; a whole value that refers to an object, which the program shares by identity, is excluded, while interpolating an object fails as it does there.
- ResolveReferences: does not return which error was thrown, nor the partly resolved tree that an error leaves behind.
- Base32Decode: takes upper-casing character by character as a parameter, and strings as sequences of whole characters: the character reported for text beyond the basic plane is not half of a pair.
- DecodeDigits: takes the alphabet as a parameter; `Base32Decode` passes the fixed one.
- Names on the prototype of objects, which the `in` operator also finds, are left out: records are maps of own keys.
- The config merge pipeline, the server builder, dispatchers, storage backends, command-line tools and the editor extension are left out: they are plumbing or rest on libraries that are not part of this model.
