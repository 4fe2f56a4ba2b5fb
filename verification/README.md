# Verified models of AGM's core algorithms

This project models, in Dafny, the densest algorithms of AGM and its AgL compiler, and proves what each is for.
`dafny verify dfyconfig.toml` checks all of it.

* **Operator grouping** (`Infix*.dfy`): the precedence climber that turns a flat chain of operands, `not` prefixes and
  operators into a tree, with its consumed prefix lists and its set of grouped comparisons, and the whole-program
  rewrite that puts the trees in. The climber's result is *the* well-grouped tree with the chain's yield; comparisons
  are rejected exactly when two are chained; the rewrite keeps what the program reads as, settles, is idempotent and
  commutes with grouping.
* **Schema plans for recursive types** (`Schema*.dfy`, `Graphs.dfy`): expansion of a possibly cyclic instantiation
  graph, choice of what to hoist, key assignment, emission of decode plans with references, and declaration templates
  with parameter slots for types that grow without bound. Both kinds of plan mean, at every depth, what inlining the
  type would mean; and two types share a canonical form exactly if they mean the same.
* **URI references** (`Url*.dfy`): splitting, recomposing, merging, removing dot segments and resolving.
* **Artifact cache** (`Lru*.dfy`, `ArtifactCache.dfy`): the bounded least-recently-used store validated by source
  identity, over a disk cache grouped by dependency closure. What is served is what computing would give, and exactly
  which modules are is stated; larger stores
  hit whenever smaller ones do; what one compilation retains the next one, the next after an edit, or the next process,
  is served.
* **Artifact storage** (`Storage*.dfy`): publishing by temporary file and rename as a state machine of interleaved
  writers and readers, with failures and deaths anywhere, removals from outside, and power losses that undo renames and
  cut files short.
* **Command-line routing and flags** (`ArgumentBinding.dfy`, `Token*.dfy`, `Flag*.dfy`): which slot each positional
  token fills, which tokens travel by name, that the shared binder then delivers each to its slot, and that every flag
  of a command has one owner.
* **Dependencies and shuffling** (`ReachableModules.dfy`, `Shuffling.dfy`): an explicit stack that walks a graph in
  recursive depth-first order, and an in-place shuffle that is a bijection between choices and permutations.
* **Agent output streams** (`Stream*.dfy`, `Codex*.dfy`, `ClaudeStream.dfy`): the line framer and the two stream
  decoders, and what a whole run reports.
* **Region layout** (`Region*.dfy`): nesting of scope regions and their re-indentation in place.

`Options.dfy` and `Texts.dfy` hold what several parts share.

## Shape of the models

Code that updates state is a class or a method with loops, proved against a function on values; the theorems are about
that function. `Grouper`, `TemplatePlanner`, `DecodeEmitter`, `ArtifactStore`, `ArtifactCache`, `CodexOutputStream` and
`ClaudeOutputStream` are such classes. `hide` statements leave out of a proof the definitions it does not need. A Python exception is an error result. What the code calls but does not contain
is a parameter: the sort order and the strongly connected components of a graph, the display form of an
instantiation, the JSON decoder, the digest function, the rest of what parsing a URL checks, the random choices.

## What turned out not to hold as hoped

* Grouping stops without an error at the first operator of negative priority, which a declared offset can give
  (`declared_priority`, src/agm/agl/infix.py:74-80), and drops the rest of the chain, because climbing starts at
  minimum 0. `InfixTrees.GroupConsumesChain` gives the exact condition, `InfixTrees.NegativeOperatorDropsTheRest` a
  chain. `InfixRewrite.RewriteKeepsReading` is the consequence for whole programs, again exact.
* A resolved reference does not always split back into its resolved components: a reference with its own scheme and no
  authority whose path, once dot segments are gone, starts with two slashes reads as an authority.
  `UrlReference.ResolveSplitsBack` gives the exact condition, `UrlReference.LooksLikeAuthorityIff` the same read off
  the segments of the reference's path, and `UrlReference.SchemeReferenceReadsAsAuthority` the reference `g:/.//x`, which fails
  against every base. The docstring of `_merge_paths` names section 5.3; the algorithm is that of section 5.2.3.
* `write_payload` removes its temporary name even after the rename. Another process may have created its own file under
  that name in between; a third one can then create it again and be published by the second. Readers still never see a
  torn payload when digests tell (`StorageProtocol.ReadsAreWhole`), but they can be given one of another slot with the
  same identity (`StorageForeign.ReusedNameServesForeignEntry`, for all identities and payloads). What matters is that no
  temporary file is created under the name of a writer that is still writing or about to rename, for another entry:
  `StorageOwnership.ReadsBelongToTheirEntry` is that this suffices, `StorageForeign.NameIsSafeIff` that for each creation,
  and `StorageForeign.CarefulIff` that for a whole run, it is exactly what keeps reads from another entry's payload.
* For the same reason an entry can show an unfinished file even without a power loss, which a reader then rejects.
  `StorageCompleteness.NameIsFreeIff` gives the exact condition: no creation under the name of any writer that is still
  writing or about to rename.
* Bringing back from disk what one group lacks can evict another group's entry before its turn, although the list fits
  the store and memory had it (`ArtifactCache.RestoringCanEvict`). `ArtifactCache.Served` says exactly what is served:
  what memory answers for after the groups have had their turns; with room for all keys nothing is lost.
* Re-indenting a region does not always put its body exactly one level in, as its message says it belongs: a nested
  body less indented than its own header pulls the whole body too far
  (`RegionResults.NestedBodyPullsItsRegion`). `RegionResults.IndentedExactlyOneLevelIff` gives the exact condition for
  a region at any depth, and `RegionResults.IndentingTwiceIff` that the same condition, at every depth, decides whether
  indenting twice is indenting once.
* A command's reported deltas add up to its latest output only while the output grows
  (`CodexRuns.ReplacedOutputIsNotRebuilt`); `CodexRuns.DeltasRebuildOutputIffGrowing` is exact.

## Model

| member | source | states |
|---|---|---|
| InfixTrees.SpansIsYield | src/agm/agl/infix.py:105-133 | a tree covers a stretch of the chain exactly when its in-order yield is that stretch, token for token |
| InfixTrees.ClimbSound | src/agm/agl/infix.py:122-133 | climbing at a minimum covers the stretch it consumes with a well-grouped tree whose root is at the minimum or above, and stops only where it must |
| InfixTrees.ClimbRebuilds | src/agm/agl/infix.py:122-133 | climbing from where a well-grouped tree begins rebuilds that very tree, whatever it is: the core of uniqueness |
| InfixTrees.GroupIsTheWellGroupedTree | src/agm/agl/infix.py:92-158 | with no negative priority, a tree is the grouping if and only if it is well grouped and its yield is the whole chain |
| InfixTrees.GroupIsTheWellGroupedPrefix | src/agm/agl/infix.py:92-158 | with any priorities, the same for the stretch grouping consumes |
| InfixTrees.GroupStopsAtFirstNegative | src/agm/agl/infix.py:122-133 | grouping consumes exactly what stands before the first operator of negative priority |
| InfixTrees.GroupConsumesChain | src/agm/agl/infix.py:157-158 | the whole chain is consumed if and only if no priority is negative |
| InfixTrees.NegativeOperatorDropsTheRest | src/agm/agl/infix.py:74-80 | a concrete chain whose right operand is dropped |
| InfixComparisons.ConflictIffChained | src/agm/agl/infix.py:147-154 | for a well-grouped tree, a comparison stands directly on a comparison exactly when two of the stretch are chained: only tighter operators between them and no `not` on the operands in between |
| InfixComparisons.ConflictIsChained | src/agm/agl/infix.py:147-154 | a conflict in the tree comes from two chained comparisons of the chain |
| InfixComparisons.ChainedIsConflict | src/agm/agl/infix.py:147-154 | two chained comparisons of the chain always conflict in the tree |
| InfixGrouping.ReadClimbBuilds | src/agm/agl/infix.py:122-158 | reading with consumed `not`s and collected comparisons, when it succeeds, builds the expression of the tree climbed on fixities alone |
| InfixGrouping.ReadClimbAgrees | src/agm/agl/infix.py:113-154 | with distinct operator ids, reading is rejected exactly when that tree has a comparison on a comparison, and else has collected the comparisons of its stretch |
| InfixGrouping.Grouper.constructor | src/agm/agl/infix.py:112-113 | every operand's prefix list is a copy to be consumed, and no comparison is grouped yet |
| InfixGrouping.Grouper.Prefixed | src/agm/agl/infix.py:115-120 | consumes exactly the `not`s up to the following operand and returns what reading from there gives |
| InfixGrouping.Grouper.Climb | src/agm/agl/infix.py:122-133 | the loop that reassigns left and following returns what reading at the minimum gives, with the `not`s of every operand passed consumed and no other |
| InfixGrouping.Grouper.TakeNext | src/agm/agl/infix.py:129-132 | one round of that loop: climb to the right, apply the operator |
| InfixGrouping.Grouper.Apply | src/agm/agl/infix.py:135-155 | a comparison on a grouped comparison is rejected; a comparison applied is remembered; a non-builtin operator becomes a call |
| InfixGrouping.FirstMixed | src/agm/agl/infix.py:105-111 | finds the first operator whose priority occurred before with the other associativity |
| InfixGrouping.GroupInfix | src/agm/agl/infix.py:92-158 | returns the chain's grouping or its one error, mixed associativity before chained comparisons; the expression is its tree with each builtin operator applied as itself and each other one called by its own name and callee |
| InfixGrouping.GroupingIsUnique | src/agm/agl/infix.py:92-158 | a chain has one grouping |
| InfixGrouping.GroupingRepresents | src/agm/agl/infix.py:135-158 | a grouped chain is what its tree stands for, node for node: operands and `not`s as written, each builtin operator applied as a builtin, each other one a call of its own callee |
| InfixGrouping.GroupingIsTheWellGroupedTree | src/agm/agl/infix.py:92-158 | a grouped chain is the expression of its one well-grouped tree |
| InfixGrouping.GroupingFailsIff | src/agm/agl/infix.py:41-62 | with builtin operators at their builtin fixities, grouping fails exactly if a priority is mixed, reported at the first operator that differs from an earlier one of its priority, or two comparisons are chained; a chained one is reported at the first operator, in the order they are applied, that has a comparison for an operand; operands already grouped never count |
| InfixBuiltins.BuiltinsAre | src/agm/agl/infix.py:41-60 | the builtin operators are those of five levels, all grouping to the left, and the comparisons are one of the levels |
| InfixBuiltins.LevelsOrderPriorities | src/agm/agl/infix.py:41-62 | the levels order the priorities, with `not` between the connectives and the comparisons |
| InfixBuiltins.TwoBuiltins | src/agm/agl/infix.py:122-133 | of two builtin operators in a row, the right one takes the operand between them exactly if its level is higher |
| InfixBuiltins.NotBeforeBuiltin | src/agm/agl/infix.py:115-120 | `not` takes in the operator after its operand exactly if that binds tighter than the connectives |
| InfixRewrite.LexemesOfBuild | src/agm/agl/infix.py:135-158 | a built expression reads as the tokens its tree yields, each operator with its kind, callee and id |
| InfixRewrite.GroupingReadsAsChain | src/agm/agl/infix.py:92-158 | a grouping reads as a prefix of its chain, as all of it when no priority is negative |
| InfixRewrite.GroupingProgress | src/agm/agl/infix.py:165-178 | following a grouping makes progress, so the rewrite ends |
| InfixRewrite.RewriteKeepsReading | src/agm/agl/infix.py:165-193 | every operand, `not` and operator of the program is kept, in order, if and only if no chain the rewrite comes to has an operator of negative priority |
| InfixRewrite.RewriteSettles | src/agm/agl/infix.py:165-193 | no chain that has a grouping is left |
| InfixRewrite.SettledIffUnchanged | src/agm/agl/infix.py:165-193 | what the rewrite leaves unchanged is exactly what holds no chain that has a grouping |
| InfixRewrite.RewriteIsIdempotent | src/agm/agl/infix.py:165-193 | rewriting twice is rewriting once |
| InfixCommute.RewriteKeepsIds | src/agm/agl/infix.py:165-193 | the rewrite invents no operator id and repeats none |
| InfixCommute.RewriteCommutesWithRejection | src/agm/agl/infix.py:165-178 | a chain is rejected over raw operands exactly if it is over rewritten ones, with the same error |
| InfixCommute.RewriteCommutesWithGrouping | src/agm/agl/infix.py:165-178 | grouping a chain over raw nested chains and then rewriting is a grouping of the chain over the rewritten operands |
| SchemaTypes.CanonicalIdempotent | src/agm/agl/type_schema.py:697-712 | canonical forms are canonical |
| SchemaTypes.SubstCanonical | src/agm/agl/type_schema.py:990-1002 | only what schema-relevant parameters are replaced by shows in a canonical form |
| SchemaTypes.SameCanonicalSameMeaning | src/agm/agl/type_schema.py:697-712 | types of one canonical form mean the same at every depth: sharing by canonical form is sound |
| SchemaTypes.CanonicalKeepsMeaning | src/agm/agl/type_schema.py:697-712 | a canonical form means what its type means |
| SchemaRelevance.ComputeRelevantParams | src/agm/agl/semantics/analyses.py:931-955 | going over the declarations until nothing changes finds exactly the parameters whose argument can be told from what an instantiation means |
| SchemaRelevance.ToldThrough | src/agm/agl/semantics/analyses.py:618-676 | what a variable in a schema position is replaced by can be told from what the whole means |
| SchemaRelevance.RelevantIffTold | src/agm/agl/semantics/analyses.py:378-381 | a parameter is relevant if and only if what it is instantiated with can be told from what the instantiation means |
| SchemaRelevance.SameCanonicalIffSameMeaning | src/agm/agl/semantics/type_table.py:1815-1823 | types have one canonical form if and only if they mean the same at every depth: sharing is sound, and as wide as it can be |
| SchemaTemplate.TemplateWellBound | src/agm/agl/type_schema.py:1004-1023 | a template's references have as many arguments as their definitions take and its parameters are below the arity |
| SchemaTemplate.DefinitionWellBound | src/agm/agl/type_schema.py:1025-1071 | the same of every declaration's body, at its own arity |
| SchemaTemplate.TemplatePlanner.constructor | src/agm/agl/type_schema.py:1001-1002 | nothing registered, nothing in progress |
| SchemaTemplate.TemplatePlanner.Emit | src/agm/agl/type_schema.py:1004-1023 | returns the type's template; whatever it refers to is registered or in progress; ends though instantiations grow |
| SchemaTemplate.TemplatePlanner.EmitReference | src/agm/agl/type_schema.py:1018-1023 | a record or enum becomes a reference with one argument per relevant parameter |
| SchemaTemplate.TemplatePlanner.EnsureDefinition | src/agm/agl/type_schema.py:1025-1071 | the declaration ends up registered or was in progress, what was in progress before is again, and nothing is registered outside any set closed under references that holds it |
| SchemaTemplate.BuildTemplateEncodePlan | src/agm/agl/type_schema.py:990-1073 | exactly the declarations the type reaches through templates are defined, every definition is its declaration's, with as many parameters as relevant ones, every reference names one with the right number of arguments, every parameter index is below its definition's arity |
| SchemaMeaning.SubstituteTemplate | src/agm/agl/runtime/serialize.py:491-548 | substituting bindings in a template is the template of the substituted type |
| SchemaMeaning.KeyFormAgrees | src/agm/agl/runtime/serialize.py:171-201 | a dict key followed through parameters and references has the wire form of its type |
| SchemaMeaning.ExpandedIsInlined | src/agm/agl/runtime/serialize.py:171-201 | running a template under its bindings, to any depth, is inlining the type it stands for |
| SchemaMeaning.TemplatePlanKeepsMeaning | src/agm/agl/type_schema.py:990-1073 | the finished template plan of a growing type means at every depth what inlining it would |
| SchemaPlan.BuildInstantiationPlan | src/agm/agl/type_schema.py:526-581 | the queue visits exactly what the roots reach, each once, maps each to its direct references, counts every occurrence, and lists them as first encountered: the roots' references, then those of each one listed, sorted, in turn |
| SchemaPlan.TallyCounts | src/agm/agl/type_schema.py:548-569 | an instantiation is tallied more than once exactly if it is named at two places, of the roots' references or of those listed |
| SchemaPlan.FirstOnlyIs | src/agm/agl/type_schema.py:562-566 | what is left of a queue without repeats stands in the order of first occurrences |
| SchemaOccurrences.ReferencesAreOccurrences | src/agm/agl/semantics/analyses.py:884-914 | a type's references are what occurs in it where its schema depends on it, each occurrence once, canonically, from left to right, an instantiation before its arguments |
| SchemaPlan.ChooseHoisted | src/agm/agl/type_schema.py:512-523 | hoisted is exactly what occurs more than once or lies on a cycle, listed where it stands in the order of expansion |
| SchemaPlan.SelectedFollows | src/agm/agl/type_schema.py:518 | filtering a list keeps its order |
| SchemaPlan.CyclicIsFromComponents | src/agm/agl/type_schema.py:514-518 | components of several nodes and nodes with a loop are exactly the nodes on cycles |
| SchemaKeys.CountBareKeys | src/agm/agl/type_schema.py:659-662 | a count is above one exactly if another instantiation shares the bare key |
| SchemaKeys.FirstFreeKey | src/agm/agl/type_schema.py:673-678 | the candidate if free, else the least numbered form of it that is |
| SchemaKeys.AssignDefsKeys | src/agm/agl/type_schema.py:645-680 | each instantiation gets the key its display, its collisions and its predecessors' keys give it, and no two the same |
| SchemaKeys.KeysDistinct | src/agm/agl/type_schema.py:653-655 | keys that follow the rule are pairwise distinct |
| SchemaKeys.NumeralReads | src/agm/agl/type_schema.py:675-677 | a number's numeral is the one without leading zeros that reads as it |
| SchemaDecode.EmittedBound | src/agm/agl/type_schema.py:697-712 | every reference in an emitted schema names a definition |
| SchemaDecode.DefinitionsBound | src/agm/agl/type_schema.py:683-694 | so does every reference in a definition |
| SchemaDecode.BodyKeepsMeaning | src/agm/agl/type_schema.py:729-783 | a definition's body, references followed to any depth, is its type inlined to that depth |
| SchemaDecode.EmittedKeepsMeaning | src/agm/agl/type_schema.py:697-783 | an emitted schema, references followed to any depth, is its type inlined to that depth |
| SchemaDecode.DecodeEmitter.constructor | src/agm/agl/type_schema.py:685-688 | one empty memo per plan |
| SchemaDecode.DecodeEmitter.Emit | src/agm/agl/type_schema.py:697-726 | memoised emission returns the one emitted schema of the type and ends on every cyclic graph, because nodes on cycles are hoisted |
| SchemaDecode.DecodeEmitter.EmitBody | src/agm/agl/type_schema.py:729-783 | a type's own body, never a reference to itself |
| SchemaDecode.DecodeEmitter.EmitFields | src/agm/agl/type_schema.py:744-783 | the body's fields, each emitted on its own |
| SchemaDecode.PlanSchema | src/agm/agl/type_schema.py:500-523 | expansion, hoisting and keys together make a plan that covers the type; what is reached is listed in order of first encounter, and of that exactly what is recursive or named twice is hoisted, where it stands |
| SchemaDecode.EmitPlan | src/agm/agl/type_schema.py:683-694 | the root and one keyed definition per hoisted instantiation, in order |
| SchemaDecode.HoistedIs | src/agm/agl/type_schema.py:512-518 | hoisted is exactly what lies on a cycle of what is reached or is named at two places |
| SchemaDecode.EmittedShows | src/agm/agl/type_schema.py:697-726 | an emitted schema shows its type in place, part by part, and exactly the listed instantiations by the keys of their definitions |
| SchemaDecode.BodyShows | src/agm/agl/type_schema.py:729-783 | a definition shows its instantiation's own fields |
| SchemaDecode.PlanKeys | src/agm/agl/type_schema.py:645-680 | each key is its display's bare form, or the qualified one if another listed instantiation shares the bare form and it is not the entry module's, with the least free number from 2 on if that is taken |
| SchemaDecode.PlanIsSound | src/agm/agl/type_schema.py:683-694 | such a list of definitions binds every reference and means the type inlined, at every depth |
| SchemaDecode.BuildDecodePlan | src/agm/agl/type_schema.py:500-783 | one definition for each instantiation reached that is recursive or named twice, in order of first encounter, under the bare, qualified or numbered key its display gives, showing its own fields; every reference is bound; root and definitions, unfolded to any depth, are inlined to that depth |
| UrlDotSegments.RemoveDotSegments | packages/stdlib/src/url.py:226-253 | the loop over text computes the normal form of the path |
| UrlDotSegments.NormalizedRooted | packages/stdlib/src/url.py:226-253 | for rooted paths that is the segment stack: push, skip ".", pop on "..", an empty last segment after a trailing dot segment; it stays rooted |
| UrlDotSegments.MachineLeavesSurvivors | packages/stdlib/src/url.py:226-253 | the stack is left with exactly the segments that no later ".." takes away, counted by heights, in order, and an empty one after a dot segment at the end |
| UrlDotSegments.NormalizedHasNoDotSegments | packages/stdlib/src/url.py:227 | no segment of the result is "." or "..", for every path |
| UrlDotSegments.NormalizedIsIdempotent | packages/stdlib/src/url.py:226-253 | removing dot segments twice is removing them once, for every path |
| UrlDotSegments.NormalizedWithout | packages/stdlib/src/url.py:226-253 | the result has no character but slashes that the path has not |
| UrlDotSegments.NormalizedWithoutDoubleSlash | packages/stdlib/src/url.py:226-253 | a path without two slashes in a row does not come to start with two |
| UrlDotSegments.NormalizedDoubleSlashIff | packages/stdlib/src/url.py:226-253 | a path comes to start with two slashes exactly if, counting segments and ".." after its first slash, an empty segment is left at the bottom with something above it and nothing before it |
| UrlReference.RecomposeOfSplit | packages/stdlib/src/url.py:202-223 | recomposing what splitting gives is the text again, for every text |
| UrlReference.SplitIsWellFormed | packages/stdlib/src/url.py:202-223 | splitting gives well-formed parts |
| UrlReference.SplitOfRecompose | packages/stdlib/src/url.py:269-281 | splitting inverts recomposing exactly on the well-formed parts |
| UrlReference.RecomposeReads | packages/stdlib/src/url.py:269-281 | the recomposed text is each component present with its mark, in order |
| UrlReference.HasSchemeAndAuthorityIff | packages/stdlib/src/url.py:110-113 | a text passes the first check exactly if it is a letter, scheme characters, "://" and a rest |
| UrlReference.MergedPath | packages/stdlib/src/url.py:256-266 | a merged path comes to the segment stack run on the base's segments but the last and then the reference's |
| UrlReference.ResolvedPath | packages/stdlib/src/url.py:307-325 | where the resolved path comes from, segment by segment |
| UrlReference.Join | packages/stdlib/src/url.py:294-329 | resolves exactly if its checks pass, and else reports the text whose check failed first; each component is the reference's or the base's as the reference's scheme, authority and path say; a relative path is run through the segment stack after the base's segments but the last |
| UrlReference.ResolveIsWellFormed | packages/stdlib/src/url.py:307-326 | the resolved parts are well formed exactly unless the reference's own path looks like an authority |
| UrlReference.ResolveSplitsBack | packages/stdlib/src/url.py:294-329 | so the resolved text splits back into the resolved parts under exactly that condition |
| UrlReference.NoDoubleSlashSplitsBack | packages/stdlib/src/url.py:294-329 | in particular whenever the reference's path has no two slashes in a row |
| UrlReference.LooksLikeAuthorityIff | packages/stdlib/src/url.py:307-309 | the condition read off the segments of the reference's own path |
| UrlReference.SchemeReferenceReadsAsAuthority | packages/stdlib/src/url.py:307-309 | a concrete reference that, against any base, does not split back |
| UrlReference.ResolveEmptyDropsFragment | packages/stdlib/src/url.py:316-319 | joining a result that splits back with the empty reference drops its fragment and nothing else |
| LruStore.ArtifactStore.constructor | src/agm/agl/artifact_cache.py:78-86 | an empty store of a capacity |
| LruStore.ArtifactStore.Get | src/agm/agl/artifact_cache.py:88-95 | answers only for the very sources retained, and then moves the entry to the end |
| LruStore.ArtifactStore.Put | src/agm/agl/artifact_cache.py:97-103 | the entry goes to the end and the oldest beyond the capacity go |
| LruStore.ArtifactStore.Clear | src/agm/agl/artifact_cache.py:105-108 | nothing is left |
| LruInclusion.RunIncluded | src/agm/agl/artifact_cache.py:88-108 | after any trace, a larger store holds what a smaller one holds, in the same relative order |
| LruInclusion.LargerStoreKeepsHits | src/agm/agl/artifact_cache.py:88-95 | raising the capacity never turns a hit into a miss nor changes its answer |
| LruInclusion.HitIsLastPut | src/agm/agl/artifact_cache.py:88-103 | a hit is what an unbounded map of last puts holds, for the same sources; the size never exceeds the capacity |
| LruRecency.RunIsLeastRecentFirst | src/agm/agl/artifact_cache.py:94-103 | after any trace, the store holds the most recently used keys, least recent first |
| ArtifactCache.SameIdsSameSources | src/agm/agl/artifact_cache.py:428-432 | closures of one graph that list the same module ids list the same modules, so a group shares one key |
| ArtifactCache.ContentsIff | src/agm/agl/artifact_cache.py:438-447 | what is compared and computed from is every module's identity and text, and nothing of which object it is |
| ArtifactCache.GroupClosures | src/agm/agl/artifact_cache.py:428-432 | groups are by closure, non-empty, of distinct closures, every module is in one, and both groups and members keep their order |
| ArtifactCache.ArtifactCache.constructor | src/agm/agl/artifact_cache.py:78-86 | empty memory over a faithful disk |
| ArtifactCache.ArtifactCache.GroupHeld | src/agm/agl/artifact_cache.py:335-336 | whether memory answers for every member of a group, asking no further than the first miss; memory is what those questions make of it |
| ArtifactCache.ArtifactCache.RestoreGroup | src/agm/agl/artifact_cache.py:342-347 | what a payload has of a group is put back, one put after the other, and nothing put in this batch is evicted while the batch fits |
| ArtifactCache.ArtifactCache.RestoreAll | src/agm/agl/artifact_cache.py:332-347 | memory is what the groups in turn make of it; every module disk can answer for is then in memory, if the list fits, and so is what was kept safe before |
| ArtifactCache.RestoringAnswers | src/agm/agl/artifact_cache.py:332-347 | bringing back what disk holds adds no answer disk has not; with room for all keys it takes none away, nor does it when memory has all |
| ArtifactCache.ArtifactCache.Served | src/agm/agl/artifact_cache.py:314-352 | served are exactly the modules memory answers for once the groups have been brought back in turn, which without persistence is memory at the call; with room for all keys, exactly those memory or disk had; each as computing from the current sources gives it |
| ArtifactCache.ArtifactCache.Collect | src/agm/agl/artifact_cache.py:348-352 | exactly the hits are collected |
| ArtifactCache.ArtifactCache.AnyMissing | src/agm/agl/artifact_cache.py:375 | whether a member with an artifact is not in memory |
| ArtifactCache.ArtifactCache.PayloadFaithful | src/agm/agl/artifact_cache.py:379-384 | a group saved under its first member's key is faithful for all members |
| ArtifactCache.ArtifactCache.RetainGroup | src/agm/agl/artifact_cache.py:372-386 | the group's artifacts are in memory, disk changes only at the group's key and only if one was missing |
| ArtifactCache.ArtifactCache.RetainedStep | src/agm/agl/artifact_cache.py:372-386 | retaining one group keeps what the groups before it have left in memory and on disk |
| ArtifactCache.ArtifactCache.SavedIffMissing | src/agm/agl/artifact_cache.py:372-386 | whatever was in memory, a group is saved, whole, exactly if it can be and a member with an artifact is not in memory at its turn, which the memory before determines; else disk keeps what it had of it |
| ArtifactCache.ArtifactCache.NotYetSaved | src/agm/agl/artifact_cache.py:381-386 | disk keeps what it has under every key but the groups' |
| ArtifactCache.ArtifactCache.Retain | src/agm/agl/artifact_cache.py:355-386 | memory and disk are what going through the groups in turn gives; every artifact is in memory if the list fits, and on disk if its group can be saved and one of its artifacts was not in memory before; memory and disk stay faithful |
| ArtifactCache.RetainThenServe | src/agm/agl/artifact_cache.py:314-386 | retaining then serving the same modules within capacity returns all of them |
| ArtifactCache.RetainThenEdit | src/agm/agl/artifact_cache.py:314-386 | after an edit every module none of whose sources changed is still served, whatever disk holds, as long as the modules fit |
| ArtifactCache.RestoringCanEvict | src/agm/agl/artifact_cache.py:332-347 | a memory and a disk where bringing back one group loses a module memory had, though the list fits |
| ArtifactCache.RetainThenRestart | src/agm/agl/artifact_cache.py:314-386 | another process with freshly loaded objects of the same contents is served every module whose group a compilation could save and did not have all of in memory |
| StorageProtocol.AcceptFrame | src/agm/agl/artifact_storage.py:50-57 | a whole frame is accepted exactly under its identity, and gives its payload |
| StorageProtocol.AcceptIff | src/agm/agl/artifact_storage.py:50-57 | a payload is accepted from exactly one text: identity, digest of the payload, payload |
| StorageProtocol.AcceptCutFrame | src/agm/agl/artifact_storage.py:53-56 | a frame cut short anywhere is accepted only if nothing is missing |
| StorageProtocol.StepKeepsPlaced | src/agm/agl/artifact_storage.py:62-76 | every step keeps: a file is the beginning of its writer's frame, a writer at work is at the end of its own file, a reader has read the beginning of the file it opened |
| StorageProtocol.ReadsAreWhole | src/agm/agl/artifact_storage.py:50-76 | in every interleaving, with failures, deaths, reused names and power losses, a read gives nothing or a complete payload written under its identity |
| StorageOwnership.StepKeepsOwned | src/agm/agl/artifact_storage.py:66-70 | unless a name is taken from a writer at work for another entry, entries hold only files written for them, and so do the names of writers at work |
| StorageOwnership.ReadsBelongToTheirEntry | src/agm/agl/artifact_storage.py:50-76 | in every run without such a creation, every payload a read gives is of a writer of its entry, whatever the digest |
| StorageForeign.ClashIsRead | src/agm/agl/artifact_storage.py:66-76 | once a writer has created its file under the name of one at work, an undisturbed continuation gives a read of the one's entry the other's payload |
| StorageForeign.NameIsSafeIff | src/agm/agl/artifact_storage.py:66-76 | a creation takes no name from a writer at work for another entry if and only if nothing that goes on so after it gives a read another entry's payload |
| StorageForeign.CarefulIff | src/agm/agl/artifact_storage.py:66-76 | a whole run makes only such creations if and only if no moment of it leads so to a read of another entry's payload |
| StorageForeign.ReusedNameServesForeignEntry | src/agm/agl/artifact_storage.py:66-76 | for all identities, payloads and entries there is a run, without failures, removals from outside, deaths or power losses, in which a read gives another entry's payload |
| StorageCompleteness.PublishedFilesAreWhole | src/agm/agl/artifact_storage.py:62-70 | without power losses, and with no name taken from a writer at work, no entry ever shows a file that is not whole, whatever the digest |
| StorageCompleteness.NameIsFreeIff | src/agm/agl/artifact_storage.py:62-70 | a creation takes no name from a writer at work if and only if nothing that goes on so after it shows an unfinished file |
| StorageCompleteness.PublishedIsReadBack | src/agm/agl/artifact_storage.py:50-59 | then a finished read gives its writer's payload exactly if the identities agree |
| StorageCompleteness.RunIsReadBack | src/agm/agl/artifact_storage.py:50-76 | so it does after every run without power losses and with no name taken from a writer at work |
| StorageCompleteness.NoTemporaryFilesLeft | src/agm/agl/artifact_storage.py:71-76 | failing or not, once all writers have finished the only temporary files left are those of writers that died or could not remove their name |
| StorageIdentity.HexInjective | src/agm/agl/artifact_storage.py:45 | a digest can be read off its hexadecimal form |
| StorageIdentity.HexReads | src/agm/agl/artifact_storage.py:45 | two lower-case digits to a byte, the higher one first |
| StorageIdentity.EntryDeterminesWanted | src/agm/agl/artifact_storage.py:37-47 | two artifacts have the same slot and identity exactly if they agree on compiler, key, kind and validator, though key and validator are joined without a mark |
| StorageIdentity.SameSlotIff | src/agm/agl/artifact_storage.py:37-47 | the file is named by key and kind alone, so another compiler's or validator's artifact takes its place |
| StorageIdentity.IdentityAloneIsAmbiguous | src/agm/agl/artifact_storage.py:46 | the identity alone does not, as key and validator are joined without a mark |
| StorageIdentity.ReadsAreOfTheArtifactWanted | src/agm/agl/artifact_storage.py:37-76 | with no name taken from a writer at work for another entry, whatever a caller reads was written whole for the same compiler, key, kind and validator |
| StorageIdentity.EmptyIsSound | src/agm/agl/artifact_storage.py:37-76 | what that assumes of the beginning holds of an empty directory |
| ArgumentBinding.BindPositional | src/agm/agl/semantics/arguments.py:175-205 | positional arguments fill the capable parameters from the left, passing over named-only ones, if there are enough |
| ArgumentBinding.BindNamed | src/agm/agl/semantics/arguments.py:223-246 | named arguments go to their parameters, or the first in source order without a free place fails, for its reason |
| ArgumentBinding.BindArguments | src/agm/agl/semantics/arguments.py:131-254 | binding succeeds exactly if every argument has a place of its own and every parameter without a default gets one, binds each there, and else reports too many positional ones, then the first misplaced named one, then the first missing parameter |
| ArgumentBinding.BindsIff | src/agm/agl/semantics/arguments.py:131-254 | binding succeeds exactly if there are parameters for all positional arguments, each named one can go to a parameter of its own, and each parameter without a default is filled, counted and looked up directly |
| ArgumentBinding.BoundAtIff | src/agm/agl/semantics/arguments.py:131-254 | a parameter gets the positional argument of its rank among those that take one, or else the argument of its name |
| TokenRouting.OpenSlotsAre | src/agm/cli_support/program_options.py:1698-1727 | open slots come in strictly increasing order and only slots already typed by name are passed over |
| TokenRouting.TokenSlots | src/agm/cli_support/program_options.py:1698-1727 | the k-th token gets the k-th open slot, or none when there is none left, and travels by name exactly if its slot is CLI-positional or after a passed-over one |
| TokenRouting.ParseTail | src/agm/cli_support/program_options.py:1444-1489 | the routed positional list, named values and environment fallbacks, or a refusal of surplus beside tokens by name |
| TokenDelivery.SlotsStart | src/agm/cli_support/program_options.py:1823 | the slots are the positional-capable parameters, first and in order, and then the CLI-positional ones |
| TokenDelivery.SkippedIff | src/agm/cli_support/program_options.py:1716-1722 | with a CLI-positional slot every typed slot is passed over, without one none is |
| TokenDelivery.FitsIff | src/agm/cli_support/program_options.py:1459-1489 | what parsing hands over binds exactly if no token's slot was also typed |
| TokenDelivery.SurplusRefused | src/agm/cli_support/program_options.py:1452-1458 | a token without a slot is refused, by parsing or by the binder |
| TokenDelivery.TooManyIff | src/agm/cli_support/program_options.py:1452-1458 | parsing itself refuses a command line exactly if it has more tokens than open slots and some parameter is CLI-positional |
| TokenDelivery.TokensReachTheirSlots | src/agm/cli_support/program_options.py:1444-1489 | a command line is taken exactly if every token has a slot not typed by name; then the binder's pairing gives every token the slot it was routed to and every option its value, a token before the environment |
| FlagClaims.CollectClaims | src/agm/cli_support/param_surface.py:57-62 | a level maps each spelling claimed to its claimants in order |
| FlagClaims.ResolveClaims | src/agm/cli_support/param_surface.py:129-147 | each spelling is decided by the first level that mentions it, a sole claimant winning it and several parameters making it ambiguous |
| FlagOwnership.CheckReservation | src/agm/cli_support/program_options.py:1730-1751 | no collision is reported exactly if no flag is reserved or demanded twice; else the first one, with those involved |
| FlagOwnership.MakeEntry | src/agm/cli_support/param_surface.py:188-224 | an entry's positive flags, negative flags, short flag and spellings are those its parameter has won, each in order |
| FlagOwnership.EntryRightful | src/agm/cli_support/param_surface.py:188-224 | each of an entry's lists holds exactly the flags of its polarity that the parameter rightfully owns, in order |
| FlagOwnership.LevelsDecide | src/agm/cli_support/param_surface.py:174-181 | the four levels give a flag to the host, else the program, else the own module's parameters, else the imported ones' |
| FlagOwnership.OwnersAreRightful | src/agm/cli_support/param_surface.py:150-185 | host flags, options, entries and ambiguity sentinels have a flag exactly if the order of levels gives it to them |
| FlagOwnership.OneOption | src/agm/cli_support/program_options.py:1740-1751 | past the check no flag is of two options, nor reserved |
| FlagOwnership.OneOwner | src/agm/cli_support/program_options.py:1811-1816 | no flag has two owners |
| FlagOwnership.EveryClaimIsOwned | src/agm/cli_support/param_surface.py:174-185 | every flag anything claims has an owner |
| FlagRights.RightfulParamIff | src/agm/cli_support/param_surface.py:129-181 | a module parameter rightfully owns a flag exactly if neither host nor program claims it, one place of the parameter is the only one of its level that does, and, for an imported one, none of the program's own module does |
| FlagRights.RightfulSentinelIff | src/agm/cli_support/param_surface.py:129-181 | a flag is ambiguous exactly if neither host nor program claims it and two places of the deciding level do; the parameters named are theirs, in order |
| FlagRights.CollisionFreeIff | src/agm/cli_support/program_options.py:1730-1751 | there is no collision exactly if no flag an option claims is reserved or claimed at a second place |
| FlagRights.DemandPlaces | src/agm/cli_support/program_options.py:1730-1751 | flags are demanded option by option, the flag, its negative and the short one, all of them |
| FlagRights.SpellingsAre | src/agm/cli_support/program_options.py:936-956 | a parameter claims exactly its routes' flags and negatives and its short flag |
| FlagOwnership.BuildProgramCommand | src/agm/cli_support/program_options.py:1800-1864 | a command is built exactly if there is no collision; then every flag is owned by whom it should be, and is positive, negative or short for a parameter exactly if the parameter rightfully owns it and one of its routes has it as its flag, its negative, or it is its short; every list is in route order |
| ReachableModules.PreorderAppend | src/agm/agl/pipeline.py:1659-1673 | walking a list is walking its parts in turn |
| ReachableModules.PopStep | src/agm/agl/pipeline.py:1666-1672 | popping, skipping or pushing reversed dependencies keeps where the stack leads in the recursive walk |
| ReachableModules.PreorderCollects | src/agm/agl/pipeline.py:1659-1673 | the walk adds exactly what can be reached without passing through what it had reached |
| ReachableModules.Reachable | src/agm/agl/pipeline.py:1659-1673 | the explicit stack returns the recursive depth-first preorder: the start first, all and only what it reaches, each once, and next always the first dependency not yet listed of the latest module that has any |
| Shuffling.ShuffledKeepsElements | packages/stdlib/src/random.py:57-61 | shuffling keeps every element as often as it occurs |
| Shuffling.ShuffledInjective | packages/stdlib/src/random.py:57-61 | with distinct elements, different choices give different orders |
| Shuffling.ShuffledSurjective | packages/stdlib/src/random.py:57-61 | every order of any elements comes from some choices |
| Shuffling.ShuffledExchanges | packages/stdlib/src/random.py:57-61 | from the last index down, each element is exchanged with the one chosen, at or before it |
| Shuffling.ShuffleIsABijection | packages/stdlib/src/random.py:57-61 | choices and orders of distinct elements correspond one to one |
| Shuffling.ShuffleInPlace | packages/stdlib/src/random.py:57-61 | the in-place loop gives the order its choices stand for |
| StreamFraming.LinesOfUnlines | src/agm/agent/stream.py:20-31 | splitting is the one way of writing a text as complete lines and a rest |
| StreamFraming.LinesAppend | src/agm/agent/stream.py:20-25 | more text first completes what was left over |
| StreamFraming.ChunksDoNotMatter | src/agm/agent/stream.py:20-31 | however a text is cut into chunks, feeding them and finishing consumes its lines, each once and in order |
| CodexStream.CodexOutputStream.constructor | src/agm/agent/stream.py:168-172 | nothing buffered, pending or told |
| CodexStream.CodexOutputStream.Feed | src/agm/agent/stream.py:174-179 | consumes the lines a chunk completes and keeps the rest |
| CodexStream.CodexOutputStream.Finish | src/agm/agent/stream.py:181-185 | consumes a last unterminated line, if any |
| CodexStream.CodexOutputStream.ConsumeLine | src/agm/agent/stream.py:187-221 | a line does to the state what its event does; anything else is ignored |
| CodexStream.CodexOutputStream.EmitPendingAgentMessage | src/agm/agent/stream.py:259-263 | a non-empty pending message is told and none is pending |
| CodexStream.CodexOutputStream.ItemStarted | src/agm/agent/stream.py:223-257 | commands, searches and tool calls are announced with their title |
| CodexStream.CodexOutputStream.EmitCommandOutput | src/agm/agent/stream.py:275-294 | tells what is new of a command's output and remembers all of it |
| CodexStream.CodexOutputStream.EmitMcpResult | src/agm/agent/stream.py:296-323 | tells every text block of a tool's result, in order |
| StreamEvents.CodexEventIff | src/agm/agent/stream.py:187-221 | what a line means, exactly, from the fields of its record |
| StreamEvents.StartReportIff | src/agm/agent/stream.py:223-257 | what is announced when an item starts, exactly, from its fields |
| StreamEvents.BlockReportsAre | src/agm/agent/stream.py:305-323 | the reports are of the text blocks, from left to right, and of every one |
| StreamEvents.McpReportIff | src/agm/agent/stream.py:296-323 | a tool's result reports the text blocks of its content under the tool's name, with its server if it has one |
| CodexRuns.ChunksRunTheLines | src/agm/agent/stream.py:174-185 | a run ends where its text's lines lead, however it was cut |
| CodexRuns.MessagesForwardedIffFollowed | src/agm/agent/stream.py:187-221 | a non-empty completed message is forwarded, once and in order, exactly if an item's event follows it |
| CodexRuns.DeltasEndInLatest | src/agm/agent/stream.py:275-294 | a command's deltas end in its latest output, with something before it exactly if some output did not extend the one before |
| CodexRuns.DeltasRebuildOutputIffGrowing | src/agm/agent/stream.py:275-294 | a command's deltas add up to its latest output exactly if its output only grew |
| CodexRuns.ReplacedOutputIsNotRebuilt | src/agm/agent/stream.py:275-294 | two outputs whose deltas do not add up to the latest |
| CodexRuns.DeltasAreTold | src/agm/agent/stream.py:275-323 | those deltas are what the callback is told for the command, unless a tool's result passes itself off as it |
| ClaudeStream.ClaudeOutputStream.constructor | src/agm/agent/stream.py:15-18 | nothing buffered, collected or told |
| ClaudeStream.ClaudeOutputStream.Feed | src/agm/agent/stream.py:20-25 | consumes the lines a chunk completes and keeps the rest |
| ClaudeStream.ClaudeOutputStream.Finish | src/agm/agent/stream.py:27-31 | consumes a last unterminated line, if any |
| ClaudeStream.ClaudeOutputStream.ConsumeLine | src/agm/agent/stream.py:33-49 | a line does to the state what its event does; anything else is ignored |
| ClaudeStream.ClaudeOutputStream.StreamEvent | src/agm/agent/stream.py:51-86 | announces a tool, collects a text delta, or classifies the text at a stop |
| ClaudeStream.ClaudeOutputStream.ClassifyAssistantText | src/agm/agent/stream.py:98-103 | text collected is told unless the stop ends the response, and dropped in any case |
| ClaudeStream.ClaudeOutputStream.ReportToolResults | src/agm/agent/stream.py:105-139 | tells every text of every tool result, in order |
| StreamEvents.ClaudeEventIff | src/agm/agent/stream.py:33-96 | which lines start a tool, add text, stop a turn or bring tool results, exactly, from the fields of their records |
| StreamEvents.TextReportsAre | src/agm/agent/stream.py:126-139 | the texts of a result's list are reported from left to right, all of them |
| StreamEvents.ResultReportIff | src/agm/agent/stream.py:112-139 | a tool result reports its text, or the texts of its list, under its call; any other block reports nothing |
| StreamEvents.ResultReportsAre | src/agm/agent/stream.py:112-113 | blocks are reported one after another |
| ClaudeStream.ChunksRunTheLines | src/agm/agent/stream.py:20-31 | a run ends where its text's lines lead, however it was cut |
| ClaudeStream.InterimTextsForwarded | src/agm/agent/stream.py:51-103 | the messages told are the texts of exactly the turns that stopped without ending the response, whole, once and in order |
| ClaudeStream.DecodeClaudeStreamJson | src/agm/agent/stream.py:142-162 | the final response is the last result's text; the first faulty line fails the output for its reason; no result is an error of its own |
| StreamEvents.FaultIff | src/agm/agent/stream.py:145-158 | which lines are faulty, and why, and which are results, from the fields of their records |
| RegionNesting.NestMarkers | tools/agl_style.py:131-145 | the loop that appends regions computes the fold of the markers |
| RegionNesting.NestInvertsFlatten | tools/agl_style.py:131-145 | every list of nested regions is what folding makes of its markers |
| RegionNesting.FlattenOfNest | tools/agl_style.py:131-145 | what folding has gone over is its regions flattened, up to a stray closer, the end, or a region never closed |
| RegionNesting.IncreasingIsWellNested | tools/agl_style.py:131-145 | markers on lines of their own, in order, fold into well-nested regions |
| RegionIndent.Shift | tools/agl_style.py:198-205 | exactly the lines of the range that are not blank move, by the amount |
| RegionIndent.ApplyIndent | tools/agl_style.py:208-243 | the nested in-place rewrite leaves the lines and returns the reports that indenting region by region, outermost first, gives |
| RegionIndent.IndentRegion | tools/agl_style.py:212-242 | the same for one region and all it nests; one without a body is left alone |
| RegionLayout.IndentedKeepsText | tools/agl_style.py:198-243 | no line's text after its leading white space changes, and blank lines stay as they are |
| RegionLayout.IndentedLeaves | tools/agl_style.py:208-243 | lines no region with a body reaches are left alone |
| RegionLayout.IndentedConforms | tools/agl_style.py:208-243 | every region with a body, at every depth, ends with its closer at its header's column and its own lines one level in, as far apart as they were |
| RegionResults.IndentingPutsBodiesIn | tools/agl_style.py:208-243 | every body line, at every depth at once, is at least one level in from its header, and every closer at its header's column |
| RegionResults.ExactlyOneLevelIff | tools/agl_style.py:219-231 | in any layout indenting gives, a body is exactly one level in exactly if one of its least indented lines was not inside a nested region |
| RegionResults.IndentedExactlyOneLevelIff | tools/agl_style.py:208-243 | after indenting, the same for a region at any depth |
| RegionResults.NestedBodyPullsItsRegion | tools/agl_style.py:219-231 | a text whose body does not come to stand exactly one level in |
| RegionResults.IndentingTwiceIff | tools/agl_style.py:208-243 | indenting twice is indenting once exactly if, at every depth, one of each body's least indented lines was not inside a nested region |
| RegionResults.ReportedIffMoved | tools/agl_style.py:220-241 | something is reported exactly if something is moved |
| RegionResults.ReportsAreOff | tools/agl_style.py:208-243 | what is reported while indenting is what is off in the text as given, body before closer before what a region nests: enclosing regions add, hide and reorder nothing |
| RegionResults.OffIff | tools/agl_style.py:220-241 | a report is made of exactly each body not one level in and each closer not at its header's column, at any depth |

## Left out

- Parsing, scope resolution, type checking, match compilation and the interpreter: outside these algorithms.
- Source spans: grouping computes them for every node; the model keeps node ids and drops spans.
- Programs around chains: `replace_infix_chains` walks every dataclass field; the model's expressions are the nodes grouping makes, atoms and nested chains.
- Strongly connected components: `sccs` is a parameter, required to partition the graph's nodes by mutual reachability; sort keys and display forms are parameters too.
- Field and member metadata (JSON names, aliases, documentation, required fields): a declaration's identity stands for all of it, and an enum's members' fields stand in one list.
- The JSON Schema document, the type tree and the finite encode plan: they share the planned emission that is modelled for decoding.
- Keys of a template plan: a declaration's identity itself, where the code writes "n" and its number.
- SchemaDecode.BuildDecodePlan: takes a finite universe that holds what the type reaches, which the code's callers guarantee by sending growing types to the template plan.
- SchemaTemplate.BuildTemplateEncodePlan: gives its definitions as a map; the order in which the code lists them is not modelled.
- SchemaRelevance.ComputeRelevantParams: relevance through containers, which schemas use; the variant without them, used for inhabitation, is not modelled.
- SchemaKeys.AssignDefsKeys: works from each instantiation's sanitised bare and qualified display forms; the sanitising expression is not modelled.
- UrlReference.Join: the checks of `parse` beyond scheme and authority marks, and of `_validate_reference`, are parameters.
- Percent-encoding, queries and rendering of URLs: library calls around one loop.
- The per-store lock: each store operation is one step, as the lock makes it.
- Pickling, anchors, disk forms and the `isinstance` check of a payload: whether a payload can be written or read at all is a parameter, and what is read is what was written.
- Memoised module fingerprints: a module's digest is its id and content.
- The refresh of checked modules and match sites after serving: one more put of a derived object.
- StorageProtocol.ReadsAreWhole: assumes of the digest only that cutting a payload short changes it.
- StorageIdentity.EntryDeterminesWanted: assumes of the digest only that it does not collide on the two keys and the two identities compared.
- The contents of the compiler digest: 32 bytes in the identity.
- ArgumentBinding.BindArguments: bare-name shorthand, which the command line's caller switches off.
- Click's own parsing: which option values were typed, and which came from the environment, is given.
- TokenRouting.ParseTail: an option's polarities and repetitions are settled into one supplied value before.
- Module parameters' long names and configuration keys: resolved by the same claim levels as the flags, over names instead of flags.
- FlagOwnership.BuildProgramCommand: lists entries in the order parameters are given, where the code puts the own module's first.
- Random source: the choices it draws are given, each within its bound.
- JSON decoding of stream lines: a parameter; NaN and infinities are not modelled.
- RegionNesting.WellNested: regions that share a line with one another. A region that opens and closes on one line is let through, and left alone as in the code; an `end` and another region's `scope` on one line are not.
- RegionIndent.ApplyIndent: blank-line rules, field lists, Markdown and literals are other passes.
- Termination of the Codex and Claude processes, timeouts and callbacks that fail: outside the streams.
