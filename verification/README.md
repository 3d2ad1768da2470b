# FlowMind: verified models of its protocols and algorithms

FlowMind runs workflows: graphs of steps with loops, error handling, calls to other
workflows, and expressions that read what earlier steps produced. This project models the parts
of it whose guarantees come from several functions working together, and proves those guarantees
for every input, every interleaving and every reachable state.

`dafny verify dfyconfig.toml` checks the whole project.

## What is proved

**Workflow graphs** (`Digraph`, `Regions`, `Traversal`, `GraphModel`, `GraphValidator`,
`GraphOutputs`, `GraphTheorems`). The validator, with its depth-first searches written as loops over mutable
sets, reports nothing exactly when a declarative predicate `Accepted` holds. From `Accepted`
alone follow the structured meaning of a graph: runs (maximal paths from the entry) visit a step
at most once; no output of a step is used twice; a FOR_EACH dominates its body and Done post-dominates it; in every run the body is
one block right after the FOR_EACH and right before Done; the three parts of a TRY_CATCH are
disjoint and run in order; and the regions of any two control steps are nested or disjoint.

**Structured workflows** (`Flows`, `FlowRegions`, `FlowSteps`, `FlowGraphs`). Conversely, every term
built from steps, sequences, branches, loops and error handling is laid out as a graph, and the
graph is accepted if and only if no key is used twice, no loop stands inside a loop and no
TRY_CATCH inside a part of another.

**References between steps** (`StepScope`, `StepExpressions`, `ReferenceTheorems`). The scope of
a step is exactly its proper ancestors, less what other regions hide. In a validated workflow
every `steps.K` points to a proper ancestor, references form no circle, none leads into a region
from outside, and resolving a configuration depends on the outputs of proper ancestors only.

**Expressions** (`Templates`, `TemplateLaws`, `TemplateCache`, `Resolver`, `ResolverLaws`,
`ExpressionValidator`, `ExpressionTheorems`). The language of the template parser is described
exactly and printing is its inverse; the cache is transparent exactly when the entry fits the
caller's limits; strict and legacy resolution agree where both succeed; each succeeds exactly
under a stated condition; the validator passes exactly the allowed paths.

**Publishing** (`Publishing`, `PublishingRace`). After any sequence of actions the calls between
active versions are acyclic, and the check rejects exactly the versions that would close a cycle.
When check and transaction are separate steps, as in the code, the calls stay acyclic throughout a
run if and only if no transaction is crossed by another publication in a stated way.

**Refresh sessions** (`RefreshSessions`, `RefreshOutcomes`), **webhooks** (`WebhookIdempotency`, `WebhookRecovery`)
and **scheduled triggers** (`ScheduledSlots`, `ScheduledOverlap`) are state machines in which any
number of callers interleave, one query or transaction per step. An invariant holds in every
reachable state; the classes beside them carry out whole calls on mutable rows and are proved to
do what the steps do, with every outcome stated by the condition under which a caller gets it. For webhooks it is shown exactly when an unpublished job can still be
published; for triggers, exactly when a claim lets two executions run at once.

**Version diffs** (`SortedKeys`, `CanonicalJson`, `VersionDiff`, `VersionChanges`, `VersionPatch`). It is shown
exactly when the diff is empty and exactly when applying it as a patch gives the new value,
including the names that objects inherit; which paths it reports, in which order, and what each
change shows or hides; swapping the arguments swaps the diff.

**Smaller pieces**: trimming of webhook payloads (`PayloadLimits`), the event sanitizer and the
UTF-8 length (`EventSanitizer`, `SanitizerLaws`), paging through a timeline (`Timeline`), and the fixed-window
limiter (`RateLimit`).

## Where the code and what it suggests differ

- A TRY_CATCH without Finally is always rejected, although Finally is counted as optional:
  the empty Finally region is reported (graph-validation.ts:319 and 329-331). `GraphTheorems.TryIsComplete`.
- The tests that an edge escapes a region can never fire, since a region is closed under edges
  (graph-validation.ts:281 and 337). `Traversal.RegionClosed`, `GraphValidator.EscapeIssues`.
- Edge identifiers join keys by colons, so with colons in keys two different edges may count as
  one (graph-validation.ts:457-459): `FlowGraphs.ColonsClash`. So do the outputs of steps, and a case of
  one step may take the output of another (graph-validation.ts:98-102): `GraphOutputs.CaseTakesOutput`;
  without colons neither happens: `GraphOutputs.EdgesOkExactly`.
- A version is checked before the transaction that publishes it, so two workflows that call each
  other can both be published: `PublishingRace.CycleIsReached`; exactly when a transaction closes a
  cycle: `PublishingRace.CommitExactly`.
- The template cache is keyed by the source alone. A call with tighter limits gets an answer that
  its own limits refuse: `TemplateCache.StaleAnswer`; exactly when it does not:
  `TemplateCache.CacheIsFresh`.
- The cache never drops the empty string, and while it is the oldest key nothing else is
  dropped either: `TemplateCache.NoBound`; the exact step where the limit is passed:
  `TemplateCache.LimitIsPassed`.
- The last test for delimiters in the parser (parser.ts:42-44), the second test of local names
  (validator.ts:23-25) and the list of blocked connection fields (validator.ts:33) never decide
  anything. `TemplateLaws.PlainSource`, `ExpressionTheorems.AccessExact`, `ExpressionTheorems.ConnectionExact`.
- Segments may contain hyphens by their pattern (parser.ts:8), yet a path with a hyphen is
  refused before its segments are looked at (parser.ts:60). `ExpressionTheorems.PathLanguage`.
- A string with `}}` and without `{{` passes validation and fails to resolve:
  `ExpressionTheorems.StrayIsAccepted`; exactly these do: `ExpressionTheorems.ValidatedResolves`.
- A duplicate webhook request may be told "accepted" before the job is published:
  `WebhookIdempotency.AcceptedBeforePublished`; exactly while the key is PROCESSING:
  `WebhookRecovery.StatusTells`.
- A webhook key can stay PROCESSING for ever, its job never published and its duplicates accepted:
  `WebhookRecovery.StuckForever`; exactly when the job can still be published:
  `WebhookRecovery.PublishableExactly`.
- A scheduled trigger whose definition is rejected never moves on: `ScheduledSlots.DueSlotMovesOn`.
- `skip_if_running` does not keep executions apart: `ScheduledOverlap.OverlapIsReached`; exactly
  when a claim lets two run: `ScheduledOverlap.OverlapExactly`.
- The diff looks names up with `in`, which finds inherited ones. Different values may have an empty
  diff: `VersionDiff.EmptyProtoIsUnseen`; exactly which: `VersionDiff.DiffEmpty`. A removed
  `toString` is reported as modified: `VersionPatch.ToStringIsModified`; exactly when the diff is
  a patch: `VersionPatch.PatchDiff`.
- The sanitizer assigns `output["__proto__"]`, so a field of that name is lost and not reported as
  omitted: `EventSanitizer.SetterIsLost`; exactly then: `EventSanitizer.KeptIsRedacted`.
- A page of a timeline that ends between two events that compare equal loses the later one:
  `Timeline.TieIsLost`; exactly then: `Timeline.ShownExactly`, `Timeline.AlwaysShownExactly`.
- Event data that is not an object is replaced by an empty object and not reported as omitted:
  `EventSanitizer.NonObjectIsDropped`.
- The limiter allows at most 39, not 40, tests in any closed minute, and 39 do occur:
  `RateLimit.SlidingBound`, `RateLimit.BoundIsReached`.

## Model

| member | source | states |
|---|---|---|
| Traversal.Walk.Visit | packages/shared-types/src/graph-validation.ts:432-440 | the search ends, keeps what was seen, and every node it adds is reached without touching the stop and has all its targets handled |
| Traversal.Descendants | packages/shared-types/src/graph-validation.ts:429-441 | the result is exactly the nodes on paths that avoid the stop, each once |
| Traversal.Search.Visit | packages/shared-types/src/graph-validation.ts:446-453 | a find means the target is reachable; otherwise the closed set of seen nodes does not hold it |
| Traversal.CanReach | packages/shared-types/src/graph-validation.ts:443-455 | true exactly when there is a path |
| Traversal.CycleSearch.Visit | packages/shared-types/src/graph-validation.ts:383-393 | the stack stays a path, finished nodes are ordered children first, and a report comes only with a cycle |
| Traversal.FindCycles | packages/shared-types/src/graph-validation.ts:378-396 | a cycle is reported if and only if the edges have one |
| Traversal.RegionClosed | packages/shared-types/src/graph-validation.ts:279-282 | an edge out of a region stays inside or ends at the stop, so the escape test cannot fire |
| GraphModel.AdjacencyMap | packages/shared-types/src/graph-validation.ts:418-427 | the map lists the targets of every step in order and has exactly the arcs of the edges |
| GraphValidator.StepIssues | packages/shared-types/src/graph-validation.ts:56-69 | no issue exactly when keys and non-empty ids are unique |
| GraphValidator.OneEdgeIssues | packages/shared-types/src/graph-validation.ts:83-102 | no issue exactly when the edge is valid, new, no self loop and its output is free; which of the four issues it draws |
| GraphValidator.EdgeIssues | packages/shared-types/src/graph-validation.ts:79-104 | no issue exactly when every edge is valid and repeats no earlier edge or output |
| GraphOutputs.ValueReads | packages/shared-types/src/graph-validation.ts:482-484 | a given end, kind or case key is read without the white space around it, and blank text as absent |
| GraphOutputs.OutputsTell | packages/shared-types/src/graph-validation.ts:461-478 | edges of known kinds share an output if and only if they are of one kind, with one case key if cases, or are both Body or both Done edges |
| GraphOutputs.IdTells | packages/shared-types/src/graph-validation.ts:457-459 | without colons in keys and kinds and arrows in case keys, two edges have one identifier if and only if origin, kind, case key and target agree |
| GraphOutputs.EdgesOkExactly | packages/shared-types/src/graph-validation.ts:79-104 | for keys without colons: the edge checks pass if and only if every edge joins two different steps by a known kind, and no two have one identifier or leave one step by the same output |
| GraphOutputs.CaseTakesOutput | packages/shared-types/src/graph-validation.ts:98-102 | with colons in keys, a case of one step and a plain edge of another step count as one output |
| GraphValidator.UnreachableSteps | packages/shared-types/src/graph-validation.ts:398-408 | names exactly the steps the entry does not reach |
| GraphValidator.CycleIssues | packages/shared-types/src/graph-validation.ts:106-107 | with valid edges, an issue if and only if the edge relation has a cycle |
| GraphValidator.EscapeIssues | packages/shared-types/src/graph-validation.ts:279-282 | never reports anything |
| GraphValidator.RegionIssues | packages/shared-types/src/graph-validation.ts:275-283 | no issue exactly when no step of the region has the forbidden kind and each reaches the boundary |
| GraphValidator.LoopRegionIssues | packages/shared-types/src/graph-validation.ts:268-291 | no issue exactly when the body is a well-formed loop region |
| GraphValidator.ValidateForEach | packages/shared-types/src/graph-validation.ts:254-292 | no issue exactly when the FOR_EACH has one Body and one Done edge, no others, and a well-formed region |
| GraphValidator.OverlapIssues | packages/shared-types/src/graph-validation.ts:341-343 | counting memberships reports nothing exactly when the three parts are pairwise disjoint |
| GraphValidator.EntryIssues | packages/shared-types/src/graph-validation.ts:344-353 | no issue exactly when every edge into a part comes from the header or converges as allowed |
| GraphValidator.TryRegionIssues | packages/shared-types/src/graph-validation.ts:324-353 | no issue exactly when there is a Finally and the three parts are well formed |
| GraphValidator.ValidateTryCatch | packages/shared-types/src/graph-validation.ts:310-354 | no issue exactly when the four kinds of edges are present as required and the parts are well formed |
| GraphValidator.ValidateStep | packages/shared-types/src/graph-validation.ts:111-126 | no issue exactly when the step is acceptable in its graph |
| GraphValidator.WholeGraphIssues | packages/shared-types/src/graph-validation.ts:51-109 | no issue exactly when keys, ids, entry and edges are right, there is no cycle and every step is reachable |
| GraphValidator.ValidateGraph | packages/shared-types/src/graph-validation.ts:50-129 | the issue list is empty if and only if there is a graph and it is Accepted |
| GraphTheorems.RunsAreBounded | packages/shared-types/src/graph-validation.ts:106-109 | a path from the entry of an accepted graph has no repeat and at most as many nodes as there are steps |
| GraphTheorems.PathsExtendToRuns | packages/shared-types/src/graph-validation.ts:106-109 | every path from the entry is the start of a run |
| GraphTheorems.StepsAreCurrent | packages/shared-types/src/graph-validation.ts:111-114 | an accepted graph has no step of the legacy kind and none with issues of its own |
| GraphTheorems.TargetIsFirst | packages/shared-types/src/graph-validation.ts:159-183 | the target of a kind is that of the first edge of that kind out of the step |
| GraphTheorems.LoopArcs | packages/shared-types/src/graph-validation.ts:256-262 | an accepted FOR_EACH leads to the start of its body and to Done, and nowhere else |
| GraphTheorems.TryArcs | packages/shared-types/src/graph-validation.ts:310-331 | an accepted TRY_CATCH leads to its four entries, and nowhere else |
| GraphTheorems.LoopDominatesBody | packages/shared-types/src/graph-validation.ts:254-292 | the FOR_EACH dominates every body step, Done post-dominates it, body edges stay or go to Done, the entry is outside |
| GraphTheorems.LoopRunsAsOneBlock | packages/shared-types/src/graph-validation.ts:254-292 | in every run the body steps are one block between the FOR_EACH and Done |
| GraphTheorems.TryIsComplete | packages/shared-types/src/graph-validation.ts:310-331 | an accepted TRY_CATCH has a Finally edge and well-formed parts |
| GraphTheorems.TryPartsDisjoint | packages/shared-types/src/graph-validation.ts:330-343 | Body, Catch and Finally are pairwise disjoint, without the TRY step and without another TRY_CATCH |
| GraphTheorems.TryPartsEntered | packages/shared-types/src/graph-validation.ts:344-353 | each part is entered only at its entry, from the TRY step or, for Finally, from Body and Catch |
| GraphTheorems.TryIsControlled | packages/shared-types/src/graph-validation.ts:310-354 | the three parts together are one region from the TRY step to Done |
| GraphTheorems.TryDominatesParts | packages/shared-types/src/graph-validation.ts:310-354 | the TRY step dominates all parts, Done post-dominates them, Finally post-dominates Body and Catch |
| GraphTheorems.TryRunsInOrder | packages/shared-types/src/graph-validation.ts:310-354 | a run through Body or Catch shows TRY, that part, the Finally entry, Finally, Done, and nothing else of the TRY_CATCH |
| GraphTheorems.RegionsAreLaminar | packages/shared-types/src/graph-validation.ts:254-354 | regions of two control steps are nested or disjoint, and disjoint when of one kind |
| Flows.StepKeys | packages/shared-types/src/graph-validation.ts:56-69 | the steps of a flow have exactly its keys, each once if and only if its parts are kept apart |
| Flows.Forward | packages/shared-types/src/graph-validation.ts:378-396 | every edge of a laid out flow leads to a later step |
| FlowRegions.FlowIsConnected | packages/shared-types/src/graph-validation.ts:398-455 | the entry of a flow leads to each of its steps and each leads on to the step behind, without leaving before |
| FlowRegions.RegionIsFlow | packages/shared-types/src/graph-validation.ts:429-441 | wherever a flow stands, the region between its entry and the step behind holds exactly its steps |
| FlowSteps.LoopExactly | packages/shared-types/src/graph-validation.ts:254-292 | wherever it stands, a FOR_EACH laid out from a term is accepted if and only if its body has no FOR_EACH |
| FlowSteps.TryExactly | packages/shared-types/src/graph-validation.ts:310-354 | wherever it stands, a TRY_CATCH laid out from a term is accepted if and only if no part has a TRY_CATCH |
| FlowSteps.StepsExactly | packages/shared-types/src/graph-validation.ts:111-126 | wherever a flow stands, all its steps are accepted if and only if it is nested as allowed |
| FlowGraphs.OneEachOk | packages/shared-types/src/graph-validation.ts:79-104 | links without colons in their keys and with different outputs pass the edge checks |
| FlowGraphs.ColonsClash | packages/shared-types/src/graph-validation.ts:457-459 | with colons in keys, different edges with one identifier |
| FlowGraphs.LayoutIsAccepted | packages/shared-types/src/graph-validation.ts:50-129 | the graph of a structured workflow is accepted if and only if no key is used twice and loops and error handling are nested as allowed |
| FlowGraphs.LoopIsAccepted | packages/shared-types/src/graph-validation.ts:254-292 | a graph with a FOR_EACH over one step is accepted |
| FlowGraphs.TryIsAccepted | packages/shared-types/src/graph-validation.ts:310-354 | a graph with a TRY_CATCH of three steps is accepted |
| Regions.RunHasOneBlock | packages/shared-types/src/graph-validation.ts:254-292 | in any acyclic graph the steps of a controlled region are one block of a run |
| Regions.Laminar | packages/shared-types/src/graph-validation.ts:254-354 | controlled regions with different headers are nested or disjoint |
| StepScope.ReverseMap | packages/shared-types/src/graph-validation.ts:192-198 | the map has exactly the reversed arcs |
| StepScope.Ancestry.Visit | packages/shared-types/src/graph-validation.ts:200-206 | the search ends; everything added lies beyond the step and has its own parents seen |
| StepScope.GraphAvailableStepKeys | packages/shared-types/src/graph-validation.ts:187-210 | exactly the proper ancestors; without edges, the steps listed before |
| StepScope.ForEachRegions | packages/shared-types/src/graph-validation.ts:159-170 | lists exactly the body of every FOR_EACH with two different targets |
| StepScope.TryKeys | packages/shared-types/src/graph-validation.ts:174-183 | exactly the Catch and Finally steps of one TRY_CATCH |
| StepScope.TryCatchRegions | packages/shared-types/src/graph-validation.ts:172-185 | lists exactly the Catch and Finally steps of every TRY_CATCH |
| StepScope.HideRegions | apps/api/src/workflows/workflows.service.ts:476-482 | keeps exactly the keys whose regions also hold the current step |
| StepExpressions.ScopeIn | apps/api/src/workflows/workflows.service.ts:475-482 | exactly the earlier steps that no region hides |
| StepExpressions.LocalsIn | apps/api/src/workflows/workflows.service.ts:483-487 | item and index for transforms and loop bodies, error inside Catch |
| StepExpressions.StepContext | apps/api/src/workflows/workflows.service.ts:475-488 | the context a step is checked in is the one its place in the graph gives |
| StepExpressions.ValidateExpressions | apps/api/src/workflows/workflows.service.ts:470-491 | passes exactly when the configuration of every step reads only what its scope allows |
| ReferenceTheorems.ReferenceIsEarlier | apps/api/src/workflows/workflows.service.ts:473-490 | without a graph, a reference names a step listed earlier |
| ReferenceTheorems.ReferenceIsAncestor | packages/expression-engine/src/validator.ts:76-92 | in an accepted graph every reference names a proper ancestor that is a step |
| ReferenceTheorems.ReferenceRunsFirst | apps/api/src/workflows/workflows.service.ts:470-491 | in every path with both, the step referred to comes first |
| ReferenceTheorems.ReferencesAreAcyclic | apps/api/src/workflows/workflows.service.ts:470-491 | references between steps form no circle |
| ReferenceTheorems.RegionsArePrivate | apps/api/src/workflows/workflows.service.ts:476-482 | no step outside a loop body, a Catch or a Finally refers into it |
| ReferenceTheorems.StepReadsAncestors | apps/api/src/workflows/workflows.service.ts:470-491 | scopes that agree on proper ancestors and on the other namespaces resolve a step's configuration alike |
| ReferenceTheorems.ScopeExactly | apps/api/src/workflows/workflows.service.ts:475-482 | in an accepted graph the scope of a step is exactly its proper ancestors that no loop body, Catch or Finally without the step holds |
| ReferenceTheorems.ListScopeExactly | apps/api/src/workflows/workflows.service.ts:473-475 | without a graph the scope of a step is exactly the steps listed before it, and exactly transforms have item and index |
| ReferenceTheorems.LocalsExactly | apps/api/src/workflows/workflows.service.ts:483-487 | item and index are local exactly in transforms and loop bodies, error exactly in a Catch |
| ReferenceTheorems.OutputIsReadable | apps/api/src/workflows/workflows.service.ts:475-490 | the output of a step passes the check of another if and only if it is in the scope and not its own |
| ReferenceTheorems.SharedIsReadable | apps/api/src/expressions/expressions.service.ts:32 | every step may read metadata, and of a connection exactly its id, name and type |
| Templates.ParsePath | packages/expression-engine/src/parser.ts:55-94 | the loop finds the first error; an accepted path is its segments joined, none forbidden |
| Templates.JoinSplit | packages/expression-engine/src/parser.ts:63 | joining the segments gives the path back |
| Templates.PathIsPlain | packages/expression-engine/src/parser.ts:60-88 | an accepted path has only letters, digits, underscores, hyphens and dots, so neither space nor brace |
| Templates.ScanNext | packages/expression-engine/src/parser.ts:24-33 | one turn reads the text before the next expression and the expression, or fails as the whole parse does |
| Templates.ScanTail | packages/expression-engine/src/parser.ts:35-41 | the rest is one text part, or fails when it has a delimiter |
| Templates.Scan | packages/expression-engine/src/parser.ts:18-46 | the scanning loop computes the parse of the source |
| TemplateLaws.UnchopChop | packages/expression-engine/src/parser.ts:21-34 | the matches of the delimiter pattern cut every text without losing anything |
| TemplateLaws.ChopUnchop | packages/expression-engine/src/parser.ts:21-34 | pieces that are kept apart are found again |
| TemplateLaws.ChopIsExact | packages/expression-engine/src/parser.ts:21-34 | a text is cut into pieces exactly when they are kept apart and join to it |
| TemplateLaws.ReadIsExact | packages/expression-engine/src/parser.ts:23-41 | pieces read as parts exactly when they spell them, the paths are accepted, the tail is clean and the count fits |
| TemplateLaws.ParserIsExact | packages/expression-engine/src/parser.ts:14-53 | a source parses to given parts if and only if they are canonical and the source spells them |
| TemplateLaws.PrintThenParse | packages/expression-engine/src/parser.ts:14-53 | printing parts and parsing gives them back if and only if they are canonical |
| TemplateLaws.ParseThenPrint | packages/expression-engine/src/parser.ts:14-53 | every accepted template keeps its parts when printed and parsed again |
| TemplateLaws.TextHasNoOpening | packages/expression-engine/src/parser.ts:24-41 | no text part contains an opening delimiter |
| TemplateLaws.PlainSource | packages/expression-engine/src/parser.ts:42-44 | without expressions the source has no delimiter, so the last test never fires |
| TemplateLaws.PathLimits | packages/expression-engine/src/parser.ts:57-83 | a path accepted under some options is accepted alike under others exactly when it fits them |
| TemplateLaws.LimitsOnly | packages/expression-engine/src/parser.ts:14-46 | a source that parses under some options parses the same under others if it fits them, and else fails |
| TemplateCache.Cache.ParseTemplate | packages/expression-engine/src/parser.ts:14-53 | the answer and the new entries, with eviction that spares the empty key |
| TemplateCache.RunIsFrom | packages/expression-engine/src/parser.ts:46-51 | after any calls, every entry is what some call parsed |
| TemplateCache.CacheIsFresh | packages/expression-engine/src/parser.ts:15-16 | after any calls, the answer equals a fresh parse if and only if the source is not cached or its entry fits the options |
| TemplateCache.SameOptionsAreFresh | packages/expression-engine/src/parser.ts:15-16 | with one set of options, the answer always equals a fresh parse |
| TemplateCache.AnswersAgree | packages/expression-engine/src/parser.ts:14-53 | successful answers for a source agree across histories and options |
| TemplateCache.StaleAnswer | packages/expression-engine/src/parser.ts:15-16 | a cached template is returned under limits that refuse it |
| TemplateCache.OverOnlyBehindEmpty | packages/expression-engine/src/parser.ts:48-51 | the cache is over its limit only with the empty string as oldest key |
| TemplateCache.LimitHolds | packages/expression-engine/src/parser.ts:48-51 | if the empty string is never parsed, at most 500 entries |
| TemplateCache.NoBound | packages/expression-engine/src/parser.ts:48-51 | after the empty string, n further sources leave n + 1 entries, for every n |
| TemplateCache.RecentIsHeld | packages/expression-engine/src/parser.ts:46-51 | a newly cached source is still cached after any 499 further calls |
| Resolver.ReadPath | packages/expression-engine/src/resolver.ts:63-77 | the loop finds the value under the path, or that there is none |
| Resolver.LookupAppend | packages/expression-engine/src/resolver.ts:63-77 | looking up a path is looking up its front and then its rest |
| Resolver.Interpolate | packages/expression-engine/src/resolver.ts:37-59 | the loop joins what the parts contribute, or fails at the first that is missing |
| Resolver.ResolveTemplate | packages/expression-engine/src/resolver.ts:21-60 | a single expression gives the value itself, several parts give text |
| ResolverLaws.SegmentReads | packages/expression-engine/src/resolver.ts:63-77 | the decimal digits of n read item n of an array or nothing; other segments read nothing of an array; a key reads its field of an object |
| ResolverLaws.ExpressionReads | packages/expression-engine/src/resolver.ts:15-36 | an expression alone gives the value found, of any type; if none is found, the empty string in legacy mode and a failure in strict mode |
| ResolverLaws.TextReads | packages/expression-engine/src/resolver.ts:37-59 | between text, an expression contributes a string as it is and other values as they are written; a missing value and a null contribute nothing in legacy mode and fail in strict mode |
| ResolverLaws.PlainIsItself | packages/expression-engine/src/resolver.ts:15-17 | a string without delimiters gives itself |
| ResolverLaws.FillAppend | packages/expression-engine/src/resolver.ts:37-59 | the text of joined parts is the joined text, and the first failure wins |
| ResolverLaws.StrictIsLegacy | packages/expression-engine/src/resolver.ts:6-60 | where strict resolution succeeds, legacy gives the same value |
| ResolverLaws.LegacySucceeds | packages/expression-engine/src/resolver.ts:6-60 | legacy resolution succeeds if and only if every string parses, in every scope |
| ResolverLaws.StrictSucceeds | packages/expression-engine/src/resolver.ts:6-60 | strict resolution succeeds if and only if every string parses and every expression is found, not null inside text |
| ResolverLaws.ShapeIsKept | packages/expression-engine/src/resolver.ts:6-13 | arrays and objects keep their positions and keys, each with its own resolved value; other values are unchanged |
| ResolverLaws.ResolveReads | packages/expression-engine/src/resolver.ts:6-77 | scopes that agree on the paths of a value resolve it alike |
| ExpressionValidator.ValidateParts | packages/expression-engine/src/validator.ts:13-58 | the loop gathers the issues of every expression in order |
| ExpressionValidator.ValidateExpressionString | packages/expression-engine/src/validator.ts:9-64 | the issues of a string; valid exactly when there are none |
| ExpressionValidator.Collector.Visit | packages/expression-engine/src/validator.ts:94-106 | the visitor adds the issues of every string with an opening delimiter |
| ExpressionValidator.ValidateExpressionsInValue | packages/expression-engine/src/validator.ts:66-74 | the issues of a value; valid exactly when there are none |
| ExpressionTheorems.SplitJoin | packages/expression-engine/src/parser.ts:63 | splitting takes joined segments apart again |
| ExpressionTheorems.PathLanguage | packages/expression-engine/src/parser.ts:55-94 | joined segments are accepted if and only if each is a word without hyphen or a small index, none is forbidden, and length and depth fit |
| ExpressionTheorems.ForbiddenExactly | packages/expression-engine/src/parser.ts:55-94 | a path is refused as forbidden if and only if its shape is fine and a forbidden name comes before any other bad segment |
| ExpressionTheorems.UnderTwo | packages/expression-engine/src/validator.ts:51 | a prefix of two segments is seen in the text exactly when it is seen in the segments |
| ExpressionTheorems.TriggerExact | packages/expression-engine/src/validator.ts:49-57 | the trigger tests pass exactly the allowed trigger fields |
| ExpressionTheorems.ConnectionExact | packages/expression-engine/src/validator.ts:32-36 | exactly connection.id, .name and .type pass; the blocked names decide nothing |
| ExpressionTheorems.AccessExact | packages/expression-engine/src/validator.ts:23-36 | for a known namespace the access tests pass exactly what is allowed; the second local test never fires |
| ExpressionTheorems.PathExact | packages/expression-engine/src/validator.ts:15-57 | a path draws no issue if and only if it is allowed |
| ExpressionTheorems.CodesTell | packages/expression-engine/src/validator.ts:15-92 | which of the four codes a path draws, each if and only if: unknown namespace, too short, step not available, not allowed |
| ExpressionTheorems.LocalsExact | packages/expression-engine/src/validator.ts:19-28 | local names pass exactly where they are local; of an error, exactly its seven fields |
| ExpressionTheorems.ValueExact | packages/expression-engine/src/validator.ts:66-74 | a value passes if and only if each of its templates parses and reads only allowed paths |
| ExpressionTheorems.IssuesTell | packages/expression-engine/src/validator.ts:9-106 | an issue is reported for a value if and only if a string in it does not parse, with that error, or names a path that draws it |
| ExpressionTheorems.MentionedIsAllowed | packages/expression-engine/src/validator.ts:66-74 | every path mentioned in a validated value is allowed |
| ExpressionTheorems.ValidatedResolves | packages/expression-engine/src/validator.ts:66-74 | a validated value resolves in legacy mode, in every scope, if and only if no string has a stray closing delimiter |
| ExpressionTheorems.StrayIsAccepted | packages/expression-engine/src/validator.ts:69 | the string of two closing braces passes validation and fails to resolve |
| ExpressionTheorems.UnavailableIsUnseen | packages/expression-engine/src/validator.ts:76-92 | resolving a validated value does not depend on steps that were not available |
| Publishing.AssertNoPublishedCycle | apps/api/src/workflows/workflows.service.ts:458-468 | the recursion ends and passes exactly when no path from the target repeats a workflow or meets the ancestry |
| Publishing.SafeMeansUnreachable | apps/api/src/workflows/workflows.service.ts:458-468 | in an acyclic graph the check asks whether the target leads back to the source |
| Publishing.ValidateSubworkflowReferences | apps/api/src/workflows/workflows.service.ts:443-456 | passes exactly when every call names another workflow with a published version and closes no cycle |
| Publishing.ReplacedAcyclic | apps/api/src/workflows/workflows.service.ts:458-468 | replacing a workflow's calls keeps the graph acyclic if and only if no new target leads back |
| Publishing.CheckIsExact | apps/api/src/workflows/workflows.service.ts:443-468 | among versions that are otherwise publishable, the check rejects exactly those that would close a cycle |
| Publishing.PublishKeepsGood | apps/api/src/workflows/workflows.service.ts:291-321 | publishing keeps rows consistent and calls acyclic |
| Publishing.AlwaysAcyclic | apps/api/src/workflows/workflows.service.ts:266-322 | after any sequence of creations, drafts and activations the calls of active versions are acyclic |
| Publishing.PublishedExactly | apps/api/src/workflows/workflows.service.ts:266-303 | a version is publishable if and only if it is a valid draft that was never activated, each of its calls selects a published version of another workflow, and publishing it leaves the calls acyclic |
| Publishing.AlwaysAnswering | apps/api/src/workflows/workflows.service.ts:443-456 | after any sequence of actions every version that was ever published is valid and all its calls still select published versions |
| Publishing.Store.ActivateVersion | apps/api/src/workflows/workflows.service.ts:266-322 | succeeds exactly for publishable drafts and then archives the active version and points the workflow to the new one |
| PublishingRace.AlwaysInv | apps/api/src/workflows/workflows.service.ts:266-322 | with check and transaction apart, rows stay consistent and no checked version leads back along calls unchanged since its check |
| PublishingRace.CommitExactly | apps/api/src/workflows/workflows.service.ts:278-303 | a transaction closes a cycle if and only if a new target leads to a workflow published since the check that leads back |
| PublishingRace.AcyclicExactly | apps/api/src/workflows/workflows.service.ts:266-322 | the calls stay acyclic throughout a run if and only if no transaction of the run is so crossed |
| PublishingRace.CycleIsReached | apps/api/src/workflows/workflows.service.ts:278-303 | two workflows that call each other, both checked before either is published, end in a cycle |
| RefreshSessions.AlwaysInv | apps/api/src/auth/auth.service.ts:70-201 | in every interleaving families are chains and every call in flight knows what it may rely on |
| RefreshSessions.ReuseKillsFamily | apps/api/src/auth/auth.service.ts:100-160 | two completed refreshes of one token leave the whole family revoked, and at most one got a successor |
| RefreshSessions.FamilyIsChain | apps/api/src/auth/auth.service.ts:123-144 | each family is one replacement chain in which only the last session may be unrevoked |
| RefreshSessions.AtMostOneLive | apps/api/src/auth/auth.service.ts:123-144 | at most one unrevoked session per family |
| RefreshSessions.LiveCountNeverRises | apps/api/src/auth/auth.service.ts:174-201 | the number of unrevoked sessions of a family never rises |
| RefreshSessions.DeadForever | apps/api/src/auth/auth.service.ts:311-316 | a family without unrevoked sessions stays so |
| RefreshSessions.AloneDeserves | apps/api/src/auth/auth.service.ts:82-160 | exactly one outcome is deserved: invalid, reuse, expired, failed or rotated, each by its own condition; and what it leaves of every row |
| RefreshOutcomes.OutcomeHasCause | apps/api/src/auth/auth.service.ts:82-160 | in every interleaving, the rows, user and clock that a finished call read explain its outcome |
| RefreshOutcomes.OnlyGenuineRotates | apps/api/src/auth/auth.service.ts:83-144 | in every interleaving, a successor is given only for a genuine token of a session that was open, unexpired and of an active user when it was read |
| RefreshOutcomes.SignOutExactly | apps/api/src/auth/auth.service.ts:174-193 | signing out revokes the named session if it is the user's own, signing out everywhere all of the user's, and nothing else changes |
| RefreshOutcomes.SignOutIsFinal | apps/api/src/auth/auth.service.ts:174-187 | after signing out of an open session, its family never has an open session again, whatever calls are in flight |
| RefreshOutcomes.SignOutEverywhereIsFinal | apps/api/src/auth/auth.service.ts:189-193 | after signing out everywhere, no family of the user ever has an open session again |
| RefreshSessions.Sessions.CreateSession | apps/api/src/auth/auth.service.ts:260-274 | the rows gain one open session in a family of its own, and no other row changes |
| RefreshSessions.Sessions.RevokeTokenFamily | apps/api/src/auth/auth.service.ts:311-316 | revokes every session of the family and nothing else |
| RefreshSessions.Sessions.RotateTransaction | apps/api/src/auth/auth.service.ts:123-144 | creates the successor and closes the session if it is still open, else changes nothing |
| RefreshSessions.Sessions.Refresh | apps/api/src/auth/auth.service.ts:70-172 | each outcome if and only if the token deserves it, judged by the rows, the user and the clock; which rows are revoked or added; the same as its steps in the protocol |
| WebhookIdempotency.DoKeeps | apps/api/src/webhooks/webhooks.service.ts:106-211 | every step keeps the invariant and no stored hash or execution changes |
| WebhookIdempotency.AlwaysInv | apps/api/src/webhooks/webhooks.service.ts:106-211 | the invariant holds after every interleaving |
| WebhookIdempotency.OneExecutionPerKey | apps/api/src/webhooks/webhooks.service.ts:316-389 | at most one execution is created for a key |
| WebhookIdempotency.AcceptedAgree | apps/api/src/webhooks/webhooks.service.ts:106-158 | accepted requests on a key have one hash and are told the stored execution |
| WebhookIdempotency.ConflictExactly | apps/api/src/webhooks/webhooks.service.ts:106-130 | in every interleaving, a finished request was refused as a conflict if and only if its key is stored with another hash |
| WebhookIdempotency.LookExactly | apps/api/src/webhooks/webhooks.service.ts:106-126 | a request that finds its key with its own hash is told the stored execution and status at once, or sends the job again exactly if the key is FAILED |
| WebhookIdempotency.AloneAnswers | apps/api/src/webhooks/webhooks.service.ts:106-211 | a request without interleaving gets the one reply that fits, and writes the key, the execution and the job accordingly |
| WebhookIdempotency.StoredNeverChanges | apps/api/src/webhooks/webhooks.service.ts:316-422 | the hash and the execution of a key never change |
| WebhookIdempotency.EnqueuedIsPublished | apps/api/src/webhooks/webhooks.service.ts:154-172 | a key marked ENQUEUED, or a reply given while it was, means the job was published |
| WebhookIdempotency.AcceptedBeforePublished | apps/api/src/webhooks/webhooks.service.ts:121-126 | a duplicate may be accepted before the job is published |
| WebhookRecovery.StatusTells | apps/api/src/webhooks/webhooks.service.ts:121-172 | the status behind an accepted reply means that the job is published if and only if it is not PROCESSING |
| WebhookRecovery.StuckForever | apps/api/src/webhooks/webhooks.service.ts:106-211 | once only stopped callers could publish a PROCESSING job, nothing later publishes it or changes the key, and every later request with its hash is accepted |
| WebhookRecovery.StuckIsReached | apps/api/src/webhooks/webhooks.service.ts:132-201 | a first request whose send fails and whose FAILED write is lost leads there, and so does one that stops before it sends |
| WebhookRecovery.PublishableExactly | apps/api/src/webhooks/webhooks.service.ts:106-211 | in every reachable state an unpublished job can still be published if and only if its key is FAILED or a call on it is about to send, to send again, to write FAILED, or to claim or look again with the same hash |
| WebhookIdempotency.Receiver.ClaimExecution | apps/api/src/webhooks/webhooks.service.ts:300-390 | creates the key and its execution in one step |
| WebhookIdempotency.Receiver.RetryFailedEnqueue | apps/api/src/webhooks/webhooks.service.ts:392-422 | publishes again and marks the key only when both succeed |
| WebhookIdempotency.Receiver.ReceiveDuplicate | apps/api/src/webhooks/webhooks.service.ts:106-130 | a request on an existing key does what its steps do in the protocol |
| WebhookIdempotency.Receiver.ReceiveFirst | apps/api/src/webhooks/webhooks.service.ts:132-210 | a request on a new key does what its steps do in the protocol |
| WebhookIdempotency.Receiver.Receive | apps/api/src/webhooks/webhooks.service.ts:106-211 | each reply if and only if the key, its hash, its status and the queue call for it; what is written; the same as its steps in the protocol |
| ScheduledSlots.DoKeeps | apps/api/src/triggers/scheduled-triggers.service.ts:178-286 | every step keeps the invariant and the number of passed slots does not fall |
| ScheduledSlots.AlwaysInv | apps/api/src/triggers/scheduled-triggers.service.ts:178-286 | the invariant holds after every interleaving |
| ScheduledSlots.OneExecutionPerSlot | apps/api/src/triggers/scheduled-triggers.service.ts:225-278 | at most one execution per slot, none before its time |
| ScheduledSlots.NextSlotUnclaimed | apps/api/src/triggers/scheduled-triggers.service.ts:225-278 | the current slot is never already claimed |
| ScheduledSlots.PassedSlotsAccounted | apps/api/src/triggers/scheduled-triggers.service.ts:202-278 | every passed slot was executed or skipped on purpose, and nothing else was executed |
| ScheduledSlots.NeverBack | apps/api/src/triggers/scheduled-triggers.service.ts:368-372 | the current slot only moves forward |
| ScheduledSlots.DueSlotMovesOn | apps/api/src/triggers/scheduled-triggers.service.ts:178-286 | whatever happened before, a due call moves the trigger on if and only if the definition is not rejected; what it runs, skips or leaves as it was |
| ScheduledSlots.Trigger.AdvanceMissed | apps/api/src/triggers/scheduled-triggers.service.ts:368-372 | compare-and-set on the next slot |
| ScheduledSlots.Trigger.RunDue | apps/api/src/triggers/scheduled-triggers.service.ts:178-286 | the call without interleaving, with its own checks of the workflow and of active executions, does what its steps do in the protocol |
| ScheduledOverlap.AlwaysApart | apps/api/src/triggers/scheduled-triggers.service.ts:202-278 | in every interleaving, what runs for an earlier slot than another execution or a call past its check has a skipped slot |
| ScheduledOverlap.OverlapNeedsSkip | apps/api/src/triggers/scheduled-triggers.service.ts:207-220 | of two executions that run at once, the earlier slot was also skipped |
| ScheduledOverlap.NoOverlapWithoutBoth | apps/api/src/triggers/scheduled-triggers.service.ts:207-220 | while no slot is both skipped and executed, at most one execution runs |
| ScheduledOverlap.OverlapExactly | apps/api/src/triggers/scheduled-triggers.service.ts:207-278 | a claim makes two executions run if and only if an execution of another slot runs and the earlier of the two slots was skipped, and whatever runs is of this kind; while no slot is both skipped and executed, the skipped one is that of the claim |
| ScheduledOverlap.OverlapIsReached | apps/api/src/triggers/scheduled-triggers.service.ts:207-278 | for every schedule, four calls that all make the check leave two executions running |
| SortedKeys.SortRises | apps/api/src/workflows/workflow-version-diff.ts:68 | sorting keeps exactly the keys, once each, in order |
| SortedKeys.SortSame | apps/api/src/workflows/workflow-version-diff.ts:121 | lists with the same keys sort to the same list |
| SortedKeys.LessExactly | apps/api/src/workflows/workflow-version-diff.ts:68 | one key comes before another if and only if it is a proper start of it or has the smaller code unit where they first differ |
| CanonicalJson.EqualIsSame | apps/api/src/workflows/workflow-version-diff.ts:121-122 | canonical forms are equal if and only if the values agree up to the order of keys |
| VersionDiff.DiffKey | apps/api/src/workflows/workflow-version-diff.ts:70-75 | one turn of the loop: added, removed or compared, with inherited names found on either side |
| VersionDiff.DiffSegments | apps/api/src/workflows/workflow-version-diff.ts:65-78 | the loop pushes the changes of the children in order and stops at the cap |
| VersionDiff.DiffFields | apps/api/src/workflows/workflow-version-diff.ts:62-78 | computes the diff; empty exactly when the values are alike |
| VersionDiff.DiffEmpty | apps/api/src/workflows/workflow-version-diff.ts:62-78 | at any depth, the diff is empty if and only if the values agree up to the order of keys and up to fields `__proto__` on one side that look like the root object |
| VersionDiff.RootEmpty | apps/api/src/workflows/workflow-version-diff.ts:71-75 | compared with the root object that every object inherits from, the diff is empty if and only if the value looks like it |
| VersionDiff.AlikeIsSame | apps/api/src/workflows/workflow-version-diff.ts:62-78 | for values without the key `__proto__`, alike means equal up to the order of keys |
| VersionDiff.EmptyYetDifferent | apps/api/src/workflows/workflow-version-diff.ts:71-75 | an added `__proto__` that looks like the root object leaves no trace |
| VersionDiff.EmptyProtoIsUnseen | apps/api/src/workflows/workflow-version-diff.ts:71-75 | adding `__proto__` with an empty object, or with one that holds `__proto__: null`, gives an empty diff |
| VersionDiff.DiffSwaps | apps/api/src/workflows/workflow-version-diff.ts:62-84 | swapping the arguments gives the same list with before and after, added and removed swapped, even at the cap |
| VersionChanges.DiffIsStart | apps/api/src/workflows/workflow-version-diff.ts:70-78 | the cap, applied at every level, keeps exactly the first 500 of all changes |
| VersionChanges.ReportedExactly | apps/api/src/workflows/workflow-version-diff.ts:62-78 | below the cap a path is reported if and only if the values part there: above it both are arrays or both objects and differ, and at it one side has nothing, or they differ and are no such pair or lie at depth 12; at the cap only such paths |
| VersionChanges.ChangesTell | apps/api/src/workflows/workflow-version-diff.ts:80-84 | every change names what stands under its path in both values: added, removed or modified accordingly, values shown in full, as too long or, when sensitive, not at all |
| VersionChanges.ChangesInOrder | apps/api/src/workflows/workflow-version-diff.ts:65-78 | changes come in the order of their paths, at most 500, none twice |
| VersionPatch.ChildPut | apps/api/src/workflows/workflow-version-diff.ts:72-75 | setting a child changes that child and no other |
| VersionPatch.PatchDiff | apps/api/src/workflows/workflow-version-diff.ts:62-84 | a diff below the cap, with nothing masked or truncated, applied to the old value gives the new one if and only if, wherever the diff looks into both, no inherited name is on the old side only and no object `__proto__` on the new side only |
| VersionPatch.OrdinaryIsPatchable | apps/api/src/workflows/workflow-version-diff.ts:62-84 | values without inherited names meet that condition |
| VersionPatch.RemovedYetModified | apps/api/src/workflows/workflow-version-diff.ts:71-82 | a removed field with an inherited name is reported as modified and stays when the diff is applied |
| VersionPatch.RemovedMethodIsModified | apps/api/src/workflows/workflow-version-diff.ts:71-82 | so it is for each of the eleven method names that objects inherit |
| VersionPatch.ToStringIsModified | apps/api/src/workflows/workflow-version-diff.ts:71-82 | so it is for `toString` |
| PayloadLimits.AcceptedIsUnchanged | apps/api/src/webhooks/webhooks.service.ts:487-531 | whatever the check accepts, the trimming with the same limits leaves unchanged |
| PayloadLimits.AcceptsExactly | apps/api/src/webhooks/webhooks.service.ts:487-518 | a payload is accepted if and only if size, depth, strings, arrays and the total number of keys are within the limits |
| PayloadLimits.UnchangedIsTrimmed | apps/api/src/webhooks/webhooks.service.ts:524-531 | trimming changes nothing if and only if every place is within the limits and the mark stands where the depth ends |
| PayloadLimits.SanitizeTwice | apps/api/src/webhooks/webhooks.service.ts:524-531 | trimming twice is trimming once |
| PayloadLimits.SanitizeTrims | apps/api/src/webhooks/webhooks.service.ts:524-531 | strings and arrays keep their start and objects their first fields, as long as the limits allow; what lies too deep becomes the mark |
| EventSanitizer.Sanitizer.Sanitize | packages/shared-types/src/internal-events.ts:104-119 | the recursion with shared counters computes the sanitized value and the final counters |
| EventSanitizer.NothingOmitted | packages/shared-types/src/internal-events.ts:104-119 | if nothing is reported omitted, the output is the input with sensitive values redacted and fields named `__proto__` dropped |
| EventSanitizer.KeptIsRedacted | packages/shared-types/src/internal-events.ts:115-116 | that is the redacted input if and only if no field `__proto__` stands outside a sensitive value |
| EventSanitizer.SetterIsLost | packages/shared-types/src/internal-events.ts:115-116 | a field `__proto__` is counted, lost and not reported |
| EventSanitizer.KeysAreCounted | packages/shared-types/src/internal-events.ts:112-113 | every key of the output was counted, up to the cap of 500 |
| EventSanitizer.OutputIsBounded | packages/shared-types/src/internal-events.ts:104-119 | the output respects the depth, array and string bounds |
| SanitizerLaws.SensitiveExactly | packages/shared-types/src/internal-events.ts:114-115 | a key hides its value if and only if the letters and digits of some stretch of it spell a name of the list, in either case |
| SanitizerLaws.OmittedExactly | packages/shared-types/src/internal-events.ts:104-119 | how far the shared counters move, and that omission is reported exactly when a visible string, array or depth is over its limit or the keys run out |
| SanitizerLaws.NothingReported | packages/shared-types/src/internal-events.ts:104-119 | nothing is reported if and only if every visible place is within the limits and there are at most 500 visible keys |
| SanitizerLaws.SanitizedTrims | packages/shared-types/src/internal-events.ts:104-119 | strings and arrays keep their start, objects their first fields, with sensitive values redacted; what lies too deep becomes the mark |
| SanitizerLaws.FieldsTrim | packages/shared-types/src/internal-events.ts:112-117 | fields are dropped from an object only once the 500 keys are used up |
| EventSanitizer.JsonBytes | packages/shared-types/src/internal-events.ts:122-126 | the loop counts the UTF-8 bytes of well-formed UTF-16 text |
| EventSanitizer.CountIsUtf8Length | packages/shared-types/src/internal-events.ts:125 | the count equals the length of the UTF-8 encoding (section 3 of RFC 3629) |
| EventSanitizer.SanitizeEventData | packages/shared-types/src/internal-events.ts:93-102 | the sanitized object, or the omission mark exactly when that is over 32768 bytes; reported as omitted exactly then or when trimming reported it; when nothing is omitted it is the redacted input exactly for objects without `__proto__` fields to lose |
| Timeline.CursorStandsForEvent | apps/api/src/executions/executions.service.ts:977-978 | a decoded cursor is the event without its message |
| Timeline.OrderIsBlind | apps/api/src/executions/executions.service.ts:976 | for every collation of ids the comparator ignores messages, so a cursor stands for its event |
| Timeline.SortedIsOrdered | apps/api/src/executions/executions.service.ts:381 | sorting gives the same events in order, ties or not |
| Timeline.SortedIsStable | apps/api/src/executions/executions.service.ts:381 | events that compare equal keep their order |
| Timeline.OrderExactly | apps/api/src/executions/executions.service.ts:976 | earlier timestamps first, then kinds by their priority, then ids; equal in all three is a tie |
| Timeline.StagesInOrder | apps/api/src/executions/executions.service.ts:975 | the kinds of events rank in the order of the stages of an execution; a kind without a rank counts as a request |
| Timeline.SortedByTime | apps/api/src/executions/executions.service.ts:381 | in the sorted timeline no event comes before one with an earlier timestamp |
| Timeline.FollowCursors | apps/api/src/executions/executions.service.ts:373-387 | following the cursors from the start ends with the pages of the sorted events; without ties, every event once, in order |
| Timeline.PageSeen | apps/api/src/executions/executions.service.ts:381-386 | the page for a cursor holds the first events behind the one it stands for |
| Timeline.RefusedExactly | apps/api/src/executions/executions.service.ts:978 | exactly the cursors of another version are refused |
| Timeline.ShownExactly | apps/api/src/executions/executions.service.ts:381-386 | for one limit, every event is shown if and only if no page ends between two that compare equal |
| Timeline.AlwaysShownExactly | apps/api/src/executions/executions.service.ts:381-386 | every event is shown for every limit if and only if no two compare equal |
| Timeline.TieIsLost | apps/api/src/executions/executions.service.ts:382-386 | of two events that compare equal, one to a page, the second is never shown |
| Timeline.ChangingTimeline | apps/api/src/executions/executions.service.ts:373-387 | pages from changing snapshots without ties never repeat or reorder events, and miss none that was there throughout |
| RateLimit.Limiter.Test | apps/api/src/connections/connections.service.ts:616-626 | the counter of an organization and user after the test, and when it is allowed |
| RateLimit.LogFollowsCounters | apps/api/src/connections/connections.service.ts:616-626 | the log of an organization and user follows their counter in the shared table |
| RateLimit.RefusedExactly | apps/api/src/connections/connections.service.ts:616-626 | a test is refused if and only if the last 20 allowed ones fill a window that the first of them opened at most 60 seconds before; else it is recorded |
| RateLimit.FortySpanMore | apps/api/src/connections/connections.service.ts:616-626 | forty allowed tests in a row span more than a window |
| RateLimit.SlidingBound | apps/api/src/connections/connections.service.ts:32-34 | for every history with a running clock, at most 39 allowed tests per organization and user in any closed minute |
| RateLimit.BoundIsReached | apps/api/src/connections/connections.service.ts:32-34 | a history with a running clock and 39 allowed tests in one closed minute |

## Left out

- Controllers, guards, Prisma, BullMQ, the web client, the AI service, mail and HTTP: rows are maps, a transaction is one atomic step, the queue is a set of job ids.
- Hashing, JWT and Argon2: a token is genuine or not, and new ids are fresh.
- Cron and time zones: the slot after a slot is a function that only moves forward.
- The checks of single steps (IF, SWITCH, APPROVAL, DELAY, WAIT_UNTIL, the options of FOR_EACH and of calls, the edges of steps that control nothing and of RETURN): each step carries the issues they report.
- `normalizeDefinition` (workflow-version-diff.ts:45-60): it drops ids and positions, fills in defaults and sorts edges and terminal keys before the diff.
- GraphValidator.ValidateForEach: the options of a FOR_EACH are among the issues its step carries, because they concern no other step.
- GraphValidator.ValidateStep: takes the issues of the step's own checks as given, for the same reason.
- GraphValidator.ValidateGraph: states when the issue list is empty, not the text and order of the issues, because only emptiness decides acceptance.
- StepScope.TryCatchRegions: leaves out the Body steps of the result, because the scope of a step reads the Catch and Finally steps only.
- Publishing.AlwaysAcyclic: speaks of the calls of active versions; a version that a pinned call selects may be another one, because the check follows active versions only. Validation and publication are one step; `PublishingRace` has them apart.
- PublishingRace.AlwaysInv: the queries of one check are one step.
- FlowGraphs.LayoutIsAccepted: keys have no colon and no surrounding white space, because edges are told apart by joined and trimmed text; SWITCH, APPROVAL and RETURN are not among the terms.
- Publishing.Store.ActivateVersion: the checks of a definition other than its calls are one flag of the version, because they do not look at other versions.
- WebhookIdempotency.Receiver.Receive: a call without interleaving, so its claim never meets a key that another call has just created; the protocol covers that case.
- WebhookIdempotency.EnqueuedIsPublished: says nothing about execution statuses, because they are also written unconditionally; keys are never deleted after their retention time; the five short waits for a response are one look, because a key and its response are created together.
- ScheduledSlots.AlwaysInv: holds for a trigger nobody edits, because edits rewrite the next slot without comparing.
- ScheduledOverlap.AlwaysApart: an execution that has ended stays ended, because the write back to QUEUED after a failed enqueue (scheduled-triggers.service.ts:305-308) is not modelled.
- VersionDiff.Diff: paths are sequences of segments, because dotted text is ambiguous; which paths are sensitive, how long a serialized value is and which names objects inherit as methods are parameters; a value that is too long is only marked as such, because its preview is a cut of the serialized text; names inherited by arrays only do not occur, because arrays are read by index; properties with an undefined value do not occur in JSON.
- The grouping and the findings of a version comparison around the diff: case tables over its result.
- EventSanitizer.SanitizeEventData: dates, functions and values that cannot be serialized do not occur in JSON; the serializer is a parameter.
- Resolver.ResolveTemplate: how numbers, booleans, arrays and objects are written into text is a parameter; values are JSON, so none is undefined. `resolveValue` calls the parser without its cache, which `TemplateCache.SameOptionsAreFresh` makes the same.
- Templates.Scan: tells a syntax error from a forbidden segment, not the message. The options are given; an absent option is its default.
- Timeline.CursorStandsForEvent: a cursor is the record it encodes, because the JSON and base64 text only carry it.
- Timeline.FollowCursors: the collation of ids is a parameter; the building of events from rows is not modelled.
- Keyset paging of the execution list: the same argument over other columns.
- Approvals, status tables, roles, metrics, audit records and masking: single steps or finite tables.
- The worker that carries out executions is not part of this model.
