# The Zoom SDK's core, modelled and proved

These modules model the parts of the Go SDK for the Zoom API in which many small steps have to add up to
one meaning, and prove that they do. Go maps are Dafny maps whose keys the loops pick in any order, so
whatever is proved holds for every iteration order.

* **The schema engine** (`Json`, `Pointers`, `Resolver`, `Validation`, `Keywords`, `Validator`, `Inlining`,
  `Nearest`, `Enums`, `Normalizer`, `Branches`, `Payloads`, `Quirks`, `Pruning`, `Kept`, `ValidPayloads`,
  `Lenient`, `Variants`, `Meaning`, `Acceptance`, `Counterexamples`). JSON values are a datatype. `$ref`s are
  inlined, schemas are normalized, payloads are pruned and then validated. Both the inlining and the pruning
  rewrite the schema while they recurse; they terminate by a weight in which a reference weighs as much as its
  target, and by the plain size of the schema, which merging a combiner branch shrinks. The functions that
  build fresh values are Dafny functions; the ones that append to the error list, delete keys or keep a best
  candidate in a loop are methods proved against a function, and the results are lemmas about that function.
  `Keywords`, `Nearest` and `Quirks` say what validating, resolving and pruning do in terms of the schema as it
  is written, and `Acceptance` ends with what the entry point accepts, said about the caller's own schema.
* **The token cache** (`TokenCache`, `TokenProtocol`). A class with the two fields the mutex protects, and
  a state machine in which any number of callers take their steps in any order while the clock advances.
* **The request engine** (`Retry`, `Paths`, `Rendering`, `Nesting`, `Operations`, `Registry`, `Walk`,
  `Paging`). The two retry loops over an arbitrary script of transport outcomes, the backoff arithmetic, path
  rendering, the sorted registry and its lookup, and the cursor walk over an arbitrary server.
* **Release and parity tools** (`Labels`, `LabelOrder`, `Versions`, `Trees`, `Parity`, `Syncing`). The label
  of a range of commits, version bumping, the comparison of directory trees, and the copy that makes the
  check pass.

`Folds`, `Text` and `Wrappers` hold sums over maps, the string functions of Go's library that are used,
and `Option`.

## What turned out to hold only under a condition

* Normalization leaves a payload alone exactly when no part of the schema drops an entry of it: every
  `allOf` branch, merged into what surrounds it, is asked on its own, and of `oneOf` or `anyOf` the branch
  that wins (`Kept.KeptExactly`, for every schema). A valid payload is left alone when `allOf` is the only
  combiner and keywords for objects and arrays come with their type (`ValidPayloads.ValidIsKept`; no
  restriction on type names is needed). Neither restriction can be dropped: with `oneOf` an earlier branch
  prunes a payload that a later one accepts (`Counterexamples.OneOfPrunesValidPayload`), and a branch
  without a type prunes once it is merged with the type around it
  (`Counterexamples.UntypedBranchPrunesValidPayload`). With `oneOf` or `anyOf` the first branch that accepts
  the payload decides, and the payload is left alone exactly when it is valid for that one
  (`Variants.VariantKeepsExactly`).
* A second `NormalizeSchema` changes nothing exactly when no `properties` object is itself made to require
  a property called `properties` that it lacks while listing names under the key `required`
  (`Normalizer.NormalizeIsStable`).
* Inlining leaves what an enum accepts alone, whatever schema the enum stands in, exactly when the enum's
  members print as the same set of texts before and after (`Enums.InliningEnumsExactly`). Where every enum
  keeps its texts, inlining preserves the meaning of the whole schema (`Inlining.InliningPreservesMeaning`).
  A member that looks like a reference is rewritten, and then a text can be accepted that was not before
  (`Enums.EnumOfReferences`).
* The registry is the same for every map order exactly when method keys of one path that only differ in
  case give the same operation, of which only some fields of the definition are part
  (`Registry.LoadIsDeterministicExactly`).
* For a template of literals and placeholders that all have a parameter, `renderPath` ignores the order of
  its parameters, whatever values the names with braces have, exactly when no partial filling of the
  template makes such a name turn up (`Rendering.OrderIgnoredExactly`). Names without braces never do.
  Where one does, some values make two orders differ (`Rendering.OrderCanMatter`), though not all do
  (`Rendering.ValuesCanHideIt`). In a template with a placeholder inside a placeholder the order decides
  even without such names (`Rendering.NestedTemplate`). For names without braces and a path of any text, all
  orders render it, to the text filled from the inside out, exactly when that text is free of braces and no
  placeholder gets its name only by filling others inside it (`Nesting.AnyTextExactly`).
* A range label, or the error in its place, ignores the order of the commits exactly when no occurrence of
  a pull request outranks what every order reaches: the default, or what some pull request has in every
  occurrence, an ambiguous occurrence outranking every label (`LabelOrder.OrderIgnoredExactly`, and
  `LabelOrder.ResultIgnoresOrderExactly` for what the method returns). Pull requests with the same labels
  wherever they turn up are always so (`LabelOrder.ConsistentIsSteady`).
* Against a server with finitely many cursors a walk ends exactly when no cursor is handed out twice on its
  way (`Walk.EndsUnlessRepeated`); against any server a cursor handed out twice keeps it going for ever
  (`Walk.RepeatedCursorNeverEnds`).
* A token from the cache is one the endpoint still takes, in every run, exactly when no fetch takes longer
  than the skew: the endpoint counts from the moment it issues a token, the cache from the moment the answer
  is read (`TokenProtocol.SkewIsEnoughExactly`).
* The delay before jitter never decreases below attempt 64 and is zero from there on (`Retry.PlainDelays`).
* `oneOf` is documented by JSON Schema (section 10.2.1.3 of JSON Schema Core 2020-12) as exactly one match;
  the code asks for at least one, and so does the model.

## Model

| member | source | states |
|---|---|---|
| Pointers.ResolveRef | schema.go:239-268 | the loop over the parts of a pointer finds exactly what walking the decoded keys finds, or the same one of the two errors |
| Pointers.PointerParts | schema.go:239-268 | the parts of an escaped pointer decode to the keys they were written for, whatever tildes and slashes these hold |
| Pointers.PointerRoundTrip | schema.go:239-268 | an escaped and joined path of keys resolves to what walking these keys finds; `webhooks` stands in for `paths` only where the spec has no `paths` |
| Pointers.ExistingPathResolves | schema.go:239-268 | a path that exists resolves to its value, so the fallback to `webhooks` never disturbs it |
| Pointers.OnlyLocal | schema.go:240-242 | a reference that does not start with `#/` is refused, and no other for that reason |
| Pointers.WalkStep | schema.go:256-267 | one key further leads to that entry of an object, and nowhere else |
| Json.ShowsScalars | schema.go:799-806 | a string and a number with the same text print alike, so an enum takes one for the other |
| Json.ShowsArrays | schema.go:799-806 | arrays print in brackets with blanks in between |
| Json.ShowsObjects | schema.go:799-806 | objects print with sorted keys |
| Text.CasesAre | schema.go:701-701 | upper and lower case letter by letter, and nothing but letters |
| Text.TrimmedIs | auth.go:22-34 | trimming takes all white space around a text and nothing else |
| Text.LessExactly | schema.go:97-102 | a text sorts first as a beginning of the other or by the first character in which they differ |
| Resolver.ResolutionTerminates | schema.go:271-309 | on every acyclic spec resolution ends although siblings overlay the target; a success holds no reference and resolves to itself |
| Resolver.ResolvedIsRefFree | schema.go:271-309 | no object at any depth of a resolved schema has a string under `$ref` |
| Resolver.RefFreeIsFixed | schema.go:295-309 | a schema without references resolves to itself in every spec |
| Resolver.WeightsDoNotMatter | schema.go:271-309 | the result is the same for every witness of termination |
| Nearest.NearestWins | schema.go:271-293 | along a chain of references of any length each key of the result is resolved from the nearest object that has it, and there are no other keys |
| Nearest.SiblingsStand | schema.go:279-284 | what stands beside a reference stands in the result, resolved where it stands |
| Nearest.TargetsFillIn | schema.go:275-285 | every other key of the result is that of the resolved target |
| Nearest.ResolvesExactly | schema.go:271-293 | an object can be resolved exactly when every link of its chain leads somewhere, to an object if any link up to there has siblings, and every key that is provided can be resolved |
| Nearest.OthersResolve | schema.go:294-307 | an array is resolved item by item, all or nothing, and any other value stands for itself |
| Nearest.NearestWinsOnDemand | schema.go:271-293 | a validator that follows references reports for the object what it reports for the nearest keys together |
| Validation.NoErrorsMeansValid | schema.go:600-698 | nothing is reported exactly for the payloads that satisfy the declarative meaning of the schema, with `oneOf` as at least one |
| Keywords.KeywordsMean | schema.go:600-698 | valid means: every keyword is met as it is written, `enum` by printed text, `allOf` by all branches, `oneOf` and `anyOf` by some, and the type with its names, properties, additional properties and items |
| Keywords.TypesDemand | schema.go:644-697 | each of the six type names only accepts payloads of its type, `integer` any number |
| Keywords.TypeAlone | schema.go:644-697 | a schema that is only a type name accepts all payloads of that type, and with any other name all payloads |
| Keywords.OtherTypesDemandNothing | schema.go:644-645 | a type that is none of the six names changes nothing |
| Keywords.ErrorsAreTrue | schema.go:600-698 | the path of every reported error leads to a value of the payload of which the error is true |
| Keywords.ErrorsAddUp | schema.go:600-698 | nothing is left out: an unmet enum hides all else; otherwise all branches, one error for each unmet combiner, and every lacking name, forbidden entry and error below |
| Validator.ValidateAgainstSchema | schema.go:600-698 | the validator keeps the list it was given and appends one fixed bag of errors, whatever order maps are walked in |
| Validator.AppendedMeans | schema.go:600-698 | what it appends is nothing exactly for valid payloads, and every appended error is true of the payload |
| Validator.TypeAloneAppends | schema.go:644-697 | for a schema that is only a type name it appends something exactly for payloads of another type |
| Validator.ValidateAllOf | schema.go:612-616 | the errors of all `allOf` branches are appended, branch after branch |
| Validator.ValidateVariant | schema.go:617-642 | one error is appended exactly when no branch of `oneOf` or `anyOf` is free of errors, and nothing of the branches' own lists |
| Validator.ValidateRequired | schema.go:652-657 | one error for each required name the payload lacks, however often it is listed |
| Validator.ValidateProperties | schema.go:658-665 | the errors of every entry of the payload, in any order |
| Validator.ValidateItems | schema.go:666-675 | the errors of every item at its index |
| Inlining.InliningKeepsErrors | schema.go:271-309 | where inlining changes the printed texts of no enum, the inlined schema reports for every payload the same bag of errors as a validator that follows each reference when it meets it |
| Inlining.InliningPreservesMeaning | schema.go:271-309 | on every acyclic spec, where inlining changes the printed texts of no enum, the inlined schema accepts exactly the payloads the schema with references accepts |
| Enums.InliningEnumsExactly | schema.go:271-309 | an enum keeps its printed texts exactly when every schema that carries it, its other enums keeping theirs, reports the same errors for every payload on demand and inlined |
| Enums.EnumOfReferences | schema.go:271-309 | an enum whose member looks like a reference: the inlined schema accepts a text the schema with references rejects |
| Normalizer.TypeNameIsStable | schema.go:700-721 | mapping type names twice is mapping them once |
| Normalizer.TypeNamesAre | schema.go:700-721 | the six names in any case stay, `int64` and `long` become `integer`, names that talk of enums or places become `string`, all others stay as written |
| Normalizer.ObjectNormalizes | schema.go:314-342 | no key comes or goes; the type is mapped, each required name without a property gets an empty schema, all else is normalized in place |
| Normalizer.OthersNormalize | schema.go:343-352 | arrays item by item, other values not at all |
| Normalizer.FixedObject | schema.go:312-353 | an object is a fixed point of normalization exactly when each entry is and every required name has a property |
| Normalizer.NormalizeIsStable | schema.go:312-353 | a second normalization changes nothing exactly when no `properties` object still gains a property |
| Normalizer.LateExample | schema.go:325-342 | a schema on which the second normalization does add a property |
| Normalizer.NormalizeKeepsRefFree | schema.go:312-353 | normalization brings no reference back |
| Normalizer.PrepareTwice | schema.go:409-416 | preparing a prepared schema succeeds, and gives the same schema exactly when the resolved one is settled |
| Branches.MergeRequiredLists | schema.go:752-767 | the two lists joined, every string kept at its first occurrence |
| Branches.MergedRequiredNames | schema.go:752-767 | the merged list requires what either list requires, each name once |
| Branches.FirstOccurrencesInOrder | schema.go:752-767 | the joined list keeps the order of first occurrences |
| Branches.MergedSays | schema.go:723-750 | key by key the branch wins, the combiner is dropped unless the branch has one, required lists are joined |
| Branches.MergedDescribes | schema.go:732-742 | the properties of both, the branch's definition where both have one |
| Branches.MergedIsSmaller | schema.go:723-750 | merging a branch in place of its combiner strictly shrinks the schema |
| Payloads.NormalizePayloadForSchema | schema.go:356-406 | the pruning loops compute one function of payload and schema, whatever order they meet keys in |
| Payloads.NormalizeEntries | schema.go:372-391 | deleting and rewriting entries of the copy in any order leaves exactly the entries that are not dropped, each normalized |
| Payloads.NormalizeAllOfPayload | schema.go:418-430 | each branch, merged into its surroundings, is applied to what the branch before it left |
| Payloads.NormalizeVariantPayload | schema.go:432-454 | the early exit at zero errors never changes which candidate wins |
| Payloads.BestPayloadIsFirstFewest | schema.go:432-454 | the result is what the first branch that leaves the fewest errors makes of the payload, or the payload where there is no branch |
| Payloads.ZeroStays | schema.go:447-451 | once a candidate has no errors, later candidates cannot win |
| Quirks.ObjectsLoseQuirks | schema.go:372-391 | without combiners an object loses exactly the empty strings under optional string enums that do not list them; its other entries are adjusted to their properties |
| Quirks.ItemsAreAdjusted | schema.go:392-402 | arrays keep their length, each item is adjusted to the schema for items |
| Quirks.OthersAreLeftAlone | schema.go:357-405 | any other payload or schema without combiners changes nothing |
| Quirks.AllOfComesFirst | schema.go:361-363 | with `allOf` the payload goes through all branches, each merged into the schema, whatever else the schema says |
| Quirks.VariantComesNext | schema.go:364-369 | else `oneOf`, else `anyOf`, returns what its first branch with the fewest errors makes of the payload |
| Pruning.NormalizationPrunes | schema.go:356-454 | for every schema the result only lacks object entries that were empty strings: no key added, array lengths and leaves kept |
| Pruning.PrunedTransitive | schema.go:418-430 | prunings compose, so a chain of `allOf` branches is one pruning |
| Pruning.PayloadWithoutEmptyStringsIsKept | schema.go:356-454 | a payload in which no entry is the empty string passes every schema unchanged |
| Kept.KeptExactly | schema.go:356-454 | for every schema and payload: normalization changes nothing exactly when no branch, property or item schema on the way drops an entry |
| Kept.BranchKeepsExactly | schema.go:418-430 | a chain of `allOf` branches leaves the payload alone exactly when the chain before and the last branch alone do |
| ValidPayloads.MergedIsValid | schema.go:723-750 | validity against a schema and one of its `allOf` branches is validity against the two merged |
| ValidPayloads.ValidIsKept | schema.go:356-430 | a payload that is already valid is not changed, whatever the type names are, if `allOf` is the only combiner and keywords come with their type; when others are kept is what Kept.KeptExactly and Variants.VariantKeepsExactly say |
| Variants.FirstAcceptingWins | schema.go:432-454 | the first branch that accepts the payload, an empty optional enum forgiven, is the one whose candidate is returned |
| Variants.VariantKeepsExactly | schema.go:432-454 | with `oneOf` or `anyOf` the payload is left alone exactly when that branch leaves it alone, and for a branch whose keywords come with their type exactly when it is valid for that branch |
| Variants.ValidVariantKeptExactly | schema.go:432-454 | a payload valid by some branch has such a first branch, and the same condition decides |
| Counterexamples.OneOfPrunesValidPayload | schema.go:432-454 | with `oneOf` a payload valid by the second branch is pruned by the first |
| Counterexamples.UntypedBranchPrunesValidPayload | schema.go:418-430 | an `allOf` branch without a type prunes a valid payload once merged |
| Lenient.NormalizeThenValidate | schema.go:203-219 | without combiners, normalizing and then validating accepts exactly what a one-pass validator accepts that lets an optional string enum be empty |
| Lenient.ValidatePayload | schema.go:203-219 | the entry point accepts exactly when the normalized payload is valid for the prepared schema, and otherwise reports at most five of its errors |
| Meaning.NormalizeKeepsMeaning | schema.go:312-353 | a normalized schema means what the schema means when type names are read in canonical form and required names count as declared, for the strict and the lenient validator |
| Acceptance.InliningKeepsMeaning | schema.go:271-309 | the same holds of references: following them on demand and inlining them give one meaning |
| Acceptance.WhatIsAccepted | schema.go:203-219 | on the unresolved schema: without combiners the verdict accepts exactly what the schema means with empty optional enums allowed; with combiners exactly what it means for payloads without empty strings; and everything it means for `allOf` with typed keywords |
| TokenCache.TokenResponse.Validate | auth.go:22-34 | the token type is trimmed and lower-cased in place; which of the three rules fails first decides the error |
| TokenCache.TokenManager.CachedToken | auth.go:100-107 | a token is returned exactly when the cache is filled and unexpired |
| TokenCache.TokenManager.FetchToken | auth.go:109-154 | a fetch succeeds exactly for an acceptable reply whose skewed lifetime has not passed yet |
| TokenCache.TokenManager.Refresh | auth.go:75-97 | under the mutex: a usable cache is returned untouched, a failed fetch leaves it as it was, a success replaces both fields |
| TokenCache.TokenManager.GetAccessToken | auth.go:67-97 | an undisturbed call returns the override or the cached token and changes nothing; else it stores and returns the reply's token with its expiry exactly when credentials, reply and clock allow, and fails changing nothing otherwise |
| TokenProtocol.StepKeepsInv | auth.go:67-154 | every step of every caller keeps the invariant tying mutex, cache and log together |
| TokenProtocol.EveryInterleaving | auth.go:67-154 | in every run at most one fetch is in flight, validity windows never overlap, no fetch starts inside one, the cache is what was stored last so that a failed fetch leaves it alone, whoever is told a token is told a stored one, and a token served from the cache has as much of the skew left to live, counted from its issue, as its answer did not take to arrive |
| TokenProtocol.SkewIsEnoughExactly | auth.go:67-154 | in all runs whose fetches take at most so long every served token is still alive, exactly when that is no longer than the skew |
| TokenProtocol.UninterruptedRefresh | auth.go:75-97 | for every cache and reply the steps of one refresh in a row are a run, release the mutex, and leave the cache and the answer the method leaves |
| Retry.Client.Request | client.go:120-164 | for every script the exchanges, the sleeps and the answer are those of the attempt count |
| Retry.Client.RequestRawBody | client.go:198-242 | the same for the hand-copied loop, with its own reading of the body |
| Retry.AttemptsAre | client.go:122-164 | one attempt plus the leading transport errors and statuses 429, 500, 502, 503 and 504 of GET, HEAD, OPTIONS, DELETE and PUT, up to the limit; it stops at the first success, repeats only methods that section 9.2.2 of RFC 9110 calls idempotent, and tries nothing only for a negative limit |
| Retry.SameAttempts | client.go:198-242 | the two loops make the same attempts even where they disagree about a body |
| Retry.PlainDelays | client.go:421-430 | below attempt 64 the delay before jitter never decreases and is at least the smaller of base and maximum; from 64 on it is zero |
| Retry.PlainDoubles | client.go:421-427 | from attempt to attempt the delay before jitter doubles up to the maximum, beginning with the base |
| Retry.SleptIs | client.go:428-429 | what is slept is the delay times the factor in whole nanoseconds, from three to five quarters of it |
| Retry.TotalWaiting | client.go:421-430 | all waiting together stays below 1.25 times the geometric sum of the base and below 1.25 times the maximum per retry |
| Paths.RenderPath | client.go:376-388 | the loop fills the placeholders in some order of the names, and fails exactly when a brace is left |
| Paths.RenderingIgnoresOrder | client.go:376-388 | where no name with a brace turns up, every order gives the template with all placeholders filled at once, and an error exactly when one has no parameter |
| Paths.OneRendering | client.go:376-388 | so the method has one possible result for such a template |
| Rendering.OrderIgnoredExactly | client.go:376-388 | the order is without effect, for all values of the names with braces, exactly when no partial filling makes such a name turn up |
| Rendering.OrderCanMatter | client.go:376-388 | a name with a brace and two orders: one path, and one text that still holds a placeholder |
| Rendering.NestedTemplate | client.go:376-388 | a placeholder inside a placeholder and names without braces: the order decides |
| Nesting.OneSuccess | client.go:376-388 | names without braces, a path of any text: every order that renders the path renders the same, the text filled from the inside out |
| Nesting.AnyTextExactly | client.go:376-388 | every order renders it exactly when that text has no brace and no name has to be assembled first; the orders agree exactly when no name has to be or none of them renders the path |
| Rendering.ValuesCanHideIt | client.go:376-388 | a name with a brace that turns up, and values for which two orders agree all the same |
| Paths.PatternOfTemplate | schema.go:857-860 | the regular expression of a template of literals and placeholders matches literal characters and one segment per placeholder |
| Paths.RenderedPathMatches | schema.go:857-860 | a path rendered with non-empty values matches the regular expression of its template |
| Paths.MatchesExactly | schema.go:857-860 | a path matches a template exactly when it is one text per part in a row: the character for a literal, a non-empty text without a slash for a placeholder |
| Paths.MatchKeepsSlashes | schema.go:857-860 | a path with another number of slashes than the template does not match |
| Registry.LoadPathOperations | schema.go:456-499 | the operations are those of the paths and methods that lead to objects, one for each, with the fields that are copied out of the definition, in whatever order the two maps are walked |
| Registry.EntriesAre | schema.go:464-475 | operations are what stands two levels below `paths` where both levels are objects |
| Registry.FieldsAreCopied | schema.go:480-494 | each field of an operation is the definition's field of its own name, the method in upper case |
| Registry.ParametersAreCopied | schema.go:470-479 | the parameters of the path and then those of the method, without what is no object |
| Registry.TitleOrName | schema.go:839-846 | operations are named by the title of their spec, by the file only without one |
| Registry.ServerWithoutSlashes | schema.go:848-855 | their server is the first one listed, without the slashes at its end |
| Operations.SortStableSorts | schema.go:97-102 | the sort orders by template and method and keeps operations with equal keys in the order they had |
| Operations.SortedByTemplate | schema.go:97-102 | sorted means templates ascending, and methods ascending below one template |
| Operations.SortedIsUnique | schema.go:97-102 | a sorted registry is determined by its groups of equal keys, so any stable sort gives the same |
| Operations.RegistryIsDeterministic | schema.go:73-104 | over all files in walk order, two loads with different map orders end in the same registry |
| Registry.LoadIsDeterministicExactly | schema.go:73-104 | over all files in walk order the registry is the same for every order in which the nested loops can list paths and methods exactly when in each file clashing method keys give the same operation |
| Operations.ClashMatters | schema.go:471-496 | exchanging two clashing entries of a path that give different operations changes the registry |
| Registry.SchemaRegistry.Load | schema.go:73-104 | after loading, the registry is the stable sort of the operations of all files |
| Registry.SchemaRegistry.FindOperation | schema.go:140-149 | the first operation with the method in upper case whose template matches, or nothing exactly when none does |
| Registry.HitsExactly | schema.go:140-149 | an operation is hit exactly by its method with a path that splits into its template |
| Registry.FoundHasAsManySlashes | schema.go:140-149 | the lookup never finds a template with another number of slashes, and finds nothing exactly when the path splits into none |
| Registry.RenderedPathIsFound | schema.go:140-149 | a path rendered from a registered template is found: the lookup succeeds, at that operation or at one before it that the path hits as well |
| Registry.LiteralBeatsPlaceholders | schema.go:140-149 | where a literal template equals the path, the lookup returns that template before every template with placeholders |
| Walk.EveryRequest | sdk.go:188-207 | the first request is the caller's query, each later one carries under `next_page_token` the cursor of the page before it and otherwise the same fields, and the walk goes on exactly while pages come with a cursor |
| Walk.EveryPage | sdk.go:188-207 | one page per request in order, and nothing exactly when the last request fails |
| Walk.OtherFieldsKept | sdk.go:188-207 | no request differs from the caller's query in anything but the cursor |
| Walk.WalkFrom | sdk.go:188-207 | from any chunk on, the walk sends one request per chunk and collects exactly the rest of the list |
| Walk.BoundDoesNotMatter | sdk.go:188-207 | pages and queries do not depend on the bound that witnesses termination |
| Walk.EndsUnlessRepeated | sdk.go:188-207 | where the cursors on the way are finitely many, a walk ends exactly when none of them is handed out twice |
| Walk.RepeatedCursorNeverEnds | sdk.go:188-207 | a cursor handed out twice on the way keeps the walk going for ever |
| Paging.PreferredCollection | sdk.go:263-273 | the list under the alphabetically first key that holds one and is no page key, or nothing exactly when no key does |
| Paging.CollectionsAre | sdk.go:263-273 | every list but those under the ten names that describe a page is a list of records |
| Paging.BuildSDKPage | sdk.go:248-261 | the page keeps the body; of an object it shows the cursor under the first of its two names that holds a text and the preferred records, of anything else neither |
| Paging.OnePage | sdk.go:248-261 | these demands leave one page for every body |
| Paging.Paginate | sdk.go:188-207 | the loop sends the queries and collects the pages of the walk, and an error anywhere loses all pages |
| Paging.IterAll | sdk.go:236-246 | the records of all pages in order |
| Paging.IterAllReturnsTheList | sdk.go:236-246 | against a server that splits a list and hands out a cursor per page, exactly the list comes back: nothing lost, nothing twice |
| Labels.SelectSemverLabel | scripts/release_tools.go:266-282 | an error exactly for two different release labels, else the one there is or the default |
| Labels.PreferredAssociatedPull | scripts/release_tools.go:250-262 | the first pull request targeting the base, else the first of all |
| Labels.ResolvePromotionRangeSemverLabel | scripts/release_tools.go:215-245 | the label is the highest impact over the default and all sources and the numbers are those of the sources, given only when no source is ambiguous; an error names an ambiguous one |
| Labels.FirstOfEachIsFirst | scripts/release_tools.go:222-229 | a source is the first pull request of its number |
| LabelOrder.DecidesMaximum | scripts/release_tools.go:215-245 | label and error are one maximum of ranks, an ambiguous source outranking every label |
| LabelOrder.OrderIgnoredExactly | scripts/release_tools.go:215-245 | every reordering of the commits gives the same label or the same error exactly when no occurrence outranks the default and what some pull request has in every occurrence |
| LabelOrder.ResultIgnoresOrderExactly | scripts/release_tools.go:215-245 | the same said of the results of the method: those for two orders have one label, or are errors together, exactly under that condition |
| LabelOrder.SteadyIgnoresOrder | scripts/release_tools.go:215-245 | under that condition repeating commits changes nothing either |
| LabelOrder.ConsistentIsSteady | scripts/release_tools.go:222-227 | pull requests with the same labels wherever they turn up meet the condition |
| LabelOrder.InconsistentOrderMatters | scripts/release_tools.go:222-227 | a pull request that gets its label between two commits: two orders, two labels |
| Labels.AppendingNeverLowers | scripts/release_tools.go:215-245 | more commits never lower the label |
| Versions.ParseSpelled | scripts/release_tools.go:286-293 | a text that spells three numerals, with or without `v` and white space around, reads as these numbers |
| Versions.ParsedIsSpelled | scripts/release_tools.go:286-290 | nothing else is accepted |
| Versions.ParseFormat | scripts/release_tools.go:286-309 | a printed version reads back as itself |
| Versions.DigitsAreDecimal | scripts/release_tools.go:309-309 | numbers are printed in decimal without leading zeros |
| Versions.BumpVersion | scripts/release_tools.go:286-309 | the result is the least version above the current one that is rounded to the part; nothing for a malformed version or part |
| Versions.HighestLabelBumpsFurthest | scripts/release_tools.go:215-309 | in text: bumping by the range label gives a version above the current one and at least that of any contributor's label |
| Trees.PutThere | scripts/parity/parity.go:181-190 | a write is read back |
| Trees.PutElsewhere | scripts/parity/parity.go:181-190 | a write is not seen at paths that do not overlap it |
| Trees.MkdirElsewhere | scripts/parity/parity.go:38-43 | making a directory is seen only at the directory itself and above it |
| Trees.MkdirThere | scripts/parity/parity.go:38-43 | afterwards the directory is there, one that was there is left as it is, and only a file in the way is an error |
| Parity.CompareTrees | scripts/parity/parity.go:192-238 | the sorted reports for two trees, whatever order entries come in; an error exactly when a root is a file or lies below one, a missing root being empty |
| Parity.NoDifferences | scripts/parity/parity.go:192-238 | nothing is reported exactly when the trees are equal in names, kinds and contents at every depth |
| Parity.ReportedIsParting | scripts/parity/parity.go:192-238 | a path is reported exactly where the trees part ways below directories they share |
| Parity.ParityDifferences | scripts/parity/parity.go:141-161 | the reports of all pairs together, sorted, and an error exactly when some pair cannot be read |
| Parity.CheckPasses | scripts/parity/parity.go:141-161 | there is nothing to report exactly when every pair is readable and equal, a missing directory counting as empty and a missing file equal to none |
| Parity.ReportsAre | scripts/parity/parity.go:141-161 | reported are the places where the trees of some pair part ways and the sources of files that do not agree |
| Parity.FailuresAre | scripts/parity/parity.go:240-271 | a comparison fails exactly where a file stands for a directory or a directory for a file, or a file is in the way |
| Parity.RenderedStep | scripts/parity/parity.go:192-238 | paths are reported as their names with slashes in between |
| Syncing.Disk.CopyTree | scripts/parity/parity.go:171-179 | nothing but the target changes; for paths apart it succeeds exactly when source and target allow it, and then the target holds what the source held, else it is left empty; a source inside the target is lost, and a target inside its own source always fails |
| Syncing.Disk.CopyFile | scripts/parity/parity.go:181-190 | it succeeds exactly when there is a file to copy and a place to put it, and is then one write of that file, parents included; a failure changes nothing |
| Syncing.TreeOutcome | scripts/parity/parity.go:171-179 | for paths apart these demands determine the disk afterwards |
| Syncing.RunSucceeds | scripts/parity/parity.go:44-54 | with separate paths all copies succeed exactly when each could be done on the disk as it was |
| Syncing.RunElsewhere | scripts/parity/parity.go:44-54 | paths that overlap no target are left alone, whether the run succeeds or stops at a failing copy |
| Syncing.RunCopies | scripts/parity/parity.go:44-54 | after a successful run every target holds what its source held before, and the source still does |
| Syncing.SyncElsewhere | scripts/parity/parity.go:38-54 | a sync, its two new directories included and whether it succeeds or not, leaves alone every path that overlaps no target and is not one of these directories or above them |
| Syncing.SyncThenCheck | scripts/parity/parity.go:21-55 | after a successful sync the check passes |
| Syncing.RunTwice | scripts/parity/parity.go:44-54 | copying a second time changes nothing |
| Syncing.Disk.SyncParityAssets | scripts/parity/parity.go:21-55 | checking only reads and passes exactly when all is in step; a sync of pairs whose own paths lie apart has the effect the lemmas speak about, and one with a target inside its own source fails |

## Left out

- HTTP, contexts, timeouts, headers, URL and query encoding, logging: a transport is a script of outcomes, a server a function from queries to replies; only their results matter to the loops.
- Error texts, `Describe`, `GoName` and other presentation: errors are kinds with a path where the code puts one in the text.
- Cyclic references: the code recurses without end on them, so `Resolver.Acyclic` is a premise.
- Resolver.ResolveSchema: gives nothing both where the code returns an error and where it panics on a reference with siblings to a target that is no object; the kind of error is not kept.
- Inlining.InliningPreservesMeaning: asks that inlining changes the texts of no enum, which `Enums.InliningEnumsExactly` shows to be exact for an enum in all surroundings; for one fixed schema other keywords can mask a changed enum, and which do is left open.
- Acceptance.WhatIsAccepted: asks that inlining and normalization leave the texts of enum members alone and that no `properties` object looks like a schema with properties and required names; what is accepted of payloads with empty strings by schemas with `oneOf` or `anyOf` is not said in one pass, which is left open; `Lenient.ValidatePayload` and `Variants` speak of it.
- Variants.VariantKeepsExactly: asks that the branches up to the winning one have no combiners of their own; for all others `Kept.KeptExactly` speaks of the branch that wins by its error count.
- JSON numbers are the text they print as; `fmt.Sprintf("%v")` is concrete for scalars, and only the empty string prints as the empty string.
- Aliasing: values are immutable here, so that `cloneMap` copies and that the caller's maps stay untouched is built in, not proved.
- `PickJSONMedia`, the choice of a response schema, the webhook registry and `BaseURLForRequest`: selections that would only add easy members.
- Text.ToLower: maps ASCII letters only, as `ToUpper` does; `TrimSpace` knows ASCII white space.
- Paths.Pattern: takes characters outside placeholders literally, so the lemmas about it ask for templates without metacharacters.
- `url.PathEscape` is any function that yields no brace and no slash and keeps non-empty text non-empty; for `Rendering.OrderIgnoredExactly` it also never shortens a text.
- Rendering.OrderIgnoredExactly: is about templates in which every placeholder has a parameter and about all values of the names with braces; for single values the order matters exactly when two texts differ, which no condition on names decides (`Rendering.ValuesCanHideIt`).
- Nesting.AnyTextExactly: which orders render a path whose names do have to be assembled is left open, as is any path text together with names that hold braces.
- Operations.SortStable: stands for any stable sort; `Operations.RegistryIsDeterministic` holds for all of them.
- `Paging` leaves out the five numeric fields of a page and the resolution of path parameters and default queries.
- Paging.Paginate: has the end of the walk as a premise; where it does not end the code loops, see `Walk.EndsUnlessRepeated`.
- The random source: jitter is any sequence of factors from 0.75 to below 1.25. Delays are reals before they are cut to nanoseconds; rounding of `float64` and overflow of `time.Duration` are out.
- Clocks: client and endpoint read one clock that never goes back; only the time between issue and receipt sets them apart.
- TokenProtocol: callers with an override token, and callers without credentials, never reach the mutex or never fetch; they are in `TokenCache` only.
- `strconv.Atoi` overflow: versions are unbounded naturals.
- GitHub, git and the command line of the release tool, and `resolvePromotionSemverLabel`, the choice for a single commit.
- Symlinks, permissions and I/O errors: a disk is a tree of directories and files, and fails only where a path runs through a file or ends in the wrong kind.
- Syncing.Disk.CopyTree: says of a target inside its own source only that the copy fails and that nothing but the target changes, because the copy walks on into what it writes until a path gets too long.
- Syncing.Disk.SyncParityAssets: says nothing of the disk when a source lies inside its own target or a target inside its own source; `Syncing.Disk.CopyTree` says what each such copy does.
- `discoverProjectRoot`, `parityPaths` and `verifyVendoredParity`: fixed paths and a lookup of four names.
