# Verified model of saneyaml's post-parse core

saneyaml reads YAML into events, document trees and values. This project models
what happens after the text parser: the lossless graph and its edit sessions, the
merge-key expansions, the order, equality, hash and identity of values and keys,
and the small parsers and printers for timestamps, base64, YAML 1.1 integers and
flow text. Dafny checks every claim below: `dafny verify dfyconfig.toml`.

## How it is built

- **Imperative code stays imperative.** `LosslessBuilder.Builder`,
  `MappingStore.Mapping`, `DuplicateTracker.DuplicateKeyTracker`,
  `LosslessEdit.LosslessEdit`, `FlowPrinter.Output` and the shared
  `EffectiveEntries.Vector` are classes with the fields of the source; loops are
  loops. Every method is proved equal to a function of its input, or of the old
  state, and the theorems are about those functions.
- **Worklists of mutable references** (`Value::apply_merge`,
  `apply_merge_keys_in_node`) hold the paths their references point to. `Places`
  proves once, for any tree type, that emptying such a worklist from its end does
  what the recursion does.
- **The merges share one reference form.** `StrictMerge.Candidates` lists every
  entry a merge may keep, in order of precedence, and drops nothing. The owned
  strict merge, the borrowed merge and the lossless effective view are each proved
  to be "the first entry of every key" of that list, which is how they are compared.
- **Parsers are compared with spellings**, data that says how a text is put
  together and what it stands for; printers are compared with readers that do not
  know them.

Strings are sequences of code points, except in the edit session and the base64
decoder, which work on bytes. Floats are abstract values with one NaN and one zero.
Integers have the widths of the source (128-bit numbers; 8, 16 and 32-bit fields in
timestamps).

## Where the code differs from what is said about it

- The comments at `src/de.rs:545` and `src/de.rs:637` want the owned and the borrowed
  merge to agree on the depth budget. On nodes a caller builds their results can
  differ: the borrowed path compares keys with the derived equality of nodes, which
  includes source spans, and without the nesting limit of key identities
  (`OwnedAndBorrowedDifferOnSpans`). `OwnedAndBorrowedAgreeExactly` says when they
  agree; on nodes with one common span and string keys they always do. The loader
  has merged a node before it returns it, so this concerns caller-built nodes only.
- `fuzz/fuzz_targets/apply_merge.rs` expects a repeated `apply_merge` on loaded values
  to keep succeeding. Of values a caller builds this is false: `{<<: {<<: 5}}` passes
  once and fails the second time (`SecondPassMayFail`). With mappings as payloads it
  is true (`EveryPassFollowsTheFirst`), with mappings or lists of mappings only the
  depth budget can fail it (`PassesFailOnlyByDepth`): every list starts the depth anew,
  so a later pass can run out of it although the first never came near
  (`LaterPassRunsOutOfDepth`). For one plain `<<` a mapping, whatever its payload,
  `PassesExactly` and `EveryPassExactly` say pass by pass, on the value before the
  first call, which passes succeed. An overridden entry that cannot be merged is
  covered: it may never be visited, as in `{a: 1, <<: {a: {<<: 5}}}`, or be visited
  before it is dropped, as in `{a: 1, <<: {<<: {a: {<<: 5}}}}`
  (`HiddenMergesDecideNothing`).
- The comment at `src/ast.rs:2662` wants `apply_merge` to agree with the borrowed path
  and to reject the same chains. For one plain `<<` a mapping `PassesAbsorb` and
  `PassesEnd` say what the passes take in, `RefViewExactly` and `RefViewIsFlat` what the
  borrowed path accepts and returns, and `PathsAgreeExactly` when the two agree. They
  do, order included, where in every list at most the last item merges, mapping
  payloads among them (`CalmPassesEndInRefView`, `PassesEndInRefView`). Behind other
  lists they can part in three ways:
  - A second residual `<<` is dropped as a known key: `{<<: [{<<: {a: 1}}, {<<: {b: 2}}]}`
    ends as `{a: 1}`, where the borrowed path also keeps `b` (`ListsPart`).
  - The own entries of later items come before what an earlier item merges:
    `{<<: [{<<: {a: 1}}, {a: 2}]}` ends as `{a: 2}`, where the borrowed path has `a: 1`
    (`LaterItemWins`). `ListAgreesExactly`, `CalmListAgreesExactly` and
    `ListOrderAgreesExactly` say which lists do not mind. A list behind a second link is
    merged a pass later, when its items have merged on their own, and can agree where
    the same list directly behind the mapping does not (`NestedListsAgree`).
  - The borrowed path counts every link, a pass only those since the last list: `{a: 1}`
    behind more than 128 lists of one item is rejected by the borrowed path, and
    `apply_merge` takes it to the end (`ListChainsPart`). The other way round, passes
    accept whatever the borrowed path accepts (`AcceptedPasses`).
- The lossless effective view does not treat a key tagged with the non-specific tag
  (`! <<`) as a merge key, while the loader drops that tag and merges
  (`BangMergeKeyParts`). By `EffectiveViewRefinesMerge` only such keys, and repeated
  own keys, part the two views; a `<<` under another tag merges in neither.
- `Date::from_ymd` accepts years up to 65535, `Display` prints them with five
  digits, and the parser reads four: printing is undone by parsing exactly up to
  the year 9999 (`PrintedIsParsedBack`).
- The digit parser of the standard library allows a plus sign, so `0x+1F` and
  `-+5` are read as integers; the model keeps this (`Spelling.plus`).

## Model

| member | source | states |
|---|---|---|
| LosslessBuilder.Builder.Build | src/lossless.rs:2470-2542 | The event loop, field by field, returns the stream or the first error of the state machine `Built` |
| LosslessBuilder.Builder.HandleEvent | src/lossless.rs:2472-2523 | One event moves the builder's fields to the next state of `Step`, or reports its error |
| LosslessBuilder.Builder.AttachNode | src/lossless.rs:2647-2679 | A new node becomes a sequence item, a pending key, the value of the pending key, or the root of the document |
| LosslessBuilder.Builder.RegisterAnchor | src/lossless.rs:2634-2645 | An anchor is numbered in order of definition and becomes the active one of its name |
| LosslessBuilder.Builder.PushAliasNode | src/lossless.rs:2604-2632 | An alias refers to the active anchor of its name or is an error |
| LosslessBuilder.Builder.EndCollection | src/lossless.rs:2681-2698 | Ending a collection needs an open one of the same kind and sets where its span ends |
| LosslessValid.BuiltStreamIsOk | fuzz/fuzz_targets/lossless_graph.rs:27-110 | For any events at all, a built stream has numbered nodes, ids that grow from parent to child, and anchor and alias tables that agree with the nodes |
| LosslessTheorems.WalkReproducesEventsExactly | src/lossless.rs:2470-2698 | Walking the built documents gives the events back (kind, value, style, tag, anchor, alias, spans the graph keeps) if and only if the events follow the event grammar |
| LosslessTheorems.WellFormedIsAcceptedExactly | src/lossless.rs:2604-2632 | A grammatical stream is accepted if and only if every alias has an earlier anchor of its name in its document |
| LosslessAcceptance.AcceptsExactly | src/lossless.rs:2470-2542 | Any event list, grammatical or not, is accepted exactly if no event is refused behind the events in front of it and no collection is left open; otherwise the first refusal is the error |
| LosslessAcceptance.BuiltTablesAreOk | src/lossless.rs:2470-2632 | Document `i` of a built stream has index `i`, and every alias of the table has the span of its alias node |
| LosslessTheorems.StepFollows | fuzz/fuzz_targets/event_stream.rs:27-130 | What one event of the grammar keeps: the state has replayed exactly the events so far, and fails only on an unknown alias |
| LosslessLinks.EveryNodeHasOneParent | src/lossless.rs:2647-2679 | In a stream built from grammatical events every node is a child at exactly one place or the root of exactly one document |
| LosslessLinks.AliasesTargetLatestAnchors | src/lossless.rs:2544-2645 | Each alias targets the latest earlier anchor of its name, and no document starts between the two |
| EffectiveEntries.CollectEffectiveMappingEntries | src/lossless.rs:857-899 | On every graph the builder can produce the recursion ends, restores the shared stack on success, and computes `Collect`, whose success and contents are given by `ViewSucceedsExactly` and `ViewListsEntries` |
| EffectiveEntries.CollectLosslessMergeValue | src/lossless.rs:901-962 | Appends exactly the entries of one merge value, through aliases, lists and nested mappings, and restores the stack |
| EffectiveEntries.MarkOverrides | src/lossless.rs:964-974 | An entry is marked exactly if an earlier entry has the same scalar key |
| EffectiveEntries.EffectiveMappingEntries | src/lossless.rs:440-451 | The view is the collected entries with exactly the repeated scalar keys marked |
| EffectiveCycles.RecursionErrorsAreCycles | src/lossless.rs:857-962 | Success excludes any merge path from the mapping that repeats a mapping; the recursion error implies that one exists |
| EffectiveOutcome.ViewSucceedsExactly | src/lossless.rs:857-962 | The view of a mapping succeeds exactly if no path of merges repeats a mapping and every merge value on such paths is a mapping, an alias whose anchor is on a mapping, or a sequence of such values |
| EffectiveOutcome.FirstFaultIsReported | src/lossless.rs:857-962 | The error is the first fault in document order: a mapping entered again, an alias of no mapping, or a scalar; without a fault the view succeeds |
| EffectiveListing.ViewListsEntries | src/lossless.rs:857-962 | A view that succeeds lists exactly the ordinary entries of the mappings its merges lead to, once for every way they do, own entries first and then in document order, each with the merge key, alias and anchor it came by |
| EffectiveReach.CollectedKeysAreReached | src/lossless.rs:857-962 | The keys of a collected view are exactly the ordinary keys of the mappings that paths of merges lead to |
| EffectiveRefinement.EffectiveViewRefinesMerge | src/lossless.rs:857-974 | For every way to resolve scalars, keys whose text decides their identity and at most one merge key a mapping: if both succeed, the entries that are not overridden are, in order, key by key and value by value, those of strict merging of the loaded mapping, if and only if the mapping repeats none of its own keys and no mapping its merges reach has a key `! <<`; a `<<` under another tag is excluded |
| EffectiveRefinement.BangMergeKeyParts | src/lossless.rs:976-990 | An instance of the second condition: on `{! <<: {a: b}}` the view keeps the key that the loader merges away |
| StrictMerge.ApplyStrictMergeEntries | src/ast.rs:3108-3120 | The merge of a mapping's first merge key, step by step, equals `MergeEntries` |
| StrictMerge.MergeNodeMapping | src/ast.rs:3158-3206 | The expansion of one merge value into the entry vector, with its depth budget and errors, equals `MergeSource` |
| StrictMerge.InsertMissingNodeEntries | src/ast.rs:3287-3297 | Appends the entries whose key identity is not there yet, or fails as key identity fails |
| EntryInsertion.InsertedInOrder | src/ast.rs:3036-3042 | Inserting what is missing puts behind the entries, in order, exactly the new entries whose key is neither there nor at an earlier inserted one, for any notion of equal keys |
| StrictMerge.StrictMergeIsFlattening | src/ast.rs:3108-3206 | Strict merging keeps, of all candidate entries in order of precedence, the first of every key identity, own entries never compared; it fails exactly if the candidates fail or an added key cannot be compared with those before it within the identity limit |
| BorrowedMerge.RefMergeIsFlattening | src/de.rs:518-598 | The borrowed merge keeps, of the same candidates, the first of every key up to node equality |
| BorrowedMerge.OwnedAndBorrowedAgreeExactly | src/de.rs:518-598 | The borrowed path succeeds exactly if the candidates exist; then both paths return the same entries if and only if every added key can be compared within the identity limit and every repeated key is repeated as an equal node; otherwise both fail, alike on keys within the limit |
| BorrowedMerge.OwnedAndBorrowedAgreeOnStringKeys | src/ast.rs:3097-3206 | On nodes with one common span and string keys both paths return the same entries in the same order or the same error |
| BorrowedMerge.OwnedAndBorrowedDifferOnSpans | src/de.rs:589-598 | A caller-built mapping on which the borrowed path keeps a key the owned path drops |
| Yaml11Merge.ApplyYaml11MergeEntries | src/ast.rs:3208-3232 | The loop over a mapping's entries equals `Expand` |
| Yaml11Merge.MergesExactly | src/ast.rs:3239-3256 | An entry merges exactly if its key is a merge key and its payload is a mapping or a list, of any length, of mappings only |
| Yaml11Order.MappingsAndListsAreMerged | src/ast.rs:3239-3285 | Of every such entry the source expands, and every key of every item is a key of the result |
| Yaml11Order.OtherEntriesStay | src/ast.rs:3212-3256 | Every other entry, a `<<` over any other payload among them, is an entry of the result, unchanged |
| Yaml11Order.ExpandsInOrder | src/ast.rs:3208-3297 | The entries that do not merge come first, in order, then every key the merge keys offer, once, in the order of the first offer |
| Yaml11Merge.Yaml11MergeEntries | src/ast.rs:3239-3285 | The expansion of one payload equals `Payload`; lists go from their first mapping to their last, inserting what is missing |
| Yaml11Merge.UpsertNodeEntries | src/ast.rs:3299-3311 | Replaces the entry of a known key in place and appends new keys |
| Yaml11Merge.Yaml11Precedence | src/ast.rs:3208-3311 | For every key the result holds the entry that does not merge (literal merge keys with other payloads among them), else that of the last merge key over a mapping or list of mappings that supplies it, and inside a list that of the first mapping that does |
| Yaml11Merge.ExpandFailsOnlyByDepth | src/ast.rs:3239-3285 | Expansion fails with the depth error only; it does on every chain of merge keys past the budget, and on no other mapping whose keys are inside the identity limit |
| TreeMerge.MergeKeepsOwnAddsSources | src/ast.rs:3108-3206 | A merge keeps every explicit entry unchanged and in place, and adds only entries taken from merge sources |
| TreeMerge.MergedTreeIsMergeFree | src/ast.rs:3081-3095 | Under the strict policy, if every mapping starts with at most one merge key, a merged tree has none left in any mapping reachable through values |
| TreeMerge.Yaml11TreeIsSettled | src/ast.rs:3208-3285 | Under the YAML 1.1 policy a merged tree has no merge key over a mapping or a list of mappings left in any mapping reachable through values, however many it started with |
| MergedTree.TreeIsMerged | src/ast.rs:3081-3106 | What a merged tree holds at every mapping reachable through values, under either policy: strict, in order, the first candidate of every key identity with its value merged; YAML 1.1, the entries that do not merge and then the offered keys, each with the entry that takes precedence, its value merged; sequences and tagged nodes item by item, scalars unchanged |
| MergedTree.LastFaultIsReported | src/ast.rs:3081-3106 | Merging a tree fails exactly if the own merge of a mapping that values lead to fails, and reports the last such mapping |
| TreeWorklist.ApplyMergeKeysInNode | src/ast.rs:3081-3106 | Under either policy the worklist of mutable references ends and computes the recursive merge of the tree, values from the last to the first |
| Places.VisitRemains | src/ast.rs:3081-3095 | Replacing the popped place and queueing its children leaves the same work to do as recursing into it |
| Places.VisitKeepsLive | src/ast.rs:2677-2748 | Queued references stay valid and separate, and the total size behind them shrinks with every visit |
| ApplyMerge.ApplyMerge | src/ast.rs:2677-2748 | The worklist of `Value::apply_merge` ends on every value and computes the recursive pass `Apply` |
| ApplyMergeTree.PassIsPassed | src/ast.rs:2677-2748 | What one pass leaves of a whole value, however many merge keys its mappings hold: every mapping, from the outside in, without its first merge key and then with the missing entries of the mappings behind it; lists and tagged values item by item, everything else unchanged |
| ApplyMergeTree.LastFaultIsReported | src/ast.rs:2677-2748 | A pass fails exactly if the own merge of a mapping that values lead to fails, by a payload that cannot be merged or by a 129th link, and reports the last such mapping |
| ApplyMergePasses.PassMakesProgress | src/ast.rs:2677-2748 | A successful pass strictly lowers a nonzero count of merge keys reachable through values |
| ApplyMergePasses.PassFixedPoints | src/ast.rs:2677-2748 | A pass changes nothing exactly on values without reachable merge keys |
| ApplyMergePasses.RepeatedPassesEnd | src/ast.rs:2677-2748 | Enough passes that all succeed leave no merge key |
| ApplyMergePasses.SecondPassMayFail | src/ast.rs:2677-2748 | A caller-built value, `{<<: {<<: 5}}`, on which the first pass succeeds and the second fails |
| ApplyMergeRepeats.PassesFailOnlyByDepth | src/ast.rs:2677-2748 | If every merge key reachable through values has a mapping or a list of mappings as payload, no repeated pass fails but with the depth error |
| ApplyMergeTheorems.EveryPassFollowsTheFirst | fuzz/fuzz_targets/apply_merge.rs:10-20 | If every such payload is a mapping, however many merge keys a mapping has, all repeated passes succeed if and only if the first one does |
| ApplyMergeExact.FittingValuesPass | src/ast.rs:2662-2748 | If moreover no mapping has two merge keys and no chain is longer than 128, any number of passes succeeds |
| ApplyMergeTheorems.EveryPassNeedsShown | src/ast.rs:2677-2748 | With at most one merge key a mapping and no list behind it, all passes succeed only if, at every entry no level above overrides, payloads are mappings and the chain of merges stays within the budget |
| ApplyMergeTheorems.EveryPassSucceedsExactly | src/ast.rs:2677-2748 | If moreover the overridden entries hold nothing that fails, a condition without rounds: all passes succeed if and only if every payload is a mapping and no chain is longer than 128, also for tagged merge keys |
| ApplyMergeRounds.PassesAbsorb | src/ast.rs:2677-2748 | For one plain `<<` a mapping and any payloads: after any number of successful passes a mapping holds `Absorbed`, a function of the value before the first pass, its values passed as often, and what is left to merge is `Residual`, passed as often |
| ApplyMergeSteps.PassesExactly | src/ast.rs:2677-2748 | For such values, lists and overridden entries included, the first `n` passes succeed if and only if in each round what is merged is mergeable, no run of links since the last list exceeds the budget, and so for every value that is still there |
| ApplyMergeSteps.EveryPassExactly | fuzz/fuzz_targets/apply_merge.rs:10-20 | All repeated passes succeed if and only if that holds for as many rounds as the value has merge keys |
| ApplyMergeTheorems.HiddenMergesDecideNothing | src/ast.rs:2677-2748 | Two caller-built values with an unmergeable payload under an overridden key: every pass succeeds on one, the first pass fails on the other |
| ApplyMergeFlat.RefViewExactly | src/de.rs:607-700 | With one plain `<<` a mapping the borrowed path succeeds if and only if every payload on its ways is a mapping or a list of mappings and the longest way of links, those through lists counted, stays within the budget; otherwise, on mergeable payloads, the depth error is reported |
| ApplyMergeFlat.RefViewIsFlat | src/de.rs:607-700 | Its result is the mapping's own entries and, of every other key, the first candidate behind the merge key, lists item by item |
| ApplyMergeViews.PassesEnd | src/ast.rs:2677-2748 | Repeated to the end, `apply_merge` leaves the mapping's own entries, then pass by pass what the payload that is left has taken in by then, every missing key once and every value passed to the end itself |
| ApplyMergeViews.PathsAgreeExactly | src/ast.rs:2662-2671 | When both paths succeed they hold the same entry for every key if and only if, beyond the mapping's own keys, every key is first supplied by the same entry in what the passes take in and among the candidates of the borrowed path, whatever lists there are |
| ApplyMergeViews.CalmPassesEndInRefView | src/ast.rs:2662-2671 | If in every list behind a merge key at most the last item merges, successful passes end in the borrowed view: the same entries in the same order, each value passed to the end itself |
| ApplyMergeViews.PassesEndInRefView | src/ast.rs:2662-2671 | If moreover the borrowed path accepts every mapping inside, all passes succeed and end in that view |
| ApplyMergeViews.ListAgreesExactly | src/ast.rs:2700-2718 | Of a list behind the merge key: past what the mapping and the items up to the first merging one hold, the passes take in the later items' own entries, then what that item's payload gives; the borrowed path takes that payload's candidates, then the later items with what they merge; the values agree if and only if every key is first supplied by the same entry in both |
| ApplyMergeViews.CalmListAgreesExactly | src/ast.rs:2700-2718 | If in the lists further down at most the last item merges, both paths take the same view of that payload, the passes behind and the borrowed path in front of the later items |
| ApplyMergeOrders.ListOrderAgreesExactly | src/ast.rs:2700-2718 | Then the order agrees too if and only if the later items' own entries add the beginning of what that view adds and the later items nothing more, or the view adds the beginning of what they add and the later items just the rest |
| ApplyMergeAccepted.AcceptedPasses | src/ast.rs:2662-2671 | If the borrowed path accepts every mapping of a value, all repeated passes succeed |
| ApplyMergeListChains.ListsAlwaysPass | src/ast.rs:2720-2748 | If every payload is a list of mappings, no pass fails, however long the chains are |
| ApplyMergeListChains.ListChainsPart | src/ast.rs:2662-2671 | `{a: 1}` behind `n` lists of one item: the borrowed path returns `{a: 1}` up to 128 and fails with the depth error beyond, `apply_merge` ends there for every `n` |
| ApplyMergeListChains.LaterPassRunsOutOfDepth | src/ast.rs:2720-2748 | Caller-built values of any size `n` whose first pass succeeds, and whose second fails with the depth error if and only if `n` exceeds 64 |
| ApplyMergeListExamples.ListsPart | src/ast.rs:2700-2718 | A caller-built value with a list of merging mappings, of which `apply_merge` loses an entry that the borrowed view keeps |
| ApplyMergeListExamples.LaterItemWins | src/ast.rs:2700-2718 | One with a single residual merge key, on which the two paths end with different values of the same key |
| ApplyMergeListExamples.NestedListsAgree | src/ast.rs:2700-2718 | The first list again, behind one more link: now both paths return the same |
| ApplyMergeTheorems.ChainsAreRejectedAlike | src/de.rs:607-651 | On a chain of plain merge mappings `apply_merge` and the borrowed path succeed up to 128 links, and both fail with the depth error beyond; for links through lists see `ListChainsPart` |
| Values.TotalValueCmpIsTotalOrder | src/ast.rs:1728-1783 | The value order is antisymmetric, transitive and total on all nested values |
| Values.TotalValueCmpAgreesWithEq | src/ast.rs:1679-1783 | The order answers Equal exactly on values that are `==`, mixed integer variants and reordered mappings included |
| ValueOrder.KindsAreOrdered | src/ast.rs:1728-1760 | Nulls come before booleans, then numbers, strings, sequences, mappings and tagged values |
| ValueOrder.BoolsAreOrdered | src/ast.rs:1734-1734 | False comes before true |
| ValueOrder.NumbersAreOrdered | src/ast.rs:1738-1740 | Integers are ordered by value, whichever variant holds them; floats come behind them, NaN last |
| ValueOrder.StringsAreOrdered | src/ast.rs:1742-1744 | A string comes before another exactly if it is a proper prefix of it or has the smaller code point where they first differ |
| ValueOrder.SequencesAreOrdered | src/ast.rs:1746-1748 | Sequences are ordered by the first item that differs, a proper prefix first |
| ValueOrder.MappingsAreOrdered | src/ast.rs:1705-1726 | Mappings are ordered by the first difference between their entries arranged in ascending order, by key and then by value, fewer entries first |
| ValueOrder.TaggedAreOrdered | src/ast.rs:1758-1762 | Tagged values are ordered by the text of their tags without its leading bang, then by value |
| Tags.PrintedTagIsReadBack | src/ast.rs:802-880 | Every tag read from a spelling is read back from its printed form |
| Tags.ReadTagsEqualExactly | src/ast.rs:882-886 | Tags read from spellings are equal exactly if they are the same, except that `!` and `!!` are equal as well |
| Tags.CoreTagsSpelled | src/ast.rs:852-862 | A tag stands for a tag of the core schema exactly if it is spelled with `!!`, or by its full name plain, behind a bang, or verbatim |
| Tags.MergeKeysSpelled | src/ast.rs:3122-3130 | A key merges exactly if it is the string `<<` behind its tags and has none, or one of those four spellings outermost |
| Tags.MergeValuesSpelled | src/ast.rs:2639-2645 | The same of keys of values |
| Values.MappingEqIgnoresOrder | src/ast.rs:1679-1688 | A mapping equals every rearrangement of its entries |
| ValueHash.EqualValuesHashEqually | src/ast.rs:1691-1703 | Equal values hash equally, for every hasher inside mappings and every hasher of the caller, mappings xor-combined |
| HashFeed.FeedsDecideEquality | src/ast.rs:1691-1703 | Values without mappings feed a hasher the same tokens exactly if they are equal |
| HashFeed.EveryEntryCounts | src/ast.rs:1691-1703 | Exchanging one entry of a mapping changes what it feeds exactly if the hashes of the two entries differ |
| MappingStore.Mapping.Insert | src/ast.rs:1501-1511 | Replaces the value of the equal key in place, or appends, and returns the old value |
| MappingStore.Mapping.FromDeserializedEntries | src/ast.rs:1461-1483 | The hashed construction equals inserting the entries one by one, for lists of any length |
| MappingStore.InsertedAllMeaning | src/ast.rs:1461-1511 | One-by-one insertion keeps first keys in order of first use, with last values, and no key twice |
| MappingStore.LookupIsPosition | src/ast.rs:1472-1482 | For any two hashers, looking a key up through its hash bucket finds what a linear search finds |
| KeyIdentity.IdentityFailsExactlyPastLimit | src/key_identity.rs:163-234 | Computing an identity fails exactly if the key nests past the limit |
| KeyIdentity.IdentityDecidesEquivalence | src/key_identity.rs:167-230 | Identities are equal exactly for keys equal up to tags, entry order at any level and integer variant, where entries are matched without sorting |
| KeyIdentity.SameKeyIdentityDecides | src/key_identity.rs:94-96 | `same_key_identity` decides that equivalence, and fails exactly if one of the keys nests past the limit |
| DuplicateTracker.DuplicateKeyTracker.Insert | src/key_identity.rs:33-59 | Before, during and after the spill the tracker answers and remembers like one map |
| DuplicateTracker.TrackAll | src/key_identity.rs:22-148 | Over any run of inserts every answer is the span of the first earlier use of the key, or none |
| LosslessEdit.LosslessEdit.FinishWithOptions | src/lossless.rs:1878-1906 | Sorting, validating and splicing the pushed replacements gives the outcome `Finished` |
| LosslessEdit.LosslessEdit.ReplaceSourceSpan | src/lossless.rs:1310-1317 | A replacement is accepted exactly on a span inside the source that starts and ends at character boundaries |
| LosslessEdit.LosslessEdit.InsertSource | src/lossless.rs:1322-1329 | An insertion is accepted exactly at a character boundary of the source |
| LosslessEdit.LosslessEdit.SourceSpan | src/lossless.rs:3355-3387 | Line and column of a range count newlines, and bytes since the last one |
| LosslessEdit.LosslessEdit.EditedCapacity | src/lossless.rs:2168-2180 | The precomputed size is exactly the size of the output, with no underflow |
| LosslessEdit.FinishedMeaning | src/lossless.rs:1878-1906 | A session is rejected for overlap exactly if two replacements conflict; otherwise the output is the replacements applied one at a time from right to left, of the source's length minus what is removed plus what is added |
| LosslessEdit.BytesSurvive | src/lossless.rs:1883-1902 | Every byte outside the replaced spans is in the output, at a place shifted by what changed before it |
| LosslessEdit.ShiftKeepsOrder | src/lossless.rs:1883-1902 | The surviving bytes keep their order |
| LosslessBytes.TextsLand | src/lossless.rs:1883-1902 | Every pushed text stands in the output where its span was, shifted by what the replacements in front of it changed |
| LosslessBytes.SortedByPlace | src/lossless.rs:1878-1882 | A session works through its replacements by place, and at one place in the order they were pushed |
| LosslessBytes.BoundariesAreBetweenCharacters | src/lossless.rs:1310-1329 | The offsets accepted as boundaries in the UTF-8 encoding of a text are exactly those between its characters |
| LosslessBytes.FinishedIsText | src/lossless.rs:1878-1906 | If the source and all pushed texts are UTF-8, so is the output: no character is cut |
| LosslessEdit.PushOrderDoesNotMatter | src/lossless.rs:1878-1922 | Sessions that push the same replacements at every single place have the same outcome, however pushes at different places interleave |
| TimestampParser.ParseYaml11Timestamp | src/ast.rs:593-746 | The parser with positions and machine integers equals `Read`, with no overflow |
| TimestampParser.DisplayTimestamp | src/ast.rs:388-591 | Printing a timestamp, fraction zeros popped in a loop, equals `TimestampText` |
| TimestampTheorems.ReadsExactlySpellings | src/ast.rs:593-760 | A text is read as a timestamp exactly if it is a spelling of it: field widths, separators, fraction digits, zone forms, and values in range |
| TimestampTheorems.PrintedIsParsedBack | src/ast.rs:455-591 | Every timestamp the constructors can build is parsed back from its printed form if and only if its year is at most 9999 |
| TimestampTheorems.ParsePrintParse | src/ast.rs:376-396 | For every accepted text, printing the result and parsing again gives the same timestamp |
| TimestampForm.PrintedInForm | src/ast.rs:388-591 | Up to the year 9999 the printed text is a spelling of the timestamp with two-digit fields, a `T`, no spaces, a fraction only if it is not zero and without zeros at its end, `Z` for no offset and else the sign of the offset |
| TimestampForm.LaterYears | src/ast.rs:388-591 | Of any year the rest is printed alike; later years only have five digits |
| TimestampForm.NanosecondsAreWhole | src/ast.rs:609-632 | The digits of a fraction are read as the whole nanoseconds they amount to, rounded down |
| TimestampForm.YearsAreGregorian | src/ast.rs:758-760 | Years have 366 days as often as the Gregorian calendar says: every fourth, not every hundredth, but every four-hundredth |
| TimestampForm.MonthsAreGregorian | src/ast.rs:748-760 | The lengths of the months from March on spread 153 days over every five of them, February taking what the year leaves |
| Base64.DecodeYamlBinary | src/de.rs:1190-1253 | The decoder returns `b` exactly if the text without ASCII whitespace is the encoding of `b` by section 4 of RFC 4648, padding complete or absent |
| Base64.DecodesExactlyEncodings | src/de.rs:1190-1264 | The quartet-wise decoding accepts exactly canonical encodings, leftover bits and late padding rejected |
| Base64.WhitespaceMeansNothing | src/de.rs:1196-1199 | Spaces, tabs, line feeds, form feeds and carriage returns are dropped anywhere in the text; every other byte stays in its place |
| Yaml11Integers.ParseSexagesimalInteger | src/yaml11.rs:143-151 | The loop with checked 128-bit steps gives exactly the base-60 value, or fails exactly if it is out of range |
| Yaml11Integers.CompactRadixNumberText | src/ast.rs:3613-3635 | Underscores are removed exactly if each stands between two digits of the number's radix |
| Yaml11Separators.GroupedIsCompacted | src/ast.rs:3613-3635 | Runs of digits of the radix joined by single underscores, behind any sign and prefix, are compacted to the sign, the prefix and the runs put together |
| Yaml11Separators.CompactedIsGrouped | src/ast.rs:3613-3635 | Only such texts are compacted to a spelled integer |
| Yaml11Separators.ReadsExactlyGrouped | src/yaml11.rs:34-117 | Without a colon, both integer entry points read a text as a number exactly if it is such a grouped spelling and the number stores the value of its digits; no other text with an underscore is an integer |
| Yaml11Separators.NoUnderscoreInBase60 | src/yaml11.rs:34-48 | A text with a colon and an underscore is no integer |
| Yaml11Separators.DigitsAreWeighted | src/yaml11.rs:81-117 | The value of digits is positional: those in front count the radix to the power of how many follow |
| Yaml11Theorems.SpellingIsExact | src/yaml11.rs:81-117 | Sign, radix prefix and digits are read as exactly their value, and rejected exactly outside [-2^127, 2^128-1] |
| Yaml11Theorems.ParsesExactlySpellings | src/yaml11.rs:81-117 | The parser yields a number exactly for the texts that spell a value in that range |
| Yaml11Theorems.SexagesimalIsExact | src/yaml11.rs:34-48 | Both integer entry points read a base-60 text as exactly its value, and reject it exactly outside that range |
| Yaml11Theorems.IntegerGroupsAreBase60 | src/yaml11.rs:127-141 | Every text the group checks accept without a fraction is such a base-60 text |
| Yaml11Integers.SignedMagnitudeIsExact | src/yaml11.rs:212-229 | Storing a sign and magnitude fails exactly out of range, and picks the variant by value alone |
| FlowPrinter.WriteInline | src/emit.rs:587-638 | Appends exactly the flow text of the node to the output buffer |
| FlowPrinter.OrderedEntries | src/emit.rs:557-569 | With sorted keys the entries are stably sorted by their key text, computed once each |
| FlowPrinter.DoubleQuote | src/emit.rs:737-755 | Escapes a string character by character between double quotes |
| FlowShape.FlowTextShape | src/emit.rs:571-638 | The flow text is, kind by kind, a name, decimal digits, a quoted string, or the texts of the parts between brackets or braces with a comma and a space between any two |
| FlowShape.FlowTextIsOneLine | src/emit.rs:587-638 | Without tags and floats it has no line break and no control character |
| FlowShape.KeysAreOrdered | src/emit.rs:557-569 | With sorted keys the printed key texts ascend by code points, and entries with the same key text keep their order; otherwise the entries stay as they are |
| FlowShape.EscapeLengths | src/emit.rs:737-755 | Six characters have a two-character escape, the other printable ones stand for themselves, and the rest take four upper-case hexadecimal digits |
| FlowTheorems.FlowTextIsReadBack | src/emit.rs:571-638 | A reader of sections 5.7, 7.3 and 7.4 of YAML 1.2.2 reads the text back as the tree it was printed from |
| FlowEquivalence.SameTextMeansEquivalent | src/emit.rs:571-638 | Trees without tags and floats that print the same text are equivalent |
| FlowCanonical.SortedTextDecidesEquivalence | src/emit.rs:557-638 | With sorted keys and no duplicate keys, two such trees print the same text exactly if they are equivalent |

## Left out

- The text parser, the event Serde path and comment scanning: the model starts from event streams and trees.
- Serde visitors, forwarding and enum access; file and reader I/O; option builders; error texts, carets and paths: errors are the kinds that decide control flow.
- Block layout, folded scalars, single quotes, plain-scalar safety and tag texts of the emitter: only flow text with double-quoted strings is modelled; the reader that decides the others is not part of this model.
- FlowTheorems.FlowTextIsReadBack: the limit of 1024 characters on implicit keys of flow mappings is not modelled; tags and floats are excluded, since their printed forms are parameters.
- LosslessEdit.LosslessEdit.FinishWithOptions: reparsing the result is a parameter that accepts or rejects; replacing nodes by id and the structural insertions and deletions, which compute spans and then push them, are not modelled.
- EffectiveRefinement.EffectiveViewRefinesMerge: the loaded tree is described by a relation (aliases copied, tags kept, scalars resolved by a parameter), because the loader itself belongs to the parser. Keys whose text does not decide their identity, like `1` beside `0x1` or `"1"` beside `1`, are excluded: the view compares texts and the merge identities.
- ApplyMergeTheorems.EveryPassSucceedsExactly: lists, and overridden entries that hold something unmergeable, are covered by `PassesExactly` and `EveryPassExactly` instead, which ask for the plain `<<`. Several merge keys in one mapping are covered by `PassesFailOnlyByDepth` and `EveryPassFollowsTheFirst` only.
- ApplyMergeViews.PathsAgreeExactly: mappings with a tagged or a second merge key are not compared, since a plain and a tagged `<<` are different keys and can both survive a merge.
- Yaml11Merge.ExpandFailsOnlyByDepth: for keys past the identity limit that fit the depth budget it says only that a failure is the depth error, because whether one occurs depends on which keys are compared.
- StrictMerge.StrictMergeIsFlattening: when the candidates fail and keys nest past the identity limit, it leaves open which of the two errors is reported first.
- Yaml11Integers.ParseSexagesimalNumber: base-60 numbers with a fraction are read by a parameter, since floats are abstract.
- KeyIdentity.IdentityDecidesEquivalence: floats are ordered and identified abstractly, not by bit patterns.
- Retained scalar source of nodes, and the byte-compatible emitter mode that reads it.
- Saturation of `usize` counters and exhaustion of memory.
- The branches of `attach_node` and of the merges that report a missing node: they cannot be reached on graphs the builder produces, which the methods prove by indexing.
