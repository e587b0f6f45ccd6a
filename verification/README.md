# Verified models of Tierceron

Tierceron keeps configuration and secrets in Vault, works on them in an SQL database, and moves them
between the two and to seed files. This project models the places where that state is kept by several
parties at once or transformed step by step, and proves what the code promises there.

- **Change capture** (`ChangeCapture`, `ChangeFlow`, `StatisticKeys`): writers change a row and then
  record its id; a flow goroutine drains the ids, re-reads the rows and writes Vault. `ChangeCapture`
  is a state machine in which every SQL query and every Vault call is one atomic step, so that all
  interleavings are runs. `ChangeFlow` is the code of the flow goroutine as a class; other goroutines run
  at every query, and each method is proved to be a run of the machine. `StatisticKeys` is the in-place
  rotation of key columns inside backing arrays that their callers still hold.
- **The modifier cache** (`ModifierPool`, `ModifierCache`): pools with a channel and a separate counter.
  The machine has any number of goroutines; the classes are the code of one of them.
- **The tree behind GraphQL** (`GraphTree`, `GraphMerge`): two sources are merged with an index of
  visited names; resolvers use ids as positions. Environments, projects, services and files are merged
  by the same loop, so one node type stands for all four levels.
- **The seed pipeline** (`TemplateTree`, `TemplateMerge`, `ArrivalOrder`, `SeedSections`, `SeedWorklist`,
  `SeedTemplate`): template commands become a tree whose leaves refer to entries of two sections,
  results of goroutines are combined in order of arrival, the seed is flattened by a worklist, and rows
  are seeded one after another through one shared base template.
- **Smaller parts**: `RegionOverlay` (a plugin's regional fields), `FleetTree` (the tree of statistics
  rows), `IdRanges` (id ranges), `PathExpansion` (wildcards in a dynamic path). `Common` holds what several of them use.

Loops over Go maps visit the keys in any order. Code that updates its objects is a class; its methods
are proved against functions, and the lemmas are about those functions. Strings are sequences of
characters, integers unbounded except for the pool counter, which is 64 bits wide.

## What does not hold

Some promises hold only under a condition. The code is modelled as it is, the exact condition is
proved, and a failing case is part of the proof or of a lemma of its own.

- A path failure re-injects an id that was never assigned, so the change is lost, as it is with an
  empty path or a read-only flow; which changes a run loses, exactly: `ReinjectionLosesTheChange`,
  `LostExactly`, `EntryReachesVault`.
- `Clear()` can wipe the notification of a recorded change, which delays it: `ClearDelaysAChange`;
  which ones and when not: `ClearWipes`, `NotificationsHeard`.
- The column names come back in order exactly when the id column is last: `RotationRestoresNames`,
  `IdColumnMustBeLast`, `TwoColumnsDrift`.
- `checkInitModCache` looks before it locks. The counter is exact while no two goroutines are between
  look and install for the same key; once two are, it can go wrong and underflow: `FirstUsesApart`,
  `TwoInstallersBreakTheCounter`, `FirstUseRaceUnderflows`.
- `MergeMaps` is associative and commutative only on trees whose shapes fit: `UnionAssociates`,
  `UnionCommutes`; combining depends on arrival order as soon as two results disagree:
  `ArrivalOrderIrrelevant`, `TemplateOrderIrrelevant`.
- `Parse` by itself leaves a dangling reference for a name with a region mark and no value; `ToSeed`
  refuses such names: `CommandKeepsIntegrity`, `ToSeedIntegrity`.
- A default value that is a bare number loses its first and last digit, as if they were quotes:
  `BareNumberLosesDigits`.
- A row that lacks a template name is seeded with what an earlier row left there: `FreshSeed`.
- `GetPluginData` saves the regional value of `copied` and `deployed` as the base value: `FlagKept`. A
  field that only the region has is edited as a base field: `OrphanEdit`. A field that bears the mark
  twice can undo an edit: `EditStoredExactly`, `DoubledMarkLosesEdit`. A base field that the region has no
  counterpart for is edited for all regions: `BaseKeptExactly`, `EditedForAll`.
- Ids of a generated fleet collide with more flows than (some) statistics as soon as an argosy has two groups,
  and with too many groups as soon as there are two argosies; exactly when: `GroupsDistinct`,
  `FleetDistinct`. With fewer flows than statistics more groups than statistics may collide:
  `MoreGroupsThanStatistics`.
- A region whose name another region's name starts with gets copies of that region's fields:
  `LongerNameLeavesJunk`.

## Model

| member | source | states |
|---|---|---|
| ChangeCapture.StepKeepsInv | atrium/trcflow/core/context_helper.go:235-415 | every step of any goroutine keeps the invariant: a stale snapshot on its way to Vault is tracked, what is left to delete is in the batch, rows still to be loaded are Vault's, and only synced deletes remove |
| ChangeCapture.InvAlways | atrium/trcflow/core/context.go:419-517 | the invariant holds in every state reachable from a first start, whatever the interleaving |
| ChangeCapture.RowChanged | atrium/trcflow/core/context.go:676-777 | a writer's first query gives one id its new row or takes its row away, and touches no other |
| ChangeCapture.NoChangeIsLost | atrium/trcflow/core/context_helper.go:89-115 | in every reachable state a row that differs from Vault is in the change table, in the drained batch, held by a writer between its two queries, being written with its current contents, or the flow gave up on it at a read after which nothing disturbed it |
| ChangeCapture.WritableFlowLosesNothing | atrium/trcflow/core/context_helper.go:89-115 | without the last exception for a flow that may write and always gets a path |
| ChangeCapture.LostExactly | atrium/trcflow/core/context_helper.go:235-415 | for any run and any id: Vault is behind and nothing tracks the id if and only if the flow gave up on it, or the bootstrap failed to load it, and it was not changed, recorded by hand or reloaded since |
| ChangeCapture.StepExactly | atrium/trcflow/core/context_helper.go:235-415 | for any step and any id: the id is lost afterwards if and only if it was lost and is not disturbed, or the flow gives up on it in this step |
| ChangeCapture.WriterStepExactly | atrium/trcflow/core/context.go:664-846 | the same for a writer's row change, its change record, its broadcast, a manual trigger and a restart request: only a change of the id itself tracks it anew |
| ChangeCapture.DrainStepExactly | atrium/trcflow/core/context_helper.go:89-115 | the same for the queries of a drain, also for changes made between its SELECT and a DELETE |
| ChangeCapture.ReadRowExactly | atrium/trcflow/core/context_helper.go:269-402 | the same for re-reading an entry with any answer of the index path callback |
| ChangeCapture.VaultStepExactly | atrium/trcflow/core/context_helper.go:330-402 | the same for the write to Vault or the removal from it |
| ChangeCapture.SeedStepExactly | atrium/trcflow/core/context_helper.go:441-556 | the same for loading rows from Vault while writers are at work |
| ChangeCapture.WritableFlowAgrees | atrium/trcflow/core/context.go:430-517 | over a whole run with a flow that may write and always gets a path, nothing is left recorded and Vault holds every row and no deleted id that was loaded or new |
| ChangeCapture.SettlingKept | atrium/trcflow/core/context.go:444-464 | in a drain without changes every recorded id is still to be deleted and so is in the batch |
| ChangeCapture.FinalDrainAgrees | atrium/trcflow/core/context.go:430-517 | over a whole run that ends with a drain without changes, through shutdown, restart with a kept table or restart with a reload, an id agrees with Vault, as a row or as a synced delete, if and only if the flow has not given up on it and the bootstrap had loaded it, or something disturbed it since |
| ChangeCapture.EntryReachesVault | atrium/trcflow/core/context_helper.go:279-402 | over every continuation that leaves the id alone a drained entry stays untracked, and Vault ends up agreeing with it if and only if it did already, or the flow may write and the callback gave a path |
| ChangeCapture.ClearDelaysAChange | atrium/trcflow/core/context.go:435-443 | a reachable state in which the flow waits unnotified while Vault is behind, with the change still recorded |
| ChangeCapture.NotificationsHeard | atrium/trcflow/core/context.go:419-468 | over any run in which every writer broadcasts and nothing is recorded between a drain's SELECT and its end: when the flow waits unnotified with an id recorded, somebody is about to broadcast |
| ChangeCapture.ClearWipes | atrium/trcflow/core/context.go:435-443 | when a drain ends with Clear, exactly the ids recorded since its SELECT and not deleted again are left recorded and unheard, unless somebody is about to broadcast |
| ChangeCapture.ReinjectionLosesTheChange | atrium/trcflow/core/context_helper.go:269-377 | a reachable state in which a row never reached Vault and only the text of nil is recorded |
| ChangeFlow.TrcFlow.OtherStep | atrium/trcflow/core/context.go:95-121 | what another goroutine does between two queries is the step of the machine it has scheduled, made if and only if it can be; here the manual trigger |
| ChangeFlow.TrcFlow.Yield | atrium/trcflow/core/context.go:664-846 | between two queries the other goroutines make exactly those of their scheduled steps that they can |
| ChangeFlow.AnsweredByPaths | atrium/trcflow/core/context_helper.go:357-381 | a run whose reads went by the callback's answers, all of them paths, found a path at every read |
| ChangeFlow.TrcFlow.RemoveChangedTableEntries | atrium/trcflow/core/context_helper.go:89-115 | the drain is a run of the machine and returns exactly the ids recorded at its SELECT |
| ChangeFlow.TrcFlow.EntryMissing | atrium/trcflow/core/context_helper.go:285-343 | an id without a row leads to its removal if and only if deletes are synced, the flow may write and the callback's next answer is a path; a run of the machine that looks at the id |
| ChangeFlow.TrcFlow.EntryFound | atrium/trcflow/core/context_helper.go:346-402 | an id with a row leads to a write of that row if and only if the flow may write and the callback's next answer is a path, and to a record of nil on a failure; a run of the machine that looks at the id |
| ChangeFlow.TrcFlow.ChangeVault | atrium/trcflow/core/context_helper.go:330-402 | Vault gets the row, or loses the entry, and nothing else of it changes |
| ChangeFlow.TrcFlow.PersistEntry | atrium/trcflow/core/context_helper.go:269-412 | one iteration of the persist loop, with other goroutines in between, is a run of the machine that looks at this id only and goes by the callback's next answer |
| ChangeFlow.TrcFlow.VaultPersistPushRemoteChanges | atrium/trcflow/core/context_helper.go:235-415 | drain and persist loop together are a run of the machine that looks at exactly the ids recorded at the SELECT and takes the callback's answers in order |
| ChangeFlow.TrcFlow.OnNotification | atrium/trcflow/core/context.go:435-443 | after a notification handled with nobody else at work, the channel is clear and Vault agrees with the table on exactly the ids that the run so far, by the callback's answers, has not given up on and had loaded; on every row if the flow may write and the callback only gave paths |
| ChangeFlow.TrcFlow.OnDone | atrium/trcflow/core/context.go:444-464 | the same after shutdown, whether or not the flow restarts and whichever way the race between relaunch and clearing the flag goes |
| ChangeFlow.TrcFlow.InsertRow | atrium/trcflow/core/context_helper.go:530-550 | a row from Vault is inserted unless its key exists, in which case the table is unchanged |
| ChangeFlow.TrcFlow.SeedTrcDbFromVault | atrium/trcflow/core/context_helper.go:441-556 | filling the table is a run of the machine; undisturbed, every loaded id is then in the table |
| StatisticKeys.RemoveElementFromSlice | atrium/trcflow/core/context_helper.go:128-159 | the first occurrence is removed inside the backing array, whose last element is then there twice; without an occurrence nothing changes |
| StatisticKeys.AddConditions | atrium/trcflow/core/context_helper.go:180-184 | each remaining column is compared with the value at its position; none if only one column is left, and a panic if values run out |
| StatisticKeys.GetStatisticChangedByIdQuery | atrium/trcflow/core/context_helper.go:161-198 | the query and the contents of both arrays afterwards, for text and integer ids, with or without the id among the names, and the panics |
| StatisticKeys.RotationRestoresNames | atrium/trcflow/core/context_helper.go:167-189 | the names are restored if and only if the id column is last; the values are rotated left by one; both arrays keep their elements |
| StatisticKeys.IdColumnMustBeLast | atrium/trcflow/core/context_helper.go:117-119 | every row is asked for by its own key, whatever it holds, if and only if the id column is the last of the three |
| StatisticKeys.StatisticIsAskedFor | atrium/trcflow/core/context_helper.go:161-198 | with the id column last the query compares each column with its own value |
| StatisticKeys.StatisticIsRotated | atrium/trcflow/core/context_helper.go:161-198 | with the id column last the names stay and the entry is rotated by one |
| StatisticKeys.PersistBatch | atrium/trcflow/core/context_helper.go:269-283 | over a whole batch in shared arrays each entry asks for its own row, and the names are in order for the next batch |
| StatisticKeys.TwoColumnsDrift | atrium/trcflow/core/context_helper.go:51-53 | with two columns and the id first, the next batch compares the id column with the other column's value |
| ModifierPool.CounterIsExact | pkg/vaulthelper/kv/Modifier.go:154-214 | in every interleaving in which an install still finds no pool, each counter is the channel's length plus releases counted and not sent plus receives not yet counted down |
| ModifierPool.FirstUsesApart | pkg/vaulthelper/kv/Modifier.go:146-152 | that covers every interleaving in which no two goroutines are between the look for a pool and its install for the same key |
| ModifierPool.NeverUnderflows | pkg/vaulthelper/kv/Modifier.go:159-207 | no decrement of such a run finds zero, and when all goroutines are idle the counter is the channel's length |
| ModifierPool.TwoInstallersBreakTheCounter | pkg/vaulthelper/kv/Modifier.go:146-152 | and whenever two goroutines are between look and install for the same key and the lock is free, some continuation makes the counter wrong |
| ModifierPool.FirstUseRaceUnderflows | pkg/vaulthelper/kv/Modifier.go:146-161 | a reachable state of two first uses in which the counter has underflowed |
| ModifierPool.CapacityBound | pkg/vaulthelper/kv/Modifier.go:182-193 | in such a run with at most k releases in flight, queued modifiers and pending sends never exceed 10 + k; for k up to 10 a send never blocks, and with one release at a time a pool never exceeds 11 |
| ModifierPool.ExclusiveKept | pkg/vaulthelper/kv/Modifier.go:154-214 | every step keeps each modifier in at most one place |
| ModifierPool.OneOwner | pkg/vaulthelper/kv/Modifier.go:97-214 | if callers release only what they hold and once, each modifier is queued in at most one pool, or held by at most one goroutine, in every run |
| ModifierCache.Modifier.Reset | pkg/vaulthelper/kv/Modifier.go:102-113 | whatever the modifier was used for, all reset fields are as requested or empty; environment and staleness stay |
| ModifierCache.PristineFields | pkg/vaulthelper/kv/Modifier.go:102-113 | these settings, field by field |
| ModifierCache.KeysApart | pkg/vaulthelper/kv/Modifier.go:147-192 | two pairs of environment and address share a pool if and only if they are the same, for environments without a plus sign |
| ModifierCache.ModCache.Clean | pkg/vaulthelper/kv/Modifier.go:199-214 | a pool that counts more than one loses its oldest entries up to the limit, and the counter follows |
| ModifierCache.Cache.CheckInitModCache | pkg/vaulthelper/kv/Modifier.go:146-152 | the pool exists afterwards, no queue has changed, and each pool still belongs to one environment and address |
| ModifierCache.Cache.PruneCache | pkg/vaulthelper/kv/Modifier.go:216-224 | a pool above the limit loses its oldest entries, others are untouched |
| ModifierCache.Cache.CachedModifierHelper | pkg/vaulthelper/kv/Modifier.go:154-167 | the oldest queued modifier for the address is taken, or none if the channel is empty |
| ModifierCache.Cache.NewModifier | pkg/vaulthelper/kv/Modifier.go:97-144 | a modifier for the requested address, with the requested settings and every other reset field empty, whatever its history; which queued one it is, and that a used one keeps its environment. The address holds while each pool has one address, which all methods keep for environments without a plus sign |
| ModifierCache.Cache.ReleaseHelper | pkg/vaulthelper/kv/Modifier.go:182-193 | a pool of more than ten is cleaned, then the modifier is queued last |
| ModifierCache.Cache.Release | pkg/vaulthelper/kv/Modifier.go:170-180 | a stale modifier is dropped, any other goes to the pool of its environment or its raw environment and of its address; the queue of every other environment and address is as it was |
| GraphTree.MergeAllUnique | trcweb/server/gql.go:148-212 | sibling names stay unique at every level |
| GraphTree.MergeAllPlaced | trcweb/server/gql.go:148-212 | every id is a position and every parent id an ancestor's position, after any sequence of merged inputs |
| GraphTree.MergeAllHas | trcweb/server/gql.go:148-212 | the tree has exactly the paths it had and those that are given |
| GraphTree.MergeAllHolds | trcweb/server/gql.go:200-206 | the values under a path are those held before and then all given for it, in input order |
| GraphTree.MergeConserves | trcweb/server/gql.go:143-243 | the merged tree has unique names, ids that are positions, exactly the given paths, and for each file the concatenation of all given values |
| GraphTree.IdsArePositions | trcweb/server/gql.go:267-331 | a node found at a position carries that position in its ids, and so do its values |
| GraphTree.ResolversFindTheirNode | trcweb/server/gql.go:267-331 | every chained lookup that a resolver makes is in bounds and returns the node or value it was asked about |
| GraphMerge.AgreesUpdated | trcweb/server/gql.go:150-153 | rewriting a visited node keeps the index in agreement with a linear search |
| GraphMerge.AgreesAppended | trcweb/server/gql.go:154-158 | appending a new node and its index entry does too |
| GraphMerge.MergeLevel | trcweb/server/gql.go:161-212 | each nested loop computes the merge by linear search, and index and search agree afterwards at this level and all below |
| GraphMerge.InitGQL | trcweb/server/gql.go:143-243 | the merge of both sources, with an index that agrees with it |
| TemplateTree.FirstWins | pkg/trcx/xutil/xmanager.go:883-904 | what the first tree defines along a path stays; everything else there comes from the second; no leaf is invented |
| TemplateTree.AbsorbsExactly | pkg/trcx/xutil/xmanager.go:883-904 | when merging changes nothing, in terms of both trees |
| TemplateTree.UnionAssociates | pkg/trcx/xutil/xmanager.go:883-904 | merging is associative if and only if the shapes of the three trees fit |
| TemplateTree.UnionCommutes | pkg/trcx/xutil/xmanager.go:883-904 | merging two trees gives the same in both orders if and only if they agree |
| TemplateTree.TemplateOrderIrrelevant | pkg/trcx/xutil/xmanager.go:938-942 | the combined template is the same for every order of arrival if and only if all results agree |
| TemplateTree.CombinedLeaves | pkg/trcx/xutil/xmanager.go:938-942 | every leaf of the combined template is a leaf of the base or of one of the sections |
| ArrivalOrder.FoldPermuted | pkg/trcx/xutil/xmanager.go:193-215 | combining results whose elements can be swapped gives the same for every order in which they arrived |
| TemplateMerge.MapNode.Absorb | pkg/trcx/xutil/xmanager.go:885-896 | in place, the first tree becomes the union of both; the second is untouched, and branches that only it has are shared, not copied |
| TemplateMerge.MergeMaps | pkg/trcx/xutil/xmanager.go:883-904 | the result stands for the union; it is the second tree when the first is nil and the second a mapping, and the first otherwise |
| TemplateMerge.MapNode.CombineSection | pkg/trcx/xutil/xmanager.go:938-942 | merging separately built templates into one in place gives their combination |
| SeedSections.Sections.ParseAndSetSection | pkg/trcx/extract/xparser.go:151-198 | one entry of one section is set, kept or passed over as the existing value, Vault's and the template's demand; everything else stays |
| SeedSections.Sections.Parse | pkg/trcx/extract/xparser.go:207-314 | the effect of one element on the template and both sections; in particular the reference, the entry and the regional entries that an element with a value or a secret's name leaves, whatever was there and in Vault; any other element, or one with a value in a path that is too short, fails and changes nothing |
| SeedSections.ElementTakes | pkg/trcx/extract/xparser.go:218-308 | the text of the reference, the entry's value out of the stored, Vault's and the element's own, the same for each region's name, and nothing in the other section |
| SeedSections.QuotedValueStored | pkg/trcx/extract/xparser.go:219-226 | a value in quotes is stored without them |
| SeedSections.BareNumberLosesDigits | pkg/trcx/extract/xparser.go:222-226 | a bare number of two digits or more loses its first and last digit |
| SeedSections.SecretAwaited | pkg/trcx/extract/xparser.go:267-295 | a secret that nobody has given holds the placeholder, a certificate the word data |
| SeedSections.AskedUnder | pkg/trcx/extract/xparser.go:228-275 | under which part of its path a template's values and secrets are looked up |
| SeedSections.FitsExactly | pkg/trcx/extract/xparser.go:228-232 | for which paths an element with a value can be parsed |
| SeedSections.Sections.ToSeed | pkg/trcx/extract/xparser.go:88-120 | all elements of a template are parsed, or it is refused exactly if one fails or mentions the region mark |
| SeedSections.PutLeaves | pkg/trcx/extract/xparser.go:317-354 | a reference lands at its path, and of the other leaves only those above and below that path go |
| SeedSections.EntryIsChosen | pkg/trcx/extract/xparser.go:160-197 | over any commands an entry gets the first offered value that is neither empty nor the placeholder, or else the last; a regional name that Vault does not know gets none |
| SeedSections.CommandKeepsIntegrity | pkg/trcx/extract/xparser.go:179-184 | a command keeps every reference resolvable if and only if its name has no region mark or has a value already |
| SeedSections.ToSeedIntegrity | pkg/trcx/extract/xparser.go:88-120 | every leaf that an accepted template produces refers to an entry of its own name |
| SeedSections.ArrivalOrderIrrelevant | pkg/trcx/xutil/xmanager.go:915-931 | the combined section is the same for every order of arrival if and only if no two sections disagree on an entry that both have |
| SeedSections.CombinedIntegrity | pkg/trcx/xutil/xmanager.go:495-498 | combining results whose references resolve gives one whose references resolve |
| SeedSections.SeedIntegrity | pkg/trcx/xutil/xmanager.go:346-498 | for any templates and any order of arrival, every leaf of the combined template refers to an entry of the combined values or secrets |
| SeedSections.Combiner.CombineSection | pkg/trcx/xutil/xmanager.go:915-931 | the nested loops, with keys in any order, add the sections one after the other, the last value for an entry winning |
| SeedWorklist.SeedVaultFromData | pkg/trcinit/initlib/vault-seed.go:681-731 | the worklist terminates, fails exactly on a verification that is no mapping, makes as a multiset the writes of a recursion over the seed, and holds the root's verification out |
| SeedWorklist.Visit | pkg/trcinit/initlib/vault-seed.go:692-727 | one mapping: its own values are collected and its sub-mappings pushed, whatever the order of the keys |
| SeedWorklist.PathsDistinct | pkg/trcinit/initlib/vault-seed.go:699-706 | with non-empty keys free of slashes every write is made once and no two go to the same path |
| SeedWorklist.LeavesWritten | pkg/trcinit/initlib/vault-seed.go:702-730 | a leaf is in the seed if and only if it is written under its own key and under a path that, split at its slashes, gives the keys above it from the root down |
| SeedWorklist.SeedRecovered | pkg/trcinit/initlib/vault-seed.go:681-731 | two seeds make the same writes if and only if they are equal up to nils, mappings without a value and what is held out |
| SeedTemplate.BaseTemplate.SeedVaultById | pkg/core/util/util.go:165-226 | both loops fill the shared base with the row's cells, and the seed is the combination of the filled sections |
| SeedTemplate.NamesKept | pkg/core/util/util.go:179-216 | no sequence of rows adds or removes a name or touches another service |
| SeedTemplate.FreshSeed | pkg/core/util/util.go:165-226 | the seed for a row is what a fresh base gives, whatever came before, if and only if the row defines every template name |
| SeedTemplate.EntryAfter | pkg/core/util/util.go:179-216 | an entry holds what the last row that has its name gave, or else the base's value |
| SeedTemplate.CellShown | pkg/core/util/util.go:181-195 | what a cell is written as: its text, nothing for nil, and a number in decimal that reads back as the number |
| SeedTemplate.CombinedAlone | pkg/core/util/util.go:220-226 | combining a single result changes nothing but a template without leaves |
| RegionOverlay.Properties.GetPluginData | pkg/core/util/properties.go:89-153 | the overlaid fields and the saved base fields, for some order of the loop over regional fields |
| RegionOverlay.Properties.WritePluginData | pkg/core/util/properties.go:155-190 | the base fields are put back in some order and everything is written over what Vault holds |
| RegionOverlay.OtherRegionsKept | pkg/core/util/properties.go:164-181 | after reading, editing base names and writing, every field of another region is as it was |
| RegionOverlay.BaseKeptEditStored | pkg/core/util/properties.go:94-130 | in any visit of a region a field with a counterpart keeps its stored value, and the edited value is stored for the region unless a field bears the mark twice |
| RegionOverlay.BaseKeptExactly | pkg/core/util/properties.go:89-190 | a base field other than the flags keeps its stored value in every visit if and only if it has a counterpart, or the region has no data and it is one of the four defaults |
| RegionOverlay.EditStoredByName | pkg/core/util/properties.go:160-169 | the field `name~region` takes the edited value of `name`, which keeps its own |
| RegionOverlay.EditStoredExactly | pkg/core/util/properties.go:89-190 | the edited value of a base field with a counterpart is stored for the region in every visit if and only if no field bears the region's mark twice |
| RegionOverlay.EditedForAll | pkg/core/util/properties.go:124-181 | otherwise a base field without a counterpart is overwritten with the edited value for all regions |
| RegionOverlay.DoubledMarkLosesEdit | pkg/core/util/properties.go:164-169 | with the mark twice the edit is lost whenever the regional field is restored after the base field |
| RegionOverlay.FlagKept | pkg/core/util/properties.go:135-150 | a flag keeps its base value if and only if the region has none or the same |
| RegionOverlay.FlagReads | pkg/core/util/properties.go:135-147 | which texts make a flag true, and whose text is read |
| RegionOverlay.FlagEditStored | pkg/core/util/properties.go:135-169 | the edited value of a flag is stored for the region in any visit, unless a field bears the mark twice |
| RegionOverlay.LongerNameLeavesJunk | pkg/core/util/properties.go:96-169 | a field that mentions the region without ending with it stays and gets a copy with the mark appended |
| RegionOverlay.FirstVisit | pkg/core/util/properties.go:107-123 | without regional data each of the four default fields present keeps its value and the edited one is stored for the region |
| RegionOverlay.FirstVisitCreates | pkg/core/util/properties.go:110-123 | a default field that is not stored gets a regional value, false for the flags and empty for the others |
| RegionOverlay.OrphanEdit | pkg/core/util/properties.go:96-128 | a field that only the region has becomes a base field with the edited value, and the region keeps the old one |
| FleetTree.Fleet.AddRow | atrium/trcflow/core/dataFlowStatistics.go:172-251 | the searches and appends for one row insert it at its place |
| FleetTree.Fleet.AddRows | atrium/trcflow/core/dataFlowStatistics.go:154-252 | the row loop inserts every row in order |
| FleetTree.Fleet.Nodes | atrium/trcflow/core/dataFlowStatistics.go:253-255 | each argosy once, with its children, in any order |
| FleetTree.NotCaptured | atrium/trcflow/core/dataFlowStatistics.go:213-225 | the search for a dashed flow never stops at a statistic |
| FleetTree.InsertSound | atrium/trcflow/core/dataFlowStatistics.go:172-251 | inserting keeps interior siblings distinct, statistics childless and each at its row's place |
| FleetTree.InsertRows | atrium/trcflow/core/dataFlowStatistics.go:172-251 | a row adds exactly one leaf, at its place, behind those that are there |
| FleetTree.FleetHolds | atrium/trcflow/core/dataFlowStatistics.go:154-255 | for any rows the leaves at each place are the rows that belong there, in row order, in a sound tree |
| FleetTree.DashedRows | atrium/trcflow/core/dataFlowStatistics.go:194-231 | the leaves under a group, the part of a name in front of its first dash and the whole name are exactly the rows with that group and name, in row order |
| FleetTree.UndashedRows | atrium/trcflow/core/dataFlowStatistics.go:233-251 | and for a name without a dash those directly under the group and the name |
| FleetTree.FleetIds | atrium/trcflow/core/dataFlowStatistics.go:140-178 | the argosies are exactly those listed and those that a row names |
| Common.TrimTakesSlashes | atrium/trcflow/core/dataFlowStatistics.go:142-144 | trimming takes only slashes, from both ends, and leaves none there |
| IdRanges.BuildDataFlowStatistics | atrium/buildopts/argosyopts/options_stub.go:162-193 | consecutive ids; the returned lists hold those of the built nodes |
| IdRanges.BuildDataFlows | atrium/buildopts/argosyopts/options_stub.go:123-160 | flows at their stride; the curves returned are those of the last flow only |
| IdRanges.BuildDataFlowGroups | atrium/buildopts/argosyopts/options_stub.go:83-121 | groups at their stride with their flows |
| IdRanges.BuildArgosies | atrium/buildopts/argosyopts/options_stub.go:38-81 | argosies at their stride with their groups; the collected ids are those of all nodes but the statistics |
| IdRanges.ArgosiesLinked | atrium/buildopts/argosyopts/options_stub.go:70-184 | throughout the fleet each element names its parent and, behind one marker, exactly the elements below it |
| IdRanges.ArgosyFits | atrium/buildopts/argosyopts/options_stub.go:50-90 | what an argosy uses fits its stride although single groups may not fill theirs |
| IdRanges.IdsDistinct | atrium/buildopts/argosyopts/options_stub.go:38-193 | for any number of argosies all ids are distinct if flows per group and groups per argosy are at most the statistics per flow |
| IdRanges.GroupsDistinct | atrium/buildopts/argosyopts/options_stub.go:83-121 | the ids of an argosy's groups and everything below are distinct if and only if there is at most one group, no statistic, or at most as many flows as statistics |
| IdRanges.FleetDistinct | atrium/buildopts/argosyopts/options_stub.go:38-193 | for any number of argosies: all ids are distinct if and only if there is no argosy; or, without statistics, one argosy, no flow, or at most as many groups as flows; or, with more flows than statistics, at most one group; or, otherwise, one argosy or at most as many groups as statistics |
| IdRanges.MoreGroupsThanStatistics | atrium/buildopts/argosyopts/options_stub.go:38-90 | in the case left open ids can collide: the third group of an argosy meets the second argosy |
| PathExpansion.Configurations.RecursivePathBuilder | pkg/cli/trcxbase/trcxbase.go:445-554 | the closure terminates and starts, in any order, exactly the configurations of the recursion over the parts |
| PathExpansion.ExactlyTheMatches | pkg/cli/trcxbase/trcxbase.go:511-553 | a path is built if and only if it is the pattern with a child filled in for each wildcard, each listed under the path before it |
| PathExpansion.BuiltExactly | pkg/cli/trcxbase/trcxbase.go:511-553 | a path is built if and only if, split at its slashes, it has one component for each part of the pattern: the part itself, or a child listed under the components before it |
| PathExpansion.BuiltOnce | pkg/cli/trcxbase/trcxbase.go:532-543 | with names free of slashes each path is built once |
| PathExpansion.FillInjective | pkg/cli/trcxbase/trcxbase.go:540-542 | and different choices give different paths |

## Left out

- Vault's HTTP interface, tokens, retries, TLS and the file system; Vault is a map and the SQL tables are a map and a set.
- SQL text and the engine: only which table, key and columns a query touches is kept. A row's index path is stood for by its id, and conversions of row types are identities.
- Failing queries and failing Vault writes, and the early returns that leave `changesLock` held; the index path callback may fail and is part of the model.
- Callers of `CallDBQuery` that pass no `TrcChangeId` or change no row; every modelled writer records its id.
- Re-injection into the three-column change table for public paths, the push to a remote database, flow controllers and the branch that exits the process on a signal.
- The entry at the flow's own path that an empty path for a deleted row makes the program remove; it belongs to no id.
- `RemoveFromCache` for a pool that does not exist, on which the program panics.
- ModifierPool: a map lookup and the channel or counter operation on what it finds are one step; the wait for a channel is a step that may or may not find something.
- ModifierPool: a goroutine that is blocked on the channel of a pool that was replaced meanwhile; in the model it goes on with the new one.
- ModifierCache: clients, connections and their closing. With a plus sign in an environment two pools can share a key; nothing is said about addresses then.
- GraphQL providers and sessions, whose ids are fixed, filters by regular expression and the GraphQL library.
- IdRanges.FleetDistinct: says nothing about several argosies with fewer flows than statistics and more groups than statistics, where collisions depend on how the strides meet; `IdsDistinct` and `MoreGroupsThanStatistics` bound that case.
- Filters of the GraphQL resolvers, by an exact name or an environment.
- `AppendToTemplateSection` updates nested maps through references; SeedSections does so on values, while TemplateMerge has the references for `MergeMaps`.
- `GetInitialTemplateStructure`, the Go template parser, cert handling, filters of template paths, authentication sections and YAML text; the lookup in the configuration store is a function of service, path and name.
- The refusal of seeds with placeholder values before the worklist, the writes that follow it and the verification itself; list values count as leaves, and keys are text.
- `SeedVaultById` hands its seed to the worklist as text; rendering times and values of other types is stood for by their printed form.
- Another writer of the same plugin entry between reading and writing it, failed reads of it, and a configuration that is missing altogether, for which the program panics when a region is given.
- RegionOverlay.FlagKept: assumes that the flags are stored as text, as the store delivers them.
- FleetTree is on values: nodes are not shared. The second way to read statistics, from Vault instead of rows, the parsing of a row's mode and time, and time stamps are not modelled.
- Names and labels of generated elements and the position in the label list; the powers are exact integers instead of floating point.
- Authentication, versions and logging around the path builder; a listing is one function of the path for the whole expansion.
