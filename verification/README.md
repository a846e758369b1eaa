# Verification of the CLI proxy's core state machines

CLIProxyAPI puts several command-line AI accounts behind one HTTP API. This project models the parts of
it that keep state or rewrite data, and proves what they keep.

| files | component |
|---|---|
| `RegistryModel`, `RegistryIndex`, `RegistryReconcile`, `RegistryAvailability`, `RegistryEffects`, `RegistryQueries`, `RegistryListing`, `ModelRegistry` | the model registry: reference counts over the models that clients list, kept by an incremental reconciliation |
| `DispatcherModel`, `DispatcherProofs`, `DispatcherDiff`, `DispatcherEffects`, `DispatcherRaces`, `AuthPipeline` | the pipeline that carries credential changes from the file watcher to the service: diff, coalescing, queue, consumer |
| `Wildcard`, `ModelAlias` | excluding models by patterns, and renaming or forking them by aliases |
| `YamlNode`, `YamlMerge`, `YamlEffects`, `YamlCover`, `YamlCoverage`, `YamlOrder`, `YamlTwice`, `YamlTree` | writing a generated configuration into the user's YAML tree without losing its layout |
| `UsageModel`, `UsageRecords`, `UsageKeys`, `UsageMerge`, `UsageRuns`, `UsageObjects`, `UsageStatistics` | request and token statistics with their redundant totals, and the deduplicating import |
| `FixJson`, `JsonPaths` | turning single-quoted into standard JSON strings; printing, splitting and collecting paths into JSON values |
| `ThinkingLevels`, `ThinkingConfig` | normalising a thinking configuration for a model |
| `SignatureModel`, `SignatureCache` | the cache of thinking signatures with sliding expiry |
| `Collections`, `Text`, `Sorting` | shared facts about maps, sets, strings and sorting |

Each component follows the same plan. Functions over values say what one operation means. Classes and
methods with loops, in the form of the Go code, are proved to compute exactly that; loops over Go maps
take the keys in any order. Lemmas then relate several operations, or whole runs of them, to a statement
that does not mention the algorithm: a recount over the clients, the state the watcher knows, a
replacement of stars by strings, a sum over the log. What an operation reads from its input and which
constants and names it goes by is stated once more in literal terms, by positions, texts and numbers; the
files named `…Effects`, `UsageRecords` and the last parts of the others hold these statements.

`dafny verify dfyconfig.toml` checks everything.

## Where the code does not do what one would expect

These are properties that fail for some inputs. For each there is a lemma with the exact condition; the
one exception, saving twice, is named under "Left out".

- A quota failure (status 429) marks a client both as over quota and as suspended. `GetModelCount`
  subtracts both, so one exhausted client can hide a healthy second one
  (`RegistryAvailability.QuotaFailureHidesHealthyClient`, exact condition in `CountExactIff`).
- A client that lists one id twice still counts once after it has been suspended. A positive count can be
  trusted exactly when no client lists the model twice (`RegistryAvailability.CountTrustedIff`).
- Incremental re-registration keeps marks that a fresh registration would not, and the reverse, when a
  mark names a client that does not list the model (`RegistryReconcile.ReRegisterEqualsFresh`).
- `GetFirstAvailableModel("gemini")` never finds a model, because the Gemini format has no `id` key
  (`RegistryQueries.GetFirstAvailableModel`).
- A refresh computes its updates under one lock and enqueues them after releasing it; a runtime update in
  between can be undone (`DispatcherRaces.InterruptedRefreshConvergesIff`). A deleted runtime record then
  stays enabled until its id occurs again (`DispatcherRaces.StuckForGood`).
- A deletion without an id of its own, which the code accepts and none of its callers sends, can overtake a
  later addition (`DispatcherRaces.UnkeyedDeletionIff`).
- Reloading after a change of excluded models drops records from the known state without emitting
  deletions (`DispatcherDiff.ReloadConvergesIff`).
- A backslash in a JSON key is not escaped in a path (`JsonPaths.PathRoundTrip` has the exact set of
  keys that survive).
- Imported details with a negative token total are clamped in some totals and not in others
  (`UsageRuns.RunConserves`, `UsageMerge.MergeKeepsTokensIff`).
- A bar in the API, the model, the source or the auth index makes a request share its deduplication key
  with a different one, and nothing else does (`UsageKeys.OwnKeyIff`).
- A value under a blank key of a mapping inside a YAML sequence is lost when the file is saved
  (`YamlCoverage.CoverageIff`).
- Saving the same configuration twice can change the file a second time, when the first save changes the
  text by which an element of a sequence is recognised (`YamlTwice.SecondSaveDiffers`, with
  `YamlTwice.SavedTwice` and `YamlTwice.SingleTwiceIff` for when it does not).
- When automatic thinking is not allowed, the fixed value that replaces it may itself be refused by the
  same check; `AUTO` in any spelling but the lower-case one reaches budget-only models as the budget -1; a
  budget below -1, which the documentation excludes and the readers of requests pass on, can become zero
  (`ThinkingConfig.AcceptedMeetsIff`, `ThinkingConfig.IdempotentIff`, `ThinkingConfig.SpelledAutoOutcome`).

Two comments in the source say something else than the code, and the code was followed: the comment of
`mergeNodePreserve` says that sequences are merged by index, but elements are first matched by identity;
the comment of `startCacheCleanup` says that only caches with nothing but expired entries are removed,
but expired entries are removed from every cache.

## Model

| member | source | states |
|---|---|---|
| RegistryIndex.ReachableIsIndexed | internal/registry/model_registry.go:207-489 | after every run of register, unregister, quota, suspend, resume and cleanup calls, a model is registered iff some client lists it, its count is the number of times clients list it, each provider has exactly its share of that count (an entry iff positive), and infos exist for exactly those providers |
| RegistryIndex.RegisterKeepsIndex | internal/registry/model_registry.go:207-413 | registering or re-registering any client with any offer (duplicates, missing infos, provider change) keeps the index exact |
| RegistryIndex.UnregisterKeepsIndex | internal/registry/model_registry.go:534-588 | unregistering keeps the index exact |
| RegistryIndex.MarksKeepIndex | internal/registry/model_registry.go:594-671 | quota and suspension marks never touch what the index counts |
| RegistryIndex.RegisteredIffListed | internal/registry/model_registry.go:485-488 | in an indexed state the registered ids are exactly the ids some client lists |
| RegistryIndex.ReconcileMovesCount | internal/registry/model_registry.go:288-368 | the five edits of the incremental path together change the total of an id by new minus old multiplicity |
| RegistryIndex.ReconcileMovesProvider | internal/registry/model_registry.go:288-387 | the same for every provider, although overlapping units leave the old provider and reach the new one in two different places |
| RegistryIndex.ReconcileMoves | internal/registry/model_registry.go:288-387 | both together, for all providers at once |
| RegistryReconcile.ReRegisterCountsAsFresh | internal/registry/model_registry.go:266-403 | re-registering incrementally yields the counts, provider counts and infos of unregistering and registering afresh, for every id and any mix of removed, reduced, increased and overlapping ids and any provider change |
| RegistryReconcile.ReconcileEqualsReplace | internal/registry/model_registry.go:288-387 | one id: the edits equal removal followed by addition, exactly when its marks are settled |
| RegistryReconcile.ReRegisterEqualsFresh | internal/registry/model_registry.go:266-403 | the whole registries are equal exactly when an offered id that the client does not list yet carries no mark of the client, and an offered id that only the client lists carries no mark of another |
| RegistryReconcile.ListedMarksAreSettled | internal/registry/model_registry.go:594-648 | that condition holds whenever marks only name clients that list the model |
| RegistryReconcile.UnsettledMarksExample | internal/registry/model_registry.go:594-603 | a mark set for a client that never registered makes the two ways differ |
| RegistryAvailability.CountNeverOverstates | internal/registry/model_registry.go:884-910 | a positive model count means that some client of the model is neither cooling down nor suspended, and never exceeds the number of those clients |
| RegistryAvailability.CountExactIff | internal/registry/model_registry.go:884-910 | with marks on listed pairs the count is that number unless some client is both cooling down and suspended while another is ready |
| RegistryAvailability.QuotaFailureHidesHealthyClient | sdk/cliproxy/auth/conductor.go:1196-1217 | a quota failure marks a client in both ways, so one exhausted client makes the count of a model with a healthy second client zero |
| RegistryAvailability.CountTrustedIff | internal/registry/model_registry.go:884-910 | whatever the quota and suspension marks are, a positive count means that a client of the model is ready, exactly when no client lists the model twice |
| RegistryAvailability.AllSuspendedCountsIff | internal/registry/model_registry.go:624-648 | after suspending every client of a model, so that none is ready, its count is still positive exactly when some client lists it twice |
| RegistryAvailability.CountedIsOffered | internal/registry/model_registry.go:704-751 | a model with a positive count is listed at the same instant |
| RegistryAvailability.RecountMatchesIndex | internal/registry/model_registry.go:773-808 | the per-client recount of a trimmed id is never below the maintained provider count, and equal to it exactly when no client of the provider lists an untrimmed variant |
| RegistryModel.GainOneMore | internal/registry/model_registry.go:415-454 | adding k units and then one is adding k+1 |
| RegistryModel.LoseOneMore | internal/registry/model_registry.go:456-489 | removing k units and then one is removing k+1, also across the deletion of the registration |
| RegistryModel.RegisterClientAt | internal/registry/model_registry.go:207-413 | a registration acts on every id separately |
| RegistryModel.UnregisterClientAt | internal/registry/model_registry.go:534-588 | so does an unregistration |
| RegistryEffects.RegisterEnrols | internal/registry/model_registry.go:207-265 | read off the positions of the offer: the stored list is the subsequence of all ids of present models with an id, the stored info of an id is the model at the least position with it, the provider is stored in lower case or not at all, an offer without such a model removes the client, and no other client changes |
| RegistryEffects.RegisterAnnounces | internal/registry/model_registry.go:207-454 | every offered id is registered afterwards with the first info offered for it, also for the provider, and with the time of the call |
| RegistryEffects.RegisterKeepsMarks | internal/registry/model_registry.go:266-413 | a registration or re-registration removes the marks of a known client from the ids that it lists or offers, and no other mark |
| RegistryEffects.RegisterLeavesOthers | internal/registry/model_registry.go:266-413 | an id that the client neither lists nor offers is left as it is |
| RegistryEffects.DroppedIsStamped | internal/registry/model_registry.go:534-588 | an id that the client lists no more is stamped with the time of the change, if another client still lists it |
| RegistryEffects.QuotaHidesForFiveMinutes | internal/registry/model_registry.go:594-603 | a client whose quota is exhausted is not ready for the model for five minutes, and ready again afterwards unless it is suspended; nobody else is affected |
| RegistryEffects.ClearedIsReady | internal/registry/model_registry.go:609-617 | a cleared client is ready unless it is suspended |
| RegistryEffects.SuspendedNeverReady | internal/registry/model_registry.go:624-648 | a suspended client is not ready at any time, with the first reason kept; blank names do nothing |
| RegistryEffects.ResumedIsReady | internal/registry/model_registry.go:654-671 | a resumed client is ready unless its quota is exhausted |
| RegistryEffects.OthersStayReady | internal/registry/model_registry.go:594-671 | a change of the marks of one client on one model leaves every other client, and every other model, ready or not as before |
| RegistryEffects.CleanupForgetsExpired | internal/registry/model_registry.go:1093-1108 | a mark stays until it is five minutes old and goes then, and the cleanup makes nobody ready or unready |
| RegistryEffects.HiddenIff | internal/registry/model_registry.go:704-751 | a registered model is hidden from the list exactly when some client is suspended for another reason than the quota and no more units are counted than there are such clients and clients with a mark younger than five minutes |
| RegistryEffects.HiddenFromClients | internal/registry/model_registry.go:704-751 | with each client listing it once: hidden exactly when some client is so suspended and the clients listing it are at most as many as the so suspended and the exhausted ones together |
| ModelRegistryClass.ModelRegistry.AddModelRegistration | internal/registry/model_registry.go:415-454 | the registration object gains one unit |
| ModelRegistryClass.ModelRegistry.RemoveModelRegistration | internal/registry/model_registry.go:456-489 | it loses one unit, and goes with the last one |
| ModelRegistryClass.ModelRegistry.RegisterClient | internal/registry/model_registry.go:207-413 | loops over maps run in any order; afterwards the registry is indexed, the list of the client is the ids of all present models of the offer with an id, in order and with repetitions, its info of an id is the first offered one, every offered id is registered with that info and the time of the call, an offer without such a model forgets the client, and only the marks of the client on ids it lists or offers are gone |
| ModelRegistryClass.ModelRegistry.UnregisterClient | internal/registry/model_registry.go:527-588 | the same for unregistering |
| ModelRegistryClass.ModelRegistry.SetModelQuotaExceeded | internal/registry/model_registry.go:594-603 | sets the quota mark and nothing else |
| ModelRegistryClass.ModelRegistry.ClearModelQuotaExceeded | internal/registry/model_registry.go:609-617 | removes it |
| ModelRegistryClass.ModelRegistry.SuspendClientModel | internal/registry/model_registry.go:624-648 | sets the first reason only |
| ModelRegistryClass.ModelRegistry.ResumeClientModel | internal/registry/model_registry.go:654-671 | removes the suspension |
| ModelRegistryClass.ModelRegistry.CleanupExpiredQuotas | internal/registry/model_registry.go:1093-1108 | removes exactly the expired quota marks |
| RegistryQueries.GetModelCount | internal/registry/model_registry.go:884-910 | the count, and what a positive one implies about the clients |
| RegistryQueries.FormatTable | internal/registry/model_registry.go:991-1088 | which formats carry the id and the creation time: openai a positive one, claude and gemini none, gemini no id either, all others any but zero |
| RegistryQueries.GetAvailableModels | internal/registry/model_registry.go:704-751 | exactly the offered models, each once, in the format of the handler |
| RegistryQueries.GetFirstAvailableModel | internal/registry/model_registry.go:1120-1151 | a chosen id is listed and has a positive count; nothing is chosen exactly when no model has one or the handler is gemini, whose format has no id; with all timestamps present the choice is a newest one |
| RegistryQueries.GetModelProviders | internal/registry/model_registry.go:918-967 | exactly the providers with a positive recount, by count descending and then by name in the order of the characters |
| RegistryListing.GetAvailableModelsByProvider | internal/registry/model_registry.go:759-876 | under the trimmed lower-cased provider: exactly the stored models that some client of it lists in any spelling with spaces and that its marks do not hide, each once, with the info that a listing client gave or the stored one where it gave none; nothing for a blank provider |
| RegistryListing.HiddenFromProviderIff | internal/registry/model_registry.go:818-873 | a listed model is hidden exactly when a client of the provider is suspended for another reason than the quota and no more units are counted than there are such clients and clients with a young quota mark |
| RegistryListing.RecountIs | internal/registry/model_registry.go:773-808 | the units counted for a provider are the number of all places at which its clients list the id, with or without spaces around it |
| RegistryListing.RecountMeetsIndex | internal/registry/model_registry.go:773-808 | the recount behind that listing is never below the units booked for the provider, and equals them exactly when no client of it lists an untrimmed variant of the id |
| Sorting.SortOrdered | internal/registry/model_registry.go:1131-1139 | sorting by a comparison that is a weak order on the elements puts them in that order |
| DispatcherProofs.ReachableConverges | internal/watcher/dispatcher.go:40-209 | in every state reachable by refreshes, runtime updates, drains, deliveries and consumption: applying the queued, in-flight and pending updates in order to the records of the consumer gives what the watcher knows, up to the fields that comparison ignores; the order list is duplicate-free and has exactly the pending keys |
| DispatcherProofs.NextKeeps | internal/watcher/dispatcher.go:40-209 | every single step keeps this |
| DispatcherProofs.RefreshKeeps | internal/watcher/dispatcher.go:78-131 | a refresh keeps it for every snapshot and every order of the diff |
| DispatcherProofs.RuntimeKeeps | internal/watcher/dispatcher.go:40-76 | so does a runtime addition, change or deletion |
| DispatcherProofs.PendingEntry | internal/watcher/dispatcher.go:133-157 | coalescing: a pending batch acts on an id as the latest update for it, although that stands at the position of the first |
| DispatcherProofs.HandleAllIsEntry | sdk/cliproxy/service.go:129-202 | the consumer treats ids independently |
| DispatcherProofs.EffectMeets | sdk/cliproxy/service.go:275-329 | one applied update leaves what it asks for, whatever was there: records are replaced, deletions disable |
| DispatcherProofs.QuietAgrees | internal/watcher/dispatcher.go:166-209 | when nothing is outstanding, a record that the watcher knows is stored with the same id, disabled flag, status and other contents, and any other stored record is disabled |
| DispatcherProofs.AuthEqualIff | internal/watcher/dispatcher.go:234-250 | two records count as equal exactly when id, disabled flag, status and the other contents agree; only the five times and the runtime state are ignored |
| DispatcherEffects.ByIDHoldsLast | internal/watcher/dispatcher.go:93-131 | of several records with one id in a snapshot the last one counts, absent ones and those without an id do not |
| DispatcherEffects.DiffReports | internal/watcher/dispatcher.go:93-131 | an id is reported as added exactly when it is new, as changed exactly when the run is forced or id, disabled flag, status or contents differ, as deleted exactly when it is gone |
| DispatcherEffects.HandleStores | sdk/cliproxy/service.go:174-202 | an addition or change stores its record under the older creation and refresh times, a deletion disables the stored record, and nothing else changes |
| DispatcherEffects.HistoryStays | sdk/cliproxy/service.go:275-312 | over any number of updates the creation and refresh times of a stored record stay |
| DispatcherEffects.QueueBounded | internal/watcher/dispatcher.go:166-188 | in no reachable state does the queue hold more than 256 updates |
| DispatcherEffects.DeliveryIff | internal/watcher/dispatcher.go:166-188 | the next update of a batch can enter the queue exactly while it holds fewer than 256 |
| DispatcherEffects.KeyTable | internal/watcher/dispatcher.go:133-164 | an update waits under its id; without one, under its action and the clock |
| DispatcherEffects.NamelessIgnored | internal/watcher/dispatcher.go:40-76 | a runtime update that names no record changes nothing that is known |
| DispatcherProofs.NeverStuck | internal/watcher/dispatcher.go:166-209 | as long as something is outstanding a drain, delivery or consumption is possible |
| DispatcherProofs.InternalFinishes | internal/watcher/dispatcher.go:166-209 | each of those steps reduces the outstanding work, so convergence is reached when updates stop |
| DispatcherDiff.DiffIsExact | internal/watcher/dispatcher.go:93-131 | the updates of a refresh turn the old records into the new ones in whatever order they were emitted, exactly when forced and up to the ignored fields otherwise |
| DispatcherDiff.SilentIffUnchanged | internal/watcher/dispatcher.go:93-131 | an unforced refresh emits nothing exactly when the ids are the same and every record has the same id, disabled flag, status and contents |
| DispatcherDiff.DiffIsMinimal | internal/watcher/dispatcher.go:93-131 | no list of edits that reaches the new records leaves out an id of the unforced diff |
| DispatcherDiff.ReloadConvergesIff | internal/watcher/clients.go:36-56 | forgetting the records of some providers before a refresh emits no deletions: convergence holds exactly when each forgotten record is in the new state or was already disabled |
| DispatcherProofs.InternalKeeps | internal/watcher/dispatcher.go:166-209 | moving and applying updates changes neither what is known nor what the consumer will hold in the end |
| DispatcherRaces.InterruptedRefreshConvergesIff | internal/watcher/dispatcher.go:78-91 | when any runtime update falls between the diff of a refresh and its enqueueing, with any deliveries in between, the pipeline converges exactly when the refresh owes that id nothing or what it owes agrees with the newer update; a deletion is undone exactly by an addition or change of a record that is not disabled |
| DispatcherRaces.DeletionUndone | internal/watcher/dispatcher.go:78-91 | a forced refresh undoes in this way the deletion of every enabled runtime record |
| DispatcherRaces.StuckForGood | internal/watcher/dispatcher.go:40-209 | an undone deletion is never made up for by refreshes and runtime updates in which its id does not occur: the pipeline does not converge, and when nothing is outstanding the consumer holds the enabled record |
| DispatcherRaces.RefreshHeals | internal/watcher/dispatcher.go:78-131 | a refresh in whose records the id occurs again sets it right |
| DispatcherRaces.UnkeyedDeletionIff | internal/watcher/dispatcher.go:133-164 | a deletion without an id of its own waits under a separate key behind what is pending; a later addition of the record is overtaken by it exactly when an update of the record was pending and the added one is not disabled anyway |
| AuthPipelineClass.AuthPipeline.PrepareAuthUpdates | internal/watcher/dispatcher.go:93-131 | the returned updates are the diff, each id at most once; spelled out, the last record per id counts, and additions, changes and deletions are reported exactly for the ids that are new, differ in id, disabled flag, status or contents (or all, when forced), and are gone |
| AuthPipelineClass.AuthPipeline.DispatchAuthUpdates | internal/watcher/dispatcher.go:133-157 | the updates are coalesced into the pending ones in order |
| AuthPipelineClass.AuthPipeline.RefreshAuthState | internal/watcher/dispatcher.go:78-91 | takes one refresh step and keeps the convergence invariant; what is known afterwards is the last record per id of the snapshot, overruled by the runtime records, and what was reported is that difference |
| AuthPipelineClass.AuthPipeline.DispatchRuntimeAuthUpdate | internal/watcher/dispatcher.go:40-76 | takes one runtime step and keeps it |
| AuthPipelineClass.AuthPipeline.NextPendingBatch | internal/watcher/dispatcher.go:190-209 | takes the drain step |
| AuthPipelineClass.AuthPipeline.DeliverOne | internal/watcher/dispatcher.go:166-188 | takes the delivery step |
| AuthPipelineClass.AuthPipeline.HandleAuthUpdate | sdk/cliproxy/service.go:174-202 | applies one update to the records of the consumer: stores the record under the older times, or disables the stored one |
| AuthPipelineClass.AuthPipeline.ConsumeAuthUpdate | sdk/cliproxy/service.go:129-151 | takes the consumption step |
| Wildcard.MatchWildcard | sdk/cliproxy/service.go:1113-1154 | for every non-empty pattern the answer is yes exactly when the value is the pattern with each star replaced by some string |
| Wildcard.StarMatches | sdk/cliproxy/service.go:1123-1153 | with a star: the first piece is a prefix and the others follow, the last one at the end |
| Wildcard.LeftmostSuffices | sdk/cliproxy/service.go:1140-1152 | the exchange argument: taking the leftmost occurrence of a piece loses no match |
| Wildcard.SuffixFirst | sdk/cliproxy/service.go:1132-1138 | cutting the suffix off before searching the middle loses no match |
| Wildcard.IndexIsLeftmost | sdk/cliproxy/service.go:1146-1150 | the position used is the leftmost occurrence |
| Wildcard.ApplyExcludedModels | sdk/cliproxy/service.go:1035-1068 | keeps, in order, exactly the present models whose trimmed lower-cased id no configured text, trimmed and lower-cased, matches; a list without a text that is not blank excludes nothing |
| Wildcard.ExcludedFilters | sdk/cliproxy/service.go:1035-1068 | the same of the specification, by the positions of the kept models |
| Wildcard.ExcludedTwice | sdk/cliproxy/service.go:1035-1068 | excluding by two lists in turn is excluding by both at once |
| ModelAlias.ApplyModelAliases | sdk/cliproxy/service.go:1260-1362 | without usable rules nothing changes; otherwise the list is what the named models add one after the other, and no key stands in it twice |
| ModelAlias.ListedIff | sdk/cliproxy/service.go:1306-1359 | after its turn a model is listed under its own id exactly when the id was taken before, no rule applies to it, a rule forks it, or all its aliases were taken; its aliases are listed always |
| ModelAlias.InOrder | sdk/cliproxy/service.go:1295-1362 | every output is an input or a renamed copy of one under one of its aliases, in the order of the inputs |
| ModelAlias.NothingLost | sdk/cliproxy/service.go:1298-1360 | in the final list every alias of a listed model is present, its own id too unless rules apply and none forks it, and one of them in any case |
| ModelAlias.ForwardIs | sdk/cliproxy/service.go:1278-1293 | the aliases of a key are those of the rules whose name and alias are not blank, differ in more than case and have that name, in the order of the rules, each with its own fork flag |
| ModelAlias.ForwardEmptyIff | sdk/cliproxy/service.go:1260-1293 | nothing is renamed exactly when no rule applies to any id |
| ModelAlias.OwnFirst | sdk/cliproxy/service.go:1306-1359 | a model to which no rule applies, or that is forked, comes first among what it adds, unless its id is taken |
| ModelAlias.NoneNameless | sdk/cliproxy/service.go:1298-1360 | nothing with a blank id is listed |
| ModelAlias.CloneIs | sdk/cliproxy/service.go:1234-1258 | a renamed copy has the alias as its id and the same other data; the old id in its name, alone or after a slash, becomes the alias |
| ModelAlias.EndOfNameRewritten | sdk/cliproxy/service.go:1234-1258 | a name that ends in a slash and the old id ends in a slash and the new one, with everything before it kept |
| ModelAlias.OtherNameStays | sdk/cliproxy/service.go:1234-1258 | a name that neither is the old id nor ends so stays |
| ModelAlias.CopiesInOrder | sdk/cliproxy/service.go:1330-1351 | the copies a model adds stand in the order of its rules |
| FixJson.FixJSON | internal/util/translator.go:117-231 | the output says the same as the input, a second pass changes nothing, no single quote is left outside double quotes, and an input is returned unchanged exactly when it had none |
| FixJson.FixedSaysTheSame | internal/util/translator.go:117-231 | the simulation behind it: reading the output in the corresponding mode yields the same symbols |
| FixJson.FixedIsStandard | internal/util/translator.go:117-231 | the output uses only the string notation of section 7 of RFC 8259 |
| FixJson.UnchangedIffStandard | internal/util/translator.go:117-231 | unchanged exactly when the input did already |
| FixJson.FixedTwice | internal/util/translator.go:117-231 | idempotence |
| FixJson.StandardUnique | internal/util/translator.go:117-231 | standard texts that end in no open escape and say the same are equal, so the output is the only standard way to say what the input says |
| FixJson.PlainKept | internal/util/translator.go:117-231 | a string without quotes and backslashes keeps its characters, whichever quotes delimit it |
| FixJson.CopyHex | internal/util/translator.go:173-187 | the inner loop over hexadecimal digits does nothing the character-wise scan would not do |
| JsonPaths.PathRoundTrip | internal/util/gemini_schema.go:669-716 | splitting and unescaping the path built for a list of keys returns the keys exactly when the first key is not empty and each backslash stands before a star or question mark or ends the last key |
| JsonPaths.SplitGJSONPath | internal/util/gemini_schema.go:690-716 | the loop computes the pieces between unescaped dots |
| JsonPaths.UnescapeGJSONPathKey | internal/util/gemini_schema.go:673-688 | the loop computes the unescaped key |
| JsonPaths.DecodeIsKeys | internal/util/gemini_schema.go:673-716 | splitting first and unescaping each piece is the same as reading the path once |
| JsonPaths.Walk | internal/util/translator.go:26-53 | the collected paths are those of all occurrences, appended in the order of the traversal |
| JsonPaths.OccurrencesComplete | internal/util/translator.go:26-53 | an occurrence is exactly a list of keys that leads through the value to the field |
| JsonPaths.LeadsIff | internal/util/translator.go:26-53 | a key leads into an object through every member of that name and into an array through the item at that position |
| JsonPaths.CollectedPathsDecode | internal/util/translator.go:26-53 | every collected path leads along its keys to the field, and can be split back into them exactly when the first key is not empty and the backslashes in the keys are harmless |
| JsonPaths.DescendantsFirst | internal/util/gemini_schema.go:584-600 | after sorting by length the path of a descendant stands before that of its ancestor |
| UsageRuns.RunConserves | internal/usage/logger_plugin.go:154-376 | after any run of records and merges from an empty store, the request totals, successes and failures, the totals per API and model, by day and by hour are all recounts of the stored details; the token totals, overall, by day and by hour, are recounts exactly when no merge brought a detail with a negative total whose key was not stored yet |
| UsageRuns.StepKeeps | internal/usage/logger_plugin.go:154-376 | each record or merge keeps the request aggregates and never lowers the excess of the overall token total over the recount, which it leaves exactly when it adds no negative total |
| UsageRuns.OwnSnapshotAfterRun | internal/usage/logger_plugin.go:292-351 | after any run under a clock that never shows the zero time, merging the own log adds nothing when its names are trimmed and not blank |
| UsageModel.RequestsConserved | internal/usage/logger_plugin.go:154-224 | after any mix of recorded and imported details and opened APIs the request aggregates are recounts of the stored details, and requests are successes plus failures |
| UsageModel.TokensConservedIff | internal/usage/logger_plugin.go:353-376 | through any history, token totals that were recounts stay so exactly when no imported detail had a negative total |
| UsageModel.TokenExcess | internal/usage/logger_plugin.go:353-358 | through any history the excess of the overall token total over the recount grows by exactly what was clamped away from imports |
| UsageModel.BookKeepsRequests | internal/usage/logger_plugin.go:168-210 | booking one detail keeps every request aggregate |
| UsageModel.BookKeepsTokensIff | internal/usage/logger_plugin.go:353-376 | and the token aggregates exactly when the booked number is the total of the detail |
| UsageModel.TallyAdds | internal/usage/logger_plugin.go:213-224 | any sum over the log grows by the contribution of the added detail |
| UsageModel.NormaliseIdempotent | internal/usage/logger_plugin.go:456-464 | filling in a missing token total twice is filling it in once |
| UsageRecords.RecordBooks | internal/usage/logger_plugin.go:154-211 | the same of the specification, with every counter spelled out |
| UsageRecords.NormaliseFillsIn | internal/usage/logger_plugin.go:456-464 | a given total stays; a missing one is the sum of input, output and reasoning or, if that is zero, of these and the cached tokens |
| UsageRecords.DayAndHour | internal/usage/logger_plugin.go:168-176 | the day and the hour are those of the local time of the stamp |
| UsageRecords.MergeImports | internal/usage/logger_plugin.go:316-346 | whatever a merge adds is an incoming detail under its trimmed API, its trimmed model or unknown, its own time or else the present one, and its filled-in total |
| UsageRecords.HourText | internal/usage/logger_plugin.go:466-472 | the text of an hour is two digits that give the hour |
| UsageKeys.OwnKeyIff | internal/usage/logger_plugin.go:378-395 | a request shares its key with no different request, up to the location of its time stamp and the filled-in total, exactly when its API, model, source and auth index contain no bar |
| UsageKeys.KeysTellApart | internal/usage/logger_plugin.go:378-395 | when one of two requests has no bar in these texts, their keys agree exactly when the requests do |
| UsageKeys.KeyTellsTotal | internal/usage/logger_plugin.go:378-395 | with bars or without, requests with the same key have the same token total |
| UsageMerge.MergeOneKeeps | internal/usage/logger_plugin.go:333-346 | merging the detail at any place keeps the account: the store is the old one with the imports made so far, each the prepared form of an incoming detail with a key that was new, and what was seen, added and skipped agrees with them |
| UsageMerge.OpenKeeps | internal/usage/logger_plugin.go:321-327 | so does opening an empty entry for an API |
| UsageMerge.MergeAddsNewKeys | internal/usage/logger_plugin.go:292-351 | after a merge the stored keys are the old and the incoming ones, one detail was imported for each key in the difference and the rest was skipped |
| UsageMerge.MergedLog | internal/usage/logger_plugin.go:292-351 | everything stored before a merge is still in its place, and every other stored detail is the prepared form of an incoming one |
| UsageMerge.MergeKeepsTokensIff | internal/usage/logger_plugin.go:333-376 | a merge keeps the token totals recounts exactly when every incoming detail with a negative total has a stored key; otherwise the excess grows by what was clamped away |
| UsageMerge.MergeKeepsRequests | internal/usage/logger_plugin.go:292-376 | a merge keeps the request aggregates recounts |
| UsageMerge.AddsNothingIff | internal/usage/logger_plugin.go:292-351 | a merge adds nothing exactly when every incoming key is stored already |
| UsageMerge.SecondMergeAdds | internal/usage/logger_plugin.go:333-346 | a second merge of a snapshot adds exactly the keys that a later clock makes new, and nothing when every detail has a time stamp |
| UsageMerge.OwnSnapshotAddsNothing | internal/usage/logger_plugin.go:292-351 | merging the own log adds nothing when its details have time stamps and its names are trimmed and not blank |
| UsageStatisticsClass.RequestStatistics.Record | internal/usage/logger_plugin.go:154-211 | adds exactly one detail, under the API key or else the endpoint and the model or else unknown, with the source, auth index, time of the request or else the present one, and the given token total or else the sum of the parts; counts one request, as a success exactly when the record did not fail and was answered successfully; keeps the aggregates and is one operation of a run |
| UsageObjects.UpdateApiStats | internal/usage/logger_plugin.go:213-224 | in place, on the objects of an API and its models: the log under the model grows by one detail and nothing else changes |
| UsageStatisticsClass.RequestStatistics.Snapshot | internal/usage/logger_plugin.go:227-283 | the copy holds exactly what the objects hold, with the hours as two-digit texts |
| UsageStatisticsClass.ExportHours | internal/usage/logger_plugin.go:265-280 | each number stands under the text of its hour, no other text occurs, and the sum is kept |
| UsageModel.HoursTellApart | internal/usage/logger_plugin.go:466-472 | different hours of a day have different texts |
| UsageObjects.CopyApi | internal/usage/logger_plugin.go:243-257 | the same for one API |
| UsageStatisticsClass.RequestStatistics.RecordImported | internal/usage/logger_plugin.go:353-376 | books an imported detail with its clamped total |
| UsageStatisticsClass.RequestStatistics.MergeSnapshot | internal/usage/logger_plugin.go:292-351 | the loops over APIs, models and details, in any order of the maps, carry out the merge on the objects, as one operation of a run; the APIs afterwards are the old and the incoming ones, the aggregates stay recounts, and the token totals exactly when no negative total is new |
| UsageStatisticsClass.CollectSeen | internal/usage/logger_plugin.go:301-314 | the collected keys are those of everything stored |
| YamlCoverage.CoverageIff | internal/config/config.go:1095-1184 | with unique keys, a generated tree is covered by the result of merging it into every file exactly when no mapping inside a sequence has a non-default value under a blank key |
| YamlCoverage.MergeCovers | internal/config/config.go:1095-1184 | coverage: scalars are present with their tag and value, sequences have the generated length and are covered element by element (an explicit null may stand for an empty one), and each pair of a mapping is covered or was absent and a default value |
| YamlCoverage.SelfMergeLoses | internal/config/config.go:1485-1514 | a tree outside that condition loses something when it is merged into itself |
| YamlCoverage.PruneCovers | internal/config/config.go:1485-1514 | pruning loses only what stands under blank keys |
| YamlCoverage.MatchSelf | internal/config/config.go:1302-1343 | an element of a sequence that is merged into itself is matched with itself |
| YamlOrder.SelfMergeKeepsIff | internal/config/config.go:1126-1184 | merging an unchanged tree changes nothing exactly when no mapping inside a sequence has a blank key |
| YamlTwice.SavedTwice | internal/config/config.go:1126-1184 | saving the same generated tree twice is saving it once, when every element of a sequence that was merged into an old one is still found as its counterpart, and no new mapping inside a sequence has a blank key |
| YamlTwice.SingleTwiceIff | internal/config/config.go:1136-1178 | for a sequence of one element, merged into an old one, exactly when the merged element is found again by its identity or its structure |
| YamlTwice.FirstTextChanges | internal/config/config.go:1345-1385 | it is not when an element is recognised by its first text only and the file has, before that one, an empty pair that receives a text |
| YamlTwice.SecondSaveDiffers | internal/config/config.go:1345-1385 | a concrete pair of trees for which the second save changes the file |
| YamlTwice.SettlingNotNeeded | internal/config/config.go:1280-1343 | without that condition the second save can still change nothing, because an element is taken for another one |
| YamlTwice.ScalarsSettle | internal/config/config.go:1136-1178 | sequences of single values are always saved twice as once |
| YamlTwice.PrunedAgain | internal/config/config.go:1485-1514 | a merged and pruned element stays as it is when it is merged and pruned again |
| YamlOrder.KeysAfter | internal/config/config.go:1105-1120 | the keys of a merged mapping are those of the file in their order, followed by the new keys worth writing in the order of the generated tree |
| YamlOrder.OthersStay | internal/config/config.go:1105-1120 | key nodes stay, and so does every value that is not the first under a generated key |
| YamlOrder.SequenceLength | internal/config/config.go:1136-1171 | a merged sequence has the generated length; only an explicit null stays in the place of an empty one |
| YamlOrder.ScalarSequence | internal/config/config.go:1136-1178 | a sequence of scalars ends up with exactly the generated tags and values |
| YamlOrder.ElementKeys | internal/config/config.go:1159-1162 | a mapping inside a merged sequence has no key that its generated counterpart lacks |
| YamlOrder.IdentityOrderFree | internal/config/config.go:1345-1385 | two mappings with the same texts recognise each other in whatever order their pairs stand, when an identifying key has a text |
| YamlNode.ZeroIffAllValues | internal/config/config.go:1203-1243 | a node counts as a default value exactly when every single value inside it does (`YamlEffects.ZeroLeafIff` says which do) |
| YamlEffects.ZeroLeafIff | internal/config/config.go:1203-1243 | the defaults among single values: the boolean false, an integer or float 0 or 0.0, the empty string, any null, and nothing else |
| YamlEffects.WorthIff | internal/config/config.go:1203-1243 | a value is worth writing exactly when some single value inside it is none of these |
| YamlEffects.MissingKeysWritten | internal/config/config.go:1105-1120 | a generated key that the file lacks is present after the merge, with its value as generated, exactly when its value is worth writing |
| YamlEffects.CoveredPair | internal/config/config.go:1105-1120 | what coverage means for a pair: its key is there with a covered value, or every single value under it is a default |
| YamlEffects.IdentityKeyWins | internal/config/config.go:1345-1385 | an element is recognised by the first of id, name, alias, api-key, api_key, apikey, key, provider and model that has a text, wherever its pair stands |
| YamlEffects.FirstTextIdentifies | internal/config/config.go:1345-1367 | without any of them, by its first text that is not blank, with its key |
| YamlEffects.IdentifiedIff | internal/config/config.go:1302-1343 | mappings recognise each other by equal identities that are not blank, single values by equal trimmed texts that are not |
| YamlEffects.ChoiceIs | internal/config/config.go:1302-1343 | the chosen element is the first free one that is recognised or, if there is none, the first free one of the same structure |
| YamlEffects.AlikeIff | internal/config/config.go:1387-1425 | two nodes have the same structure exactly when at every position inside both have the same kind and length, or the same trimmed text |
| YamlEffects.LooksAfter | internal/config/config.go:1126-1184 | which tag and text a node has after a merge, by the kinds of both nodes |
| YamlNode.AlikeSymmetric | internal/config/config.go:1387-1425 | structural equality is symmetric |
| YamlNode.AlikeTransitive | internal/config/config.go:1387-1425 | and transitive |
| YamlMerge.AssignedOnce | internal/config/config.go:1280-1300 | no old element is used for two positions |
| YamlTreeClass.MergeNodePreserve | internal/config/config.go:1126-1184 | in place, on disjoint node objects: the tree becomes the merged one, and the objects of the file stay in use where they were or were matched; of two mappings, a generated key that the file lacks is written exactly when some single value under it is no default |
| YamlTreeClass.MergeMappingPreserve | internal/config/config.go:1095-1121 | the pairs of a mapping are merged and its old nodes keep their places; a generated key that the file lacks is written exactly when some single value under it is no default; anything but two mappings is replaced |
| YamlTreeClass.MergeSequence | internal/config/config.go:1148-1171 | the same for a sequence, whose matched nodes go to the positions they were chosen for |
| YamlTreeClass.ReorderSequence | internal/config/config.go:1280-1300 | computes the choice of old elements |
| YamlTreeClass.MatchSequenceElement | internal/config/config.go:1302-1343 | the first unused element with the same identity or text, else the first unused one of the same structure |
| YamlTreeClass.ElementIdentity | internal/config/config.go:1345-1385 | the identity read off the node objects is the one the matching is specified by |
| YamlTreeClass.StructurallyEqual | internal/config/config.go:1387-1425 | same shape and same trimmed texts, read off the node objects |
| YamlTreeClass.PruneMissingMapKeys | internal/config/config.go:1485-1514 | the removing loop keeps exactly the pairs whose trimmed key the generated mapping has |
| YamlTreeClass.FindMapKey | internal/config/config.go:1188-1198 | the first pair with a key |
| YamlTreeClass.DeepCopy | internal/config/config.go:1246-1258 | a copy shares no object with anything |
| YamlTreeClass.CopyShallow | internal/config/config.go:1262-1278 | the node takes over kind, tag, text and a copy of the content |
| ThinkingConfig.IdempotentIff | internal/thinking/validate.go:38-155 | for every configuration: checking an accepted one again changes nothing, unless automatic thinking was replaced by a fixed value that the model itself does not accept, or a budget below -1 became zero, or the budget -1 that stands for another spelling of the level auto is now out of range |
| ThinkingConfig.AcceptedMeetsIff | internal/thinking/validate.go:38-155 | for every configuration: an accepted one suits the model, that is, a budget is in its range, a level is supported, a disabled configuration has the budget zero or the minimum, unless automatic thinking is replaced by an unacceptable value or reaches the model as the budget -1, a budget below -1 becomes a forbidden zero, or thinking was disabled with a budget that is kept |
| ThinkingConfig.BudgetOutcome | internal/thinking/validate.go:121-155 | a budget other than 0 and -1 for a model with a range is kept if it is in range, refused if it is not and both ends speak the same format, and otherwise moved to the closest budget of the range |
| ThinkingConfig.LevelOutcome | internal/thinking/validate.go:106-119 | a standard level for a model with levels is kept if supported, replaced by the nearest supported one when the formats differ in kind, and refused otherwise |
| ThinkingConfig.LevelAsBudget | internal/thinking/validate.go:62-75 | a standard level for a budget-only model becomes the closest budget of its range to the standard one and is never refused |
| ThinkingConfig.DisableOutcome | internal/thinking/validate.go:91-104 | a request to disable thinking is accepted by every model, with the budget zero where that is allowed and the minimum otherwise |
| ThinkingConfig.AutoOnlyIfAllowed | internal/thinking/validate.go:131-134 | automatic thinking only reaches models that allow it |
| ThinkingConfig.AutoStableIff | internal/thinking/validate.go:167-201 | when the fixed value that replaces automatic thinking is acceptable |
| ThinkingConfig.SpelledAutoOutcome | internal/thinking/validate.go:60-75 | a request for automatic thinking in any spelling but the lower-case one reaches a budget-only model as the budget -1, whatever the formats are |
| ThinkingConfig.ClampedBudget | internal/thinking/validate.go:252-300 | a clamped budget is in range and stays as it is when clamped again |
| ThinkingConfig.ValidateConfig | internal/thinking/validate.go:38-155 | by the names of the formats, trimmed and in lower case: an unsupported standard level is replaced by the nearest supported one exactly from gemini, gemini-cli, antigravity or claude to openai, openai-response or codex; a budget out of range is refused exactly when no suffix was used, the source is not blank and both are equal or both of the Gemini family, and moved to the closest end otherwise; disabled thinking has the budget zero for claude; each of the four refusals has exactly the stated cause |
| ThinkingConfig.LevelsByFormats | internal/thinking/validate.go:106-119 | what becomes of a standard level, by the names of the formats |
| ThinkingConfig.BudgetsByFormats | internal/thinking/validate.go:121-155 | what becomes of a budget, by the names of the formats |
| ThinkingConfig.DisabledByFormats | internal/thinking/validate.go:91-155 | what becomes of disabled thinking, with its budget and level |
| ThinkingConfig.RefusalsIff | internal/thinking/validate.go:38-155 | for every configuration and every model: the exact condition for each kind of refusal |
| ThinkingConfig.AutoAcceptedAlways | internal/thinking/validate.go:91-134 | a model that allows automatic thinking gets it with the budget -1 |
| ThinkingConfig.BudgetAsLevel | internal/thinking/validate.go:76-89 | a positive budget for a model with levels only becomes its standard level or the nearest supported one, and is refused exactly when no standard level is supported |
| ThinkingLevels.LevelTable | internal/thinking/convert.go:10-55 | the five levels and their budgets, in any case of the letters, and nothing else |
| ThinkingConfig.ConvertAutoToMidRange | internal/thinking/validate.go:167-201 | where there are only levels the replacement of automatic thinking is the medium one; otherwise it is a budget in the range, as far from one end as from the other, or disabled thinking exactly when that middle is zero and zero is allowed |
| ThinkingLevels.ClampedIsNearest | internal/thinking/validate.go:208-249 | an unsupported standard level becomes the nearest supported standard one, the lower one on a tie |
| ThinkingLevels.ClampOrderFree | internal/thinking/validate.go:208-249 | whatever the order of the supported levels |
| ThinkingLevels.ClampSupported | internal/thinking/validate.go:208-249 | the result is supported unless no standard level is |
| ThinkingLevels.ClampLevel | internal/thinking/validate.go:208-249 | the loop computes it |
| ThinkingLevels.LevelRoundTrip | internal/thinking/convert.go:38-93 | a level survives the way to a budget and back |
| ThinkingLevels.NearestStandardBudget | internal/thinking/convert.go:73-93 | the level of a positive budget is the lowest one whose budget is not below it; above the highest budget it is the highest level |
| ThinkingLevels.BudgetToLevelMonotone | internal/thinking/convert.go:73-93 | a larger budget never means a lower level |
| SignatureModel.PurgesInvisible | internal/cache/signature_cache.go:75-94 | under a clock that does not go back, purges anywhere in a run change no result of any lookup |
| SignatureModel.ClearIsLocal | internal/cache/signature_cache.go:169-179 | clearing one group anywhere in a run changes no result of a lookup in another group |
| SignatureModel.SlidingExpiry | internal/cache/signature_cache.go:120-166 | after a store and a series of lookups, a lookup returns the signature exactly when no two neighbouring accesses were more than three hours apart |
| SignatureModel.LookupsAreValid | internal/cache/signature_cache.go:98-184 | after any run a lookup returns nothing or a signature that passes the validity test |
| SignatureModel.StoredIff | internal/cache/signature_cache.go:98-116 | a signature is stored exactly when text and signature are not empty and it has at least fifty characters |
| SignatureModel.FoundForThreeHours | internal/cache/signature_cache.go:120-166 | a fresh signature is found for its text by every model of the group for three hours and not later |
| SignatureModel.ClearedMisses | internal/cache/signature_cache.go:169-179 | after a group is cleared every lookup in it misses and other groups are as before; without a model all groups miss |
| SignatureModel.PurgedIff | internal/cache/signature_cache.go:75-94 | a purge forgets exactly what was last used more than three hours ago |
| SignatureModel.SameGroupIff | internal/cache/signature_cache.go:186-195 | which names share a group: those with gpt in them, else with claude, else with gemini, else only equal ones |
| SignatureModel.GeminiIff | internal/cache/signature_cache.go:186-195 | which names belong to Gemini |
| SignatureModel.EmptyTextMisses | internal/cache/signature_cache.go:120-135 | an empty text is never found |
| SignatureModel.ValidIff | internal/cache/signature_cache.go:182-184 | which signatures are valid: at least fifty characters, or the fixed placeholder for a Gemini model |
| SignatureCacheClass.SignatureCache.CacheSignature | internal/cache/signature_cache.go:98-116 | the buckets refine the flat table: storing |
| SignatureCacheClass.SignatureCache.GetCachedSignature | internal/cache/signature_cache.go:120-166 | looking up, with renewal and removal of an expired entry |
| SignatureCacheClass.SignatureCache.PurgeExpiredCaches | internal/cache/signature_cache.go:75-94 | purging, after which no bucket is empty |
| SignatureCacheClass.SignatureCache.ClearSignatureCache | internal/cache/signature_cache.go:169-179 | clearing one group or all |

## Left out

- Locks, goroutines, hooks, logging, persistence and HTTP: public operations are atomic steps; the clock is a parameter. The place where atomicity matters and is not given by the code, between the diff of a refresh and its enqueueing, is modelled in `DispatcherRaces`; a runtime update is still one step there.
- Overflow of 64-bit counters, and the number of bytes of a character: numbers are unbounded and texts are sequences of characters.
- Case folding of letters outside ASCII; `strings.EqualFold` is equality of the lower-cased texts.
- Registry: the metadata of a model beyond id, display name and creation time is one opaque text; the lookups by client and the search for a model's info only read maps that the index already describes and are not modelled. Pointer sharing between the stored infos and those handed out is not modelled.
- RegistryQueries.GetAvailableModels: models the keys `id` and `created` of an entry, which are the ones read afterwards, and not the other keys of the formats.
- Sorting.SortOrdered: models what `sort.Slice` guarantees, a permutation in order when the comparison is a weak order; for other comparisons only the permutation is used.
- Dispatcher: a missing configuration, a queue that is set late, cancellation and shutdown. Updates are taken to carry the id of their record, as their senders make them do. A record has no index field, and what the manager itself writes outside the pipeline (`EnsureIndex`, and `MarkResult` with its statuses and timers) lies outside the model.
- ModelAlias: how the channel for a provider is looked up in the configuration; the rules for the channel are the input.
- Wildcard: prefixes added to model ids, and the lookup of the excluded patterns of a provider.
- YAML: parsing and printing, comments, styles, anchors and aliases; nodes are never nil. The node objects that carry the comments are modelled, and `YamlTreeClass.MergeNodePreserve` says which ones stay in use. The generated tree is only read and is a value. The special handling of `oauth-model-alias` and other top-level keys after the merge is not modelled.
- YamlCoverage.MergeCovers: keys of the generated tree are unique within a mapping and mappings hold whole pairs, as a YAML parser or printer produces them.
- UsageKeys.KeysTellApart: a time stamp is printed as a decimal number of nanoseconds since the zero time instead of the format of RFC 3339, which tells instants apart just as well and has no bar either. Days are numbered instead of printed.
- YamlTwice.SavedTwice: goes one way for sequences of several elements, where elements can be taken for each other and still give the same tree (`YamlTwice.SettlingNotNeeded`), so that an exact condition would be the second merge itself; for one element it is exact in `YamlTwice.SingleTwiceIff`.
- JsonPaths.Walk: array items go under their positions, which is how the JSON library (not part of this model) addresses them; the library's own path syntax beyond escaping is not modelled. The cleaning of JSON schemas that uses the paths is left out.
- FixJson.FixJSON: characters are already decoded; invalid UTF-8 is not modelled.
- Thinking: reading and writing the configuration in request bodies of each provider.
- Signature cache: the hash of a text is any function of it, so two texts may share an entry, as in the code.
- OAuth logins, HTTP clients, stores, request logging, the file watcher itself, the web interface, static model tables and the websocket relay: plumbing over libraries, or behaviour that only a model of fine-grained interleaving would show.
