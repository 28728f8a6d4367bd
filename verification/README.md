# Verified model of the channel administration layer

A Dafny 4.11 model of the state-changing core of `internal/app`: refreshing a channel's model table
and its key scopes, cleaning up rejected OAuth credentials, importing credentials, OAuth logins,
quota snapshots, and the date-sentence canonicaliser. `dafny verify dfyconfig.toml` checks it.

How it is laid out:

- `Seqs`, `Names`, `ModelTable*`: sequence combinators, text helpers (folding, trimming, the routing
  name without a thinking suffix), rows, groups, lookups, and what a key reaches.
- `ModelSave*`, `ModelVariants*`, `ModelReplace*`, `ModelRefresh*`, `ModelProbes*`, `ModelApply*`,
  `KeyScopes*`, `ChannelKeys`: the model table and the key scopes. Loops over tables are methods
  proved against functions. What those functions mean is proved in the `*Laws` modules and in
  `KeyScopesKept`, over rows, places and spellings instead of the functions themselves.
- `CleanupJob`, `CleanupRun`, `CleanupManager`: the cleanup job object, a run of eight workers and any
  number of cancel calls as a state machine, and the job manager. `CleanupOutcomes` is about what a run
  reports.
- `ImportBatch`, `ImportRun`, `ImportBudget`: one commit and the sequential import, the reordering
  pipeline that refines it, and the byte and entry budget. `ImportLaws` is about what an import reports.
- `XaiSessions`, `XaiManager` and `CodexSessions`, `CodexManager`: login sessions. Every critical section
  is one step; exchange and commit calls are steps of their own, so that other steps fall in between. The
  `*SessionsLaws` and `*Outcomes` modules are about whole runs, the `*Steps` modules about single steps.
- `UsageSnapshot`, `UsageWindows*`, `Dateline`: the compare-and-swap protocol for usage snapshots, the
  window merge, and the text canonicaliser.

Objects whose methods change fields are classes; their methods state the whole new value
(`Value()`) as a function of the old one. Session objects live in a `store` sequence so that a
handler keeps the session it took after the manager's table dropped it. Calls into the store, the
network and the clock are parameters: what a created channel is called, which preparations arrive when,
what an exchange answers, what time it is.

## What the code does where its intent and its behaviour part

- **Renaming key allowlists may widen a key in one family of channels.** When an allowlist is renamed
  and a row under it reaches a new upstream, the key's detected list is rebuilt from its old targets.
  If none of them leaves a usable name (a body rule that removes the model makes the target blank), the
  rebuilt list is empty, and an empty list admits everything. `KeyScopesLaws.WidenedExactly` gives the
  exact condition for all channels, `WidenedByRemovalExactly` that for channels with plain model names
  (rebuilt from targets without a name), and `NoWidening` the guarantee outside it.
  `KeyScopesWitness.WideningWitness` is a channel whose own refresh does it.
- **Save normalisation is not idempotent for names ending in `/*`, and its result is then refused.**
  Stripping the source prefix of `org/*` leaves `*`, which a second pass would drop and the store's
  validation refuses, so that nothing is stored. `ModelSaveFixpoint.SaveRefusedExactly` says exactly when
  that happens, `SaveIdempotentExactly` exactly when a second pass changes nothing.
- **A forced shutdown may mark a login cancelled although its channel was created.** It does exactly when
  it finds the login committing, complete, or failed in its commit
  (`CodexSessionsLaws.ForcedCancelExactly`); over whole runs a cancelled login was committed, or will be,
  exactly when a shutdown forced it then (`CancelledCommitExactly`). `ShutdownWitness` is such a run.
- **A usage sample may be answered with a stored snapshot older than itself.** It is exactly when the
  refresher decided on a credential that holds an older snapshot while the sample is stale there: of an
  earlier epoch, or of another account (`UsageSnapshot.AnsweredOlderExactly`, `OlderAnswerWitness`).
- **A Codex commit that fails with an error without a text counts as complete.** The routine looks at the
  text alone, so such a login is complete and carries no channel (`CodexOutcomes.EndsByAnswer`).

## Model

| member | source | states |
|---|---|---|
| ModelTableLaws.EnabledExactly | internal/model/config.go:988-1003 | A name is served by all enabled rows that bear it, or else by the first enabled variant with a thinking suffix |
| ModelTableLaws.ResolvesExactly | internal/app/proxy_util.go:924-937 | A row resolves to the name asked for, to its redirect, or over the row that serves the redirect to that row's own |
| ModelSave.NormalizeForSave | internal/app/admin_models.go:1851-1905 | The save loop computes the table of cleaned rows under one spelling per folded alias, keeping for each identity a preferred candidate |
| ModelSaveLaws.ValidateTells | internal/model/config.go:510-533 | A row is storable if and only if its trimmed name is neither blank nor `*`, its names have no control characters and its price is valid; it is stored trimmed and without a blank price |
| ModelSaveLaws.SaveKeepsBest | internal/app/admin_models.go:1851-1930 | Identities of the result are pairwise distinct, and every storable row's identity is represented by a candidate no other input row is preferred to |
| ModelSaveLaws.KeptNotWorse | internal/app/admin_models.go:1851-1930 | For each storable row the one kept for its identity is not worse: one that names its own upstream first, then one without a source prefix, then the smaller upstream |
| ModelSaveLaws.KeptMarks | internal/app/admin_models.go:1851-1905 | Every kept row goes on with the upstream of a storable row and is ranked by what that row is |
| ModelSaveLaws.SaveTableMeaning | internal/app/admin_models.go:1851-1905 | Every saved row routes to the upstream of some input row, and rows with one folded alias share one spelling |
| ModelSaveLaws.SavedSpelling | internal/app/admin_models.go:1851-1905 | Every saved row is spelled like the first storable row of its group |
| ModelSaveLaws.DedupOrder | internal/app/admin_models.go:1880-1905 | Identities are kept in the order in which they first come |
| ModelSaveLaws.AliasTells | internal/app/admin_models.go:1907-1920 | An alias is the name after its last slash, if sources are stripped and something follows it, in lower case if that is asked for |
| ModelSaveFixpoint.SaveIdempotentExactly | internal/app/admin_models.go:1851-1920 | A second save changes nothing if and only if every alias given to a storable row is trimmed and is not `*` |
| ModelSaveFixpoint.SaveRefusedExactly | internal/model/config.go:506-533 | The result of save normalisation holds a row that validation refuses if and only if the alias of some storable row is, up to blanks, `*` |
| ModelSaveFixpoint.SaveNotIdempotent | internal/app/admin_models.go:1907-1920 | The row `org/*` becomes a row that a second pass drops and validation refuses |
| ModelSaveFixpoint.AliasIdempotent | internal/app/admin_models.go:1907-1920 | Normalising an alias twice is normalising it once |
| ModelVariants.PreserveConfiguredVariants | internal/app/admin_models.go:2103-2154 | The protected-group loops compute the discovered rows with each protected group replaced by the configured one |
| ModelVariants.ProtectedGroups | internal/app/admin_models.go:2103-2123 | Exactly the multi-row groups and the bridges their redirects go through are protected |
| ModelVariantsLaws.ProtectedExactly | internal/app/admin_models.go:2103-2123 | A group is kept as configured if and only if two rows bear it or it is the bridge, first to serve a redirect and redirecting again, of a row of such a group |
| ModelVariantsLaws.PreserveKeepsGroups | internal/app/admin_models.go:2101-2154 | Every protected group appears contiguously with its configured rows in order; all other discovered rows stay, in order |
| ModelVariantsLaws.PreserveHas | internal/app/admin_models.go:2103-2154 | The groups of the result are exactly the discovered and the protected ones |
| ModelVariantsLaws.PreserveIdempotent | internal/app/admin_models.go:2103-2154 | Preserving twice is preserving once |
| ModelReplace.ReplaceModelEntries | internal/app/admin_models.go:1992-2099 | Writes row state into the discovered rows in place and leaves exactly the replaced table; `changed` says whether it differs; the count of old names outside the discovered and the final ones, as the loops take it, is the number of old names the final table no longer has |
| ModelReplace.CarriedNamesStay | internal/app/admin_models.go:2064-2098 | No name of a discovered row is missing after preservation, so counting it as still there changes nothing |
| ModelReplace.CarryRow | internal/app/admin_models.go:2064-2088 | One discovered row takes over the disabled state and the price by target first, by alias only when old and new rows correspond one to one |
| ModelReplaceLaws.ReplacedKeepsGroups | internal/app/admin_models.go:2089-2098 | A protected group comes through a replacement row for row |
| ModelReplaceLaws.ReplacedFreeRows | internal/app/admin_models.go:2064-2098 | Outside the protected groups the new table is the discovered rows in order with the state they carry over |
| ModelReplaceLaws.NeverReenabled | internal/app/admin_models.go:2056-2079 | No unprotected row whose identity was disabled is enabled by a refresh |
| ModelReplaceLaws.CarriedStateExactly | internal/app/admin_models.go:2056-2079 | A discovered row is disabled if and only if it came so, a disabled old row is the same model, or it corresponds to one old row and a disabled one shares a name with it |
| ModelReplaceLaws.CarriedPriceExactly | internal/app/admin_models.go:2000-2088 | Its price is its own, else that of the last priced old row of the same model, else, for a one-to-one row, that found first under its names, else none |
| ModelReplaceLaws.ConfiguredRoutesSurvive | internal/app/admin_models.go:2101-2123 | A row of a configured multi-row group comes through a replacement and resolves as before, directly or over the exact bridge its redirect takes |
| ModelRefresh.MergeModelEntries | internal/app/admin_models.go:1965-1990 | The merge loop computes the merged table and counts the rows it added |
| ModelRefresh.MergeMeaning | internal/app/admin_models.go:1965-1990 | The existing table stays as a prefix; only discovered rows no existing row names or redirects to are added; every such identity ends up present; distinct identities stay distinct |
| ModelRefresh.MergeTwice | internal/app/admin_models.go:1965-1990 | Merging the same discovery again adds nothing |
| ModelRefresh.NormalizeExistingForRefresh | internal/app/admin_models.go:2158-2206 | The refresh loops compute the table with single rows normalised into the groups they join |
| ModelRefreshLaws.RefreshMeaning | internal/app/admin_models.go:2156-2206 | Rows of multi-row groups stay in order, distinct identities stay distinct, and no storable identity is lost |
| ModelRefreshLaws.RefreshedTell | internal/app/admin_models.go:2156-2206 | Every row a refresh leaves is a configured group row as it was, or a saved single row under the spelling of the last row of the group it joins |
| ModelProbes.RetainedFromFailedProbes | internal/app/admin_models.go:356-441 | Works out, on a copy of the table and of the discovered rows, what failed keys may still serve, or the model that stops the replacement |
| ModelProbes.ApplyReplace | internal/app/admin_models.go:469-477 | The replacement saves the table the check was made on, and a refused one leaves the channel as it was |
| ModelProbesLaws.CandidatesExactly | internal/app/admin_models.go:363-391 | The rows looked at are exactly those some key that could not be probed may use |
| ModelProbesLaws.UnlistedExactly | internal/app/admin_models.go:392-407 | The retained rows are, in order, the first row of each identity that was not discovered |
| ModelProbesLaws.RetainedTell | internal/app/admin_models.go:392-408 | Retained rows are new to the discovery and distinct, and every refreshed candidate is discovered or retained |
| ModelProbesLaws.RetainedSurvive | internal/app/admin_models.go:469-477 | When a replacement goes ahead, the identity of every refreshed candidate outside the configured groups is in the new table |
| ModelProbes.UnprobedRoutesSurvive | internal/app/admin_models.go:352-441 | If a replacement goes ahead, every enabled model an unprobed key was allowed keeps exactly the enabled upstreams it had, under its normalised name or its own if it is a group |
| ModelProbes.RefusedExactly | internal/app/admin_models.go:411-439 | A replacement is refused if and only if a probe failed and some retained model would reach other upstreams |
| ModelApply.BindKeyModels | internal/app/admin_models.go:539-558 | A probe result is bound to the key with the same row and credential, the last result winning |
| ModelApply.BuildFetchedScopes | internal/app/admin_models.go:710-760 | Looking each result's key up by index gives the discovery scopes of the keys in order, or nothing when a list does not fit |
| ModelApplyLaws.AllFitExactly | internal/app/admin_models.go:737-743 | Nothing is written if and only if some key's discovered lists do not fit |
| ModelApply.DetectScope | internal/app/admin_models.go:775-824 | Collects, over rows and protocols, the models and upstreams a probe reported, first spelling of each |
| ModelApplyLaws.DiscoveredExactly | internal/app/admin_models.go:710-824 | A discovered scope allows the names of the rows that are sent, under some protocol, as a model the probe reported, detects those upstreams, and is empty and disabled if and only if there are none |
| ModelApplyLaws.HitsTell | internal/app/admin_models.go:788-820 | The names and upstreams collected are exactly those of the rows and protocols that hit |
| ModelApplyLaws.SpellingsExactly | internal/app/admin_models.go:803-819 | A list of names keeps, in order, exactly the first of each spelling |
| ModelApply.DiscoveredScopeBounded | internal/app/admin_models.go:704-760 | A key with a discovered scope reaches only upstreams its probe reported, apart from the blank and `*` names |
| ModelApply.RefreshKeyScopes | internal/app/admin_models.go:485-519 | Every key ends with its discovered scope if its own successful probe refreshes it, otherwise with its renamed scope; no other key is written |
| ModelApplyLaws.FinalScopeTell | internal/app/admin_models.go:539-558 | A key is refreshed if and only if the last probe of its row and credential succeeded and, when merging, its scope came from discovery |
| ModelApply.RefreshedKeySafety | internal/app/admin_models.go:689-757 | No refresh makes a restricted key unrestricted; a scope written as empty is marked and disabled; a manual disable stays |
| KeyScopes.BuildRenames | internal/app/admin_models.go:584-628 | The rename map: old routing names to new ones, blank for a name whose rows went to different places |
| KeyScopesKept.RenamesExactly | internal/app/admin_models.go:584-628 | A routing name is renamed if and only if some row under it is gone, has another alias and is carried on there; it becomes what the first such row routes as, or nothing when another disagrees |
| KeyScopesKept.AllowedExactly | internal/app/admin_models.go:629-652 | A renamed allowlist holds exactly what its names go on as and the table still has |
| KeyScopesKept.ScopeAfterExactly | internal/app/admin_models.go:653-702 | A restricted scope is rewritten if and only if one of its names moves or it would gain an upstream, and then exactly to this |
| KeyScopesKept.NothingToRewrite | internal/app/admin_models.go:629-647 | No scope is rewritten when no row moves, nor one that is empty or has no allowlist |
| KeyScopesKept.StayingKeyKeeps | internal/app/admin_models.go:604-609 | A key that reaches something and whose rows all stayed keeps every one of them and is not newly disabled |
| KeyScopesKept.StayingReachKept | internal/app/admin_models.go:653-702 | It still reaches every usable upstream a row with its name leads to |
| KeyScopesKept.KeyFollows | internal/app/admin_models.go:610-652 | A key follows a row it may use to the name all its rows agree on, unless it is left with nothing |
| KeyScopesKept.OldUpstreamsPass | internal/app/admin_models.go:671-688 | An upstream a key reached still passes its list, rebuilt or not |
| KeyScopes.RemapNormalizedApiKeyScopes | internal/app/admin_models.go:575-702 | The loops over keys compute one remapped scope per key whose scope changes |
| KeyScopes.NormalizeDetectedModels | internal/app/admin_types.go:488-504 | Usable routing names, first spelling of each |
| ModelApplyLaws.DetectedAreSpellings | internal/app/admin_types.go:488-504 | A detected list holds the usable routing names, each in its first spelling |
| KeyScopesLaws.OldTargetsAreReachable | internal/app/admin_models.go:657-670 | The collected target list is exactly the set of upstreams the key reaches |
| KeyScopesLaws.NoWidening | internal/app/admin_models.go:567-702 | With plain model names and unchanged body rules, whatever a restricted key reaches after a rename it reached before, ignoring case, unless its list was rebuilt from targets without a name |
| KeyScopesLaws.WidenedExactly | internal/app/admin_models.go:653-702 | A restricted key reaches, ignoring case, a new upstream if and only if its list is rebuilt and lets such an upstream pass: no old target leaves a name, the upstream is the blank or `*` name, or it routes like a recorded one |
| KeyScopesLaws.WidenedByRemovalExactly | internal/app/admin_models.go:653-702 | With plain model names and unchanged body rules it does so if and only if its list is rebuilt and no old target leaves a name |
| KeyScopesLaws.RebuiltBoundary | internal/app/admin_models.go:671-688 | A rebuilt list lets exactly the upstreams pass that its targets admit |
| KeyScopesWitness.WideningWitness | internal/app/admin_models.go:485-519 | A refresh that strips source prefixes and discovers nothing, on a channel with a rule that removes the model: the table it leaves and the two upstreams a key gains |
| KeyScopesWitness.BoundaryWitness | internal/app/admin_models.go:653-688 | The same refresh without the rule: the list is rebuilt and keeps the key from the merged row |
| KeyScopesLaws.RemappedScopeMarks | internal/app/admin_models.go:689-700 | A remapped scope is restricted, is empty if and only if its list is, is then disabled, and is empty when nothing was reachable |
| KeyScopesLaws.UpdatesPerKey | internal/app/admin_models.go:639-702 | The update map gives every key its own scope and touches no other |
| ChannelKeys.PreserveOmittedMetadata | internal/app/admin_channels.go:1588-1625 | Every submitted row inherits, in place, what it left out from the row it continues |
| ChannelKeys.InheritTells | internal/app/admin_channels.go:1602-1624 | Fields that were sent are taken, the others kept, and the mark of discovery stays only while no list that was sent differs |
| ChannelKeys.OriginTells | internal/app/admin_channels.go:1589-1601 | A row whose value moved continues the first stored row with it, a new value none |
| ChannelKeys.OmittedScopeUntouched | internal/app/admin_channels.go:1340-1445 | Across inheriting, pruning and writing, an editor that sends no scope leaves the stored one as it is if and only if its models are still in the table, and otherwise only takes models away |
| ChannelKeys.NormalizeScopesForModels | internal/app/admin_channels.go:1630-1654 | Every submitted row is pruned, in place, to the models of the table |
| ChannelKeys.PrunedIsSafe | internal/app/admin_channels.go:1627-1654 | Pruning keeps exactly the allowed models of the table, never makes a restricted key unrestricted, marks a key empty exactly when all its models are gone, and is idempotent |
| ChannelKeys.InTableTells | internal/app/admin_channels.go:1630-1650 | A listed model is kept if and only if the table has one that routes as it does, up to blanks and case |
| ChannelKeys.RebuildKeys | internal/app/admin_channels.go:1473-1513 | The k-th row with a key value stays disabled exactly if the k-th stored row with it was disabled by hand or its new scope is empty |
| ChannelKeys.RebuildTells | internal/app/admin_channels.go:1473-1513 | A rebuilt row has the submitted scope and is disabled if and only if that is empty or the stored row with as many of its value before it was disabled by hand |
| ChannelKeys.ContinuesInPlace | internal/app/admin_channels.go:1474-1490 | With unchanged key values every row continues the stored row at its own place |
| ChannelKeys.EditAgreesWithRebuild | internal/app/admin_channels.go:1401-1445 | Editing rows in place and rebuilding them give the same scopes |
| ChannelKeys.EditTells | internal/app/admin_channels.go:1425-1443 | An edited scope is what was submitted, disabled if and only if it is empty or the key was disabled by hand; an unchanged one keeps its state |
| ChannelKeys.ToggleLiftsExactly | internal/app/admin_channels.go:1131-1164 | After any number of manual toggles the lists stand and the last one decides; a restriction is lifted if and only if there was one and the key was emptied automatically with no list left |
| CleanupJob.CleanupJob.AppendEvent | internal/app/admin_oauth_cleanup.go:121-135 | Appends one event stamped with its place and the current counters |
| CleanupJob.CleanupJob.FinishChannel | internal/app/admin_oauth_cleanup.go:137-162 | Records one outcome, except one that changed nothing after a cancel |
| CleanupJob.CleanupJob.FinishRun | internal/app/admin_oauth_cleanup.go:164-185 | Sets the final status, cancelled before failed before succeeded, and appends the complete event |
| CleanupJob.CleanupJob.RequestCancel | internal/app/admin_oauth_cleanup.go:335-343 | A running job is marked cancelled, an ended one is left as it is |
| CleanupJob.CleanupJob.View | internal/app/admin_oauth_cleanup.go:201-213 | The log from a cursor on, or an error for a cursor outside it |
| CleanupJob.OperationsAccounted | internal/app/admin_oauth_cleanup.go:121-185 | Every operation keeps the counters equal to the tally of the log, and every event stamped with the tally at its place |
| CleanupJob.PollReproducesLog | internal/app/admin_oauth_cleanup.go:201-213 | However polls fall, reading by cursor gives every event of the log once and in order |
| CleanupRun.CancellationGate | internal/app/admin_oauth_cleanup.go:187-199 | In every reachable state with an answered cancel call, no delete or disable is in progress or can begin |
| CleanupRun.NoActionAfterCancel | internal/app/admin_oauth_cleanup.go:328-356 | Over every run, no action begins or ends after a cancel call was answered |
| CleanupRun.CleanupAccounting | internal/app/admin_oauth_cleanup.go:683-746 | In every reachable state the six counters add up to processed, at most total, and disabled plus deleted never exceeds the actions that succeeded |
| CleanupRun.CleanupCompletion | internal/app/admin_oauth_cleanup.go:840-892 | At the end disabled plus deleted equals the actions that succeeded, cancelled or not; a succeeded run processed everything; the one complete event is the last |
| CleanupOutcomes.OutcomesCounted | internal/app/admin_oauth_cleanup.go:137-162 | In every reachable state each of the six counters is the number of channels the log reports with that outcome, no channel is reported twice, and a succeeded run reported every one |
| CleanupOutcomes.OneMode | internal/app/admin_oauth_cleanup.go:840-892 | A deleting run disables nothing, a disabling one deletes nothing |
| CleanupOutcomes.FinalStatusTells | internal/app/admin_oauth_cleanup.go:164-185 | A run over is cancelled if a cancel was asked for; it failed only without one and with its error, and succeeded only without either |
| CleanupManager.CleanupManager.Start | internal/app/admin_oauth_cleanup.go:237-290 | One job per key and one running job at a time, with the whole new state and its invariant |
| CleanupManager.StartAnswers | internal/app/admin_oauth_cleanup.go:237-326 | When a start is refused as closed, answered with a known job, a conflict or busy, and when it makes a job; nothing else changes but what an hour has passed over |
| CleanupManager.CleanupManager.StartForRequest | internal/app/admin_oauth_cleanup.go:298-326 | Answers a repeated request with its job, or a conflict |
| CleanupManager.RequestAnswers | internal/app/admin_oauth_cleanup.go:298-326 | Asking with a known key gives its job or a conflict, with any other nothing |
| CleanupManager.CleanupManager.FinishRunningJob | internal/app/admin_oauth_cleanup.go:372-381 | Completes a running job and gives its slot back |
| CleanupManager.FinishFrees | internal/app/admin_oauth_cleanup.go:372-381 | The job is stamped, kept with its key, and none is running |
| CleanupManager.CleanupManager.EvictExpired | internal/app/admin_oauth_cleanup.go:383-395 | Forgets exactly the jobs completed an hour ago and the keys they carry |
| CleanupManager.EvictedTell | internal/app/admin_oauth_cleanup.go:383-395 | The jobs kept are exactly the running ones and those that ended less than an hour ago, and the keys theirs |
| CleanupManager.KeysAreNotShared | internal/app/admin_oauth_cleanup.go:237-395 | At no time in the life of a manager do two jobs carry the same key or two jobs run |
| CleanupManager.HistoryValid | internal/app/admin_oauth_cleanup.go:237-395 | Over every history the running count is exact and at most one, and keys and the jobs that carry them match one to one |
| CleanupManager.RepeatedStartSameJob | internal/app/admin_oauth_cleanup.go:310-326 | A key answers with the job it started as long as that is retained, and refuses another selection |
| ImportBatch.SeedPriorities | internal/app/admin_oauth_import.go:286-318 | The first priority of each provider: its highest existing one plus the increment, or 0 without an increment |
| ImportLaws.SeedsTell | internal/app/admin_oauth_import.go:286-318 | Each seed is one increment above the highest priority a channel of the provider has, at least 0, or 0 without an increment |
| ImportBatch.ImportKeepsNamesAndPriorities | internal/app/admin_oauth_import.go:666-691 | Created names are pairwise distinct and absent from the initial ones; the k-th channel of a provider has the base plus k increments |
| ImportBatch.ImportedRankAbove | internal/app/admin_oauth_import.go:286-318 | With an increment every imported channel ranks above all earlier channels of its provider and has a new name |
| ImportBatch.SummaryCounts | internal/app/admin_oauth_import.go:767-777 | The results come in file order and the three counters add up to them |
| ImportLaws.ResultsTell | internal/app/admin_oauth_import.go:666-691 | A file is reported created if and only if a channel exists for it, skipped if and only if its name was there before, with that channel's name, and failed if and only if the store refused a new name, with its error |
| ImportLaws.CountersTell | internal/app/admin_oauth_import.go:767-777 | Each counter is the number of results with its status, and created the number of channels made, next to files that came settled as created |
| ImportLaws.EventsTell | internal/app/admin_oauth_import.go:391-456 | The log has two events for each file, with its place, the counters before and after it, its name and its result |
| ImportRun.Ledger.CommitPrepared | internal/app/admin_oauth_import.go:666-691 | One commit: settled, skipped for an existing name, created, or refused, with the names and priorities it leaves |
| ImportRun.RunImport | internal/app/admin_oauth_import.go:328-458 | For every arrival order, cancellation and observer, the results, events and created channels are those of the sequential import of a prefix of the files, and of all of them when nothing stops it |
| ImportRun.RunOAuthImport | internal/app/admin_oauth_import.go:328-458 | The whole run: nothing to do, an unreadable channel list that fails every file or stops, or the import from the names the listed channels have |
| ImportLaws.InitialNamesTell | internal/app/admin_oauth_import.go:712-726 | The names an import starts from are those of the listed channels, trimmed |
| ImportRun.EveryoneArrived | internal/app/admin_oauth_import.go:391-456 | When every preparation was delivered no file is still waited for |
| ImportRun.FailBatch | internal/app/admin_oauth_import.go:728-765 | A batch that cannot start reports every file as failed, as a sequential import of settled files would |
| ImportRun.ImportJob.Observe | internal/app/admin_oauth_import_jobs.go:66-77 | The job follows the events of its run |
| ImportRun.ImportJob.Finish | internal/app/admin_oauth_import_jobs.go:79-94 | The job takes the final counters and its status |
| ImportRun.JobMirrorsSummary | internal/app/admin_oauth_import_jobs.go:66-77 | A job that watched an import shows exactly its results and counters |
| ImportRun.FinishedJobShows | internal/app/admin_oauth_import_jobs.go:66-94 | A finished job that watched an import shows its results, its counters, no current file, and succeeded exactly if it completed |
| ImportRun.StreamRebuildsEvents | internal/app/admin_oauth_import_jobs.go:373-404 | A stream rebuilds from the results alone exactly the events the import reported |
| ImportBudget.Budget.Reserve | internal/app/admin_oauth_import_files.go:146-158 | Counts one entry; one that does not fit uses the whole budget up, and the subtraction never wraps |
| ImportBudget.ReadZipEntry | internal/app/admin_oauth_import_files.go:198-221 | Succeeds exactly for a readable entry within the limits, and reserves what it holds beyond its declared size without wrapping |
| ImportBudget.ExpandZip | internal/app/admin_oauth_import_files.go:160-196 | Reads the archive, and leaves the budget, as the walk over its entries does |
| ImportBudget.ReadTar | internal/app/admin_oauth_import_files.go:239-283 | The same for tar archives |
| ImportBudget.ArchiveExactly | internal/app/admin_oauth_import_files.go:160-283 | An archive is read if and only if each entry is acceptable and together they fit; then exactly its credential files come out in order, all entries are counted and the files paid for |
| ImportBudget.ArchiveFilesTell | internal/app/admin_oauth_import_files.go:160-196 | The files of an archive are exactly its regular entries with a credential's name, each with its own name and content |
| ImportBudget.ParseUploads | internal/app/admin_oauth_import_files.go:41-113 | The files that come out, upload by upload, and the budget after them |
| ImportBudget.ReceivedExactly | internal/app/admin_oauth_import_files.go:41-113 | Exactly the files of the uploads that are admissible when their turn comes, with one failure for each other one; they fit into the reserved bytes and the budget keeps its limits |
| ImportBudget.ReserveExpanded | internal/app/admin_oauth_import_aggregate.go:545-555 | Reserves one account, emptied and marked when its size is invalid |
| ImportBudget.CheckedTells | internal/app/admin_oauth_import_aggregate.go:545-555 | Accounts come out in order as decoded, except those of a size no credential has, which are emptied and marked |
| ImportBudget.ExpandContainer | internal/app/admin_oauth_import_aggregate.go:63-124 | Expands one container in place of its file, restoring the budget when it fails or declines; refunds never underflow |
| ImportBudget.ChildWalkExactly | internal/app/admin_oauth_import_aggregate.go:92-124 | The accounts are all counted if and only if every child is one and together they fit; a container is declined if and only if a foreign child follows accounts that fit |
| ImportBudget.OutcomeExactly | internal/app/admin_oauth_import_aggregate.go:63-124 | A container that fits yields exactly its accounts and turns its entry and bytes into theirs; any other leaves the budget as it was and is declined or one failure in its name |
| ImportBudget.ReserveAll | internal/app/admin_oauth_import_aggregate.go:30-36 | Every file is reserved if and only if their number and size fit |
| ImportBudget.ExpandContainers | internal/app/admin_oauth_import_aggregate.go:26-61 | The items of the files one after the other, each in the budget the ones before it left, or nothing if the files do not fit |
| ImportBudget.ReplacedExactly | internal/app/admin_oauth_import_aggregate.go:38-58 | One file becomes itself, one failure in its name or the accounts of the first container it is; its entry turns into one per item, and what stays reserved covers them |
| ImportBudget.DecodersInOrder | internal/app/admin_oauth_import_aggregate.go:38-58 | The decoders are tried in order, the xAI one only where the provider allows it, and the first that does not decline decides |
| ImportBudget.Boundary | internal/app/admin_oauth_import_aggregate.go:30-58 | At every file boundary the entries are the files to come plus the items produced, the reserved bytes cover both, and every failed file is among the items |
| ImportBudget.ExpandedFits | internal/app/admin_oauth_import_aggregate.go:26-61 | What comes out keeps both limits and has every failed file |
| XaiManager.SessionManager.Start | internal/app/admin_xai_oauth.go:106-137 | Replaces the admin's pending or processing session by a new pending one |
| XaiSteps.StartTells | internal/app/admin_xai_oauth.go:106-137 | A start adds one pending session with its verifier and time under the admin's active entry; the admin's older sessions are not live any more, others only expire |
| XaiManager.SessionManager.TakeCallback | internal/app/admin_xai_oauth.go:139-169 | Takes exactly a pending session of the admin for the exchange |
| XaiSteps.CallbackTells | internal/app/admin_xai_oauth.go:139-169 | Exactly the pending session the callback is for moves to processing; every other one only expires |
| XaiManager.SessionManager.RejectExchange | internal/app/admin_xai_oauth.go:176-184 | A failed exchange fails the session with its error unless it was cancelled |
| XaiManager.SessionManager.EnterCommit | internal/app/admin_xai_oauth.go:186-198 | A session that ended meanwhile is let go; otherwise it is committing, without verifier and active entry |
| XaiManager.SessionManager.LeaveCommit | internal/app/admin_xai_oauth.go:200-212 | A commit that created a channel completes the session with it; a refused one fails it with the error and no channel |
| XaiManager.SessionManager.Cancel | internal/app/admin_xai_oauth.go:235-252 | Cancels exactly a pending or processing session of the admin |
| XaiSteps.CancelTells | internal/app/admin_xai_oauth.go:235-252 | A cancel ends exactly the pending or processing session of that admin it names |
| XaiManager.SessionManager.CancelByAdmin | internal/app/admin_xai_oauth.go:254-266 | Cancels the admin's current session if there is one |
| XaiSteps.CancelActiveTells | internal/app/admin_xai_oauth.go:254-266 | It ends exactly the admin's pending or processing session |
| XaiManager.SessionManager.PruneExpired | internal/app/admin_xai_oauth.go:288-298 | Ends overdue sessions and forgets those that ended long ago, whatever the order of the table |
| XaiSteps.PruneTells | internal/app/admin_xai_oauth.go:288-298 | Exactly the live sessions older than half an hour fail, exactly those ended more than two minutes ago are forgotten |
| XaiManager.SessionManager.Close | internal/app/admin_xai_oauth.go:318-334 | Once: empties the tables, clears every registered verifier and notes the contexts to cancel after the lock |
| XaiManager.SessionManager.CancelContext | internal/app/admin_xai_oauth.go:334-337 | Cancels one of the contexts the close noted, outside the lock |
| XaiSessionsLaws.OneExchangeOneCommit | internal/app/admin_xai_oauth.go:139-213 | In every run each session is exchanged at most once and committed at most once; complete means committed, cancelled means not; the verifier is kept only while pending or processing |
| XaiOutcomes.EndsByAnswer | internal/app/admin_xai_oauth.go:173-213 | In every run a session is complete if and only if it returned from a commit that created a channel, and carries that one; a refused commit or a failed exchange leaves it failed with that error |
| XaiOutcomes.FailedBySomething | internal/app/admin_xai_oauth.go:173-298 | A failed session has the error of its commit, of its exchange or of time; only a failed one has an error, only a complete one a channel |
| XaiSessionsLaws.OneLiveSessionPerAdmin | internal/app/admin_xai_oauth.go:106-137 | While the manager is open each admin has at most one pending or processing session, and the active entries lead exactly to these |
| XaiSessionsLaws.EndedStaysEnded | internal/app/admin_xai_oauth.go:186-213 | Cancelled and complete are final, and a session cancelled or expired before its commit is never committed |
| CodexManager.LoginManager.DeliverCallback | internal/app/admin_codex_auth.go:427-444 | Accepts exactly the first callback of a registered pending login |
| CodexSteps.DeliverTells | internal/app/admin_codex_auth.go:427-444 | A callback is taken if and only if the login is registered and pending and had none |
| CodexSteps.WaitTells | internal/app/admin_codex_auth.go:576-589 | A routine that stops waiting holds the buffered callback, or an error |
| CodexManager.LoginManager.CancelSession | internal/app/admin_codex_auth.go:512-540 | Cancels a pending login, or any with force, and says what it did |
| CodexSteps.CancelTells | internal/app/admin_codex_auth.go:512-540 | A cancel ends exactly the login it names if that is pending, or under force not yet cancelled, frees its place only, and answers which it was |
| CodexManager.LoginManager.Create | internal/app/admin_codex_auth.go:320-375 | Makes a new active login exactly when none is active |
| CodexSteps.CreateTells | internal/app/admin_codex_auth.go:320-375 | A pending login is made, registered and active, if and only if none is active and its preparation succeeded |
| CodexSteps.ReplaceTells | internal/app/admin_codex_auth.go:306-330 | A start that saw a login goes on if and only if that was found pending or cancelled and its listener let go |
| CodexManager.LoginManager.Decide | internal/app/admin_codex_auth.go:618-634 | Enters the commit unless the login was cancelled |
| CodexManager.LoginManager.End | internal/app/admin_codex_auth.go:641-661 | Ends the login without overwriting a cancel |
| CodexManager.LoginManager.PruneLocked | internal/app/admin_codex_auth.go:681-688 | Forgets exactly the logins that finished long ago |
| CodexSteps.PruneTells | internal/app/admin_codex_auth.go:681-688 | Exactly the logins that finished more than ten minutes ago are forgotten |
| CodexSessionsLaws.CancelMeansNoCommit | internal/app/admin_codex_auth.go:512-552 | In every run without a forced shutdown a cancelled login's commit was never called, never will be, and cancelled is final |
| CodexSessionsLaws.CancelledCommitExactly | internal/app/admin_codex_auth.go:512-540 | In every run a cancelled login was committed, or is about to be, if and only if a forced shutdown met it past its decision to commit |
| CodexSessionsLaws.ForcedCancelExactly | internal/app/admin_codex_auth.go:690-699 | A forced shutdown cancels the login it finds, and leaves its commit called or due if and only if it was committing, complete, or failed in its commit |
| CodexSessionsLaws.OneCallback | internal/app/admin_codex_auth.go:427-444 | At most one callback is accepted per login, its buffered send never finds the buffer full, the commit is called at most once, and complete means it was |
| CodexOutcomes.OnlyOwnCallbackCommits | internal/app/admin_codex_auth.go:576-640 | A login comes to its commit only by a callback delivered to it, with its own state and without an error |
| CodexOutcomes.EndsByAnswer | internal/app/admin_codex_auth.go:618-661 | In every run a complete login carries the channel its commit created; one whose commit was refused is failed with that error unless a shutdown forced it; a failed one has the error of its commit or of what came before |
| CodexSessionsLaws.ActiveLogin | internal/app/admin_codex_auth.go:306-385 | The active login is registered, unfinished, and pending or committing; any unfinished login is the active one |
| CodexSessionsLaws.CommittingNotDisplaced | internal/app/admin_codex_auth.go:306-330 | A committing login stays active until its own end or a forced shutdown; no start displaces it |
| CodexSessionsLaws.ShutdownWitness | internal/app/admin_codex_auth.go:690-699 | A run in which a forced shutdown marks a committed login cancelled |
| UsageSnapshot.Attempt | internal/app/admin_oauth_usage.go:1643-1697 | One attempt: keep, fail, or the credential to swap in, with the epoch a plan change starts |
| UsageSnapshot.DecideExactly | internal/app/admin_oauth_usage.go:1655-1697 | A sample is written if and only if the provider stayed, it is not outdated and no snapshot was asked for as late; it starts an epoch, at the earliest time in it, if and only if it names another plan |
| UsageSnapshot.UndisturbedStores | internal/app/admin_oauth_usage.go:1643-1739 | A refresher nobody disturbs stores such a sample and is answered with it, and stores nothing else |
| UsageSnapshot.WriteIsFresh | internal/app/admin_oauth_usage.go:1659-1697 | A write is newer than what it replaces, is not older than the epoch it was checked against, matches the account when it names one, and starts an epoch only at a plan change |
| UsageSnapshot.WritesStrictlyIncrease | internal/app/admin_oauth_usage.go:1643-1739 | Under any interleaving with writers that keep the snapshot, successful writes carry strictly increasing request times |
| UsageSnapshot.RefreshesNeverLost | internal/app/admin_oauth_usage.go:1679-1739 | No finished refresh is lost to an older one, and one that lost to a newer request was answered with a snapshot at least as recent as its own |
| UsageSnapshot.AnsweredOlderExactly | internal/app/admin_oauth_usage.go:1660-1684 | In every run a refresher is answered with a snapshot older than its sample if and only if it decided on a credential with an older one in which the sample is stale |
| UsageSnapshot.OlderAnswerWitness | internal/app/admin_oauth_usage.go:1661-1678 | A sample of another account is answered with an older snapshot |
| UsageSnapshot.SnapshotsStayInEpoch | internal/app/admin_oauth_usage.go:1660-1696 | Also across epoch restarts, the epoch never goes back and every stored Codex snapshot was sampled in the current one |
| UsageWindows.MergeLatest | internal/app/admin_oauth_usage.go:1819-1910 | The official windows in their order, each refreshed by the first free passive window of its key that may, or unchanged because none may |
| UsageWindowsLaws.MergeExactly | internal/app/admin_oauth_usage.go:1819-1910 | Each official window takes the first available passive one that may refresh it, and stays as it is if and only if there is none |
| UsageWindowsLaws.RolloverTaken | internal/app/admin_oauth_usage.go:1883-1897 | A period that is over rolls forward to the boundary, usage and time of a newer sample in its own period |
| UsageWindowsLaws.ChangedDurationTaken | internal/app/admin_oauth_usage.go:1854-1882 | A new duration is taken over with its boundary when no official sibling has it |
| UsageWindows.TryRefresh | internal/app/admin_oauth_usage.go:1847-1901 | One passive window on one official window: every acceptance rule |
| UsageWindowsLaws.RefreshExactly | internal/app/admin_oauth_usage.go:1847-1901 | In sizes and times: a passive window refreshes an official one if and only if it is a newer sample of the same period, of a later one when that is over or the ledger follows, or of a duration no sibling has, and then to exactly this |
| UsageWindowsLaws.KeyTells | internal/oauthcost/usage.go:107-114 | A window goes by its limit and kind, trimmed and in lower case |
| UsageWindows.RefreshMeaning | internal/app/admin_oauth_usage.go:1847-1901 | A refresh is strictly newer; an unchanged duration never moves the boundary back; a changed one moves with its boundary to a period containing the sample, and is no official sibling's |
| UsageWindows.MergeMeaning | internal/app/admin_oauth_usage.go:1819-1910 | Over a merge: same keys in order, no passive window used twice, boundaries and sample times never going back, and an unchanged time means an unchanged window |
| UsageWindows.MergeUnique | internal/app/admin_oauth_usage.go:1819-1910 | The first-free-window rule leaves a merge exactly one result |
| UsageWindows.LatestUsage | internal/app/admin_oauth_usage.go:1785-1809 | The official usage unless the passive one is newer; then, for Codex, the official one with exactly the merged windows, and for others the passive one with the official credits |
| Dateline.SpeltIsSentence | internal/app/anthropic_dateline.go:17-32 | A date spelt with any of the four apostrophes and two separators is a sentence; with equal separators it becomes the ASCII form, otherwise it stays |
| Dateline.SentenceIsSpelt | internal/app/anthropic_dateline.go:18 | Every sentence is spelt so |
| Dateline.CanonicalizeIsReplace | internal/app/anthropic_dateline.go:22-33 | The quick look for a sentence never changes the result |
| Dateline.CanonicalizeIdempotent | internal/app/anthropic_dateline.go:22-33 | Canonicalising twice is canonicalising once, on every text |
| Dateline.SentencesFixed | internal/app/anthropic_dateline.go:26-32 | Every sentence of the text, found by its place, is put in its canonical form |
| Dateline.ChangedOnlyUniform | internal/app/anthropic_dateline.go:26-32 | A character changes only inside a well-formed sentence whose separators agree |
| Dateline.RemindersOnlyInside | internal/app/anthropic_dateline.go:37-42 | The reminder form keeps every segment and every character outside the segments |
| Dateline.RemindersInside | internal/app/anthropic_dateline.go:37-42 | Inside, every segment is canonicalised as a text of its own |
| Dateline.TagsKept | internal/app/anthropic_dateline.go:19-42 | No tag is made or broken by canonicalising sentences |
| Dateline.CanonicalizeRemindersIdempotent | internal/app/anthropic_dateline.go:37-42 | The reminder form is idempotent on every text, and its quick look never changes it |

## Left out

- Case folding and digits are ASCII; folding of other letters and invalid UTF-8 are not modelled.
- Integers of the source are unbounded here, except in the import budget, whose sizes are 64-bit words.
- Nil keys in a key list, nil managers and nil observers: each list holds real keys, and an observer that
  is absent is one that accepts everything.
- KeyScopesLaws.NoWidening: assumes allowlist names without blanks at the ends, which `normalizeAPIKeyAllowedModels` gives them, and counts targets of disabled rows as reachable, as the code does. Upstream names with a thinking suffix, blanks or control characters are covered by `WidenedExactly` only.
- KeyScopesLaws.WidenedExactly: speaks of keys that have an allowlist while some name was renamed; without a rename the code leaves every scope as it is, whatever the new table reaches.
- ModelProbes.UnprobedRoutesSurvive: speaks of models whose routing name is not blank or `*`, names that the store's validation refuses, and of allowlists without blanks at the ends.
- ModelProbes.CollectUpstreams: upstreams are compared as sets, where the code sorts and compacts lists.
- ModelApply.RefreshKeyScopes: the JSON length limit of a list is a parameter; keys have distinct indexes, as the key table does.
- The Codex image-model names that `resolveFinalUpstreamModel` canonicalises: keys with scopes exist only on channels without OAuth.
- The scheduled-check model and the retry of `applyFetchedModels` when the stored snapshot changed: every attempt starts from what it reads.
- CleanupRun.CleanupCompletion: an action that reports both success and an error counts as failed, as in the code.
- CleanupRun: a step is one critical section, one call into the store or one channel operation; liveness, and the wait of `Close` for the workers, are not modelled.
- The import job manager (one running job, retention): it would repeat the cleanup manager without its keys.
- ImportRun.RunImport: the worker pool is any order in which preparations arrive, each at most once; how a file is parsed and completed is a parameter.
- ImportBudget.ParseUploads: multipart, ZIP, tar and gzip reading are parameters (declared size, kind, content); a tar entry yields at most its declared size. A tar.gz archive damaged after its last entry is marked as such. The limit on multipart parts, form values, the wording of errors and the final sorting of the files are left out.
- ImportBudget.ExpandContainer: what the three container decoders make of a file is a parameter; account conversion and the duplicate check of Sub2API data are part of it.
- XaiManager.SessionManager.TakeCallback: parsing the submitted callback and the errors it raises are left out; the constant-time comparison of states is equality.
- CodexSessions: the callback listener, its shutdown error and the parsing of callback URLs are left out, apart from a start that stops when the listener does not.
- Creating and updating channels after a login (`createOrUpdateCodexChannel`): the commit is one call with an answer.
- UsageSnapshot: time stamps are integers, the rest of the credential is one value, and the cost ledger is left out except for its epoch, which reconciliation keeps.
- UsageWindows: the cost ledger is the list of its windows; percentages are reals.
- Dateline: finding the texts inside a request body and patching them.
- HTTP handlers, server-sent events, caches, logging, health scores, cooldowns and billing.
