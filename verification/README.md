# Guild core: a verified model

Guild is a Go framework for teams of AI agents. This project models the parts of it that carry state and invariants, in
Dafny 4.11, and proves what they are for. `dafny verify dfyconfig.toml` checks everything.

| part of Guild | modules |
|---|---|
| refined-content parser | `RefinedContent` |
| path cleaning and confinement | `Paths`, `Confinement` |
| scaffold renderer, template cache, in-memory file system, validator, engine | `TemplateCaching`, `CacheUse`, `MemoryFs`, `Directories`, `Templates`, `Rendering`, `RenderingRuns`, `RunOutcomes`, `Renderer`, `Validation`, `TemplateReports`, `Engine` |
| daemon session lifecycle | `Lifecycle` (the manager), `DaemonSystem` (every interleaving), `SessionHistory` (what is left of each session) |
| corpus scan and its metadata file | `Timestamps`, `CorpusIndex`, `CorpusScan`, `ScanReports` |
| connection manager | `Connections`, `ConnectionHistory`, and `Backoff` for its waits and the socket wait |
| tool health cache | `Health` (one check at a time), `HealthSystem` (every interleaving) |
| preset recommendation and adaptation | `Models`, `RecommendationSort`, `Presets`, `PresetChoices` |
| default agents | `DefaultAgents`, `AgentRoster` |
| byte formatting | `ByteSizes` |
| shared: results and contexts, string search and splitting, numerals, minimum and power | `Outcomes`, `Text`, `Numbers`, `Arithmetic` |

Objects that the Go code updates in place are classes with the same fields; each method is proved against a function or
relation on the abstract state, and the theorems are about those. Concurrent objects get, in addition, a transition system
with one action per critical section (`DaemonSystem`, `HealthSystem`, `Connections.Step`), and the theorems quantify over
all its runs.
What the code takes from outside is a parameter: clock readings, process liveness, discovery results, template syntax and
execution, lower-casing, and the point at which a context is cancelled (`Outcomes.Context`, a number of polls). A Go loop
over a map visits the keys in an order left open by the proof.

## Where the code and its intent differ

The model follows the code. Each of these is a lemma or a clause of a contract.

- `safePath` refuses every path with a component that *begins* with two dots, so the harmless `..notes` is refused; its
  final escape check never rejects anything (`RejectsHarmlessName`, `SafePathExact`).
- Asking to overwrite never overwrites on the in-memory file system: such a run fails on any existing file
  (`OverwriteNeverReplaces`), so after a successful overwriting run of a non-empty recipe the same run fails
  (`OverwritingAgainFails`).
- For runs that are not cancelled: without overwrite, the dry run reports the real run's counters exactly when it counts
  no failure and no entry creates a path that a later entry names (`DryRunPredicts`), and the real run errs exactly when
  an entry it comes to does not render (`RealRunErrsExactly`). With overwrite, the dry run reports the real run's
  counters exactly when the real run succeeds (`OverwritingDryRunPredicts`); for a file that exists it promises a
  success that the real run does not have (`OverwritingDryRunMisleads`).
- `evictLRU` evicts by insertion time, not by use: it can evict the entry used last (`EvictsMostRecent`). With a
  strictly increasing clock the evicted entry is the least recently used one exactly when no live look-up of it came
  after the last use of another entry (`EvictsLeastRecentExactly`).
- `evictLRU` evicts nothing when no entry is older than the eviction or an oldest one is named "", and then a new name
  lets the cache outgrow its maximum (`OverflowExact`, `OverflowReached`). With a maximum below 1 the cache still holds
  one entry (`RunStaysBounded`, `OneEntryAnyway`).
- The cache key omits the templates directory, so a look-up may be answered with another directory's template
  (`WrongDirectoryAnswers`). Every answer is right exactly when whatever loads from a directory in use loads the same
  from the one asked for (`CacheAnswersExactly`); with one directory in use the cache cannot be noticed.
- The validator knows one of the renderer's functions, so it refuses recipes that would render (`LoadableButRejected`);
  and templates passed with the options are not the validated ones (`OptionsBypassValidation`): they are safe exactly
  when the run is dry or every entry that it may come to loads from them (`OptionsTemplatesSafeExactly`). A run that may
  not overwrite may come to the first entry of each path, one that may to every entry before which all render to paths
  of their own.
- Two AutoStart calls can be given the same slot (`TwoCallersOneSlot`): exactly when one searches while the least free
  slot of its campaign is in flight for another (`ExclusiveExactly`). A second `ShutdownAll` panics.
- A Connect in flight during Close leaves an open connection behind (`InstallAfterCloseLeaks`); with nothing in flight,
  none is open exactly when nothing was installed since the close (`NoneOpenAfterCloseExact`).
- Index times lose their fraction of a second, so a file changed and indexed within one second is reported again
  (`SameSecondIsReportedAgain`, `RescanExact`); failures to write the metadata are not reported; deleted paths stay in
  it (`DeletedStaysDeleted`). A path with a tab or a newline, a year beyond four digits, or a zone that prints as 25
  hours does not survive the file (`RoundTripExact`).
- The metadata parser reads more than the program prints, such as fractions of a second. One update of any path then
  also cuts the other entries (`FractionIsLost`); it changes one entry only exactly when all others were settled
  (`RewritingExact`), which they are in every file the program wrote itself for paths without tabs and newlines
  (`OwnFileRefinesUpdates`).
- The manager's and the specialist's model preferences are not orders (`ManagerChoiceDependsOnOrder`). With named
  providers the chosen model is beaten by none exactly when some model has the largest window and is recommended, unless
  none is (`UnbeatenChoiceExactly`; for the default agents, `UnbeatenWinnerExactly`).
- Overlapping health checks of one tool can lose a failure (`OverlapLosesAFailure`). When checks end at different times,
  the cache tells all real checks since the last clear exactly when each ends on the record cached for its tool, or
  makes it anew with no failure in a row to lose (`CountedExactly`).
- `CreateDefaultAgents` panics when the providers offer no model, and two workers share a model exactly when the
  primary's pair is also at the second and third place (`CreateDefaultAgents`, `ThriceListedIsRepeated`).

## Model

| member | source | states |
|---|---|---|
| RefinedContent.ParseRefinedContent | cmd/guild/commission_refine.go:431-470 | the line-by-line loop computes `Parse`, which is never empty |
| RefinedContent.ParseInvertsRender | cmd/guild/commission_refine.go:431-470 | for any preamble without the marker and any padding with spaces: parsing rendered files gives them back in order if and only if the list is non-empty and every file is well-formed (trimmed, non-empty, marker-free, single-line path) |
| RefinedContent.SectionRoundTrip | cmd/guild/commission_refine.go:438-458 | one padded section of a well-formed file reads back as that file and hides no marker |
| RefinedContent.MarkedFilesWellFormed | cmd/guild/commission_refine.go:435-459 | whatever the text, every file read from a marked section is well-formed |
| RefinedContent.ParseNormalizes | cmd/guild/commission_refine.go:431-470 | rendering what was parsed, padded in any way, and parsing again changes nothing |
| RefinedContent.UnmarkedIsReadme | cmd/guild/commission_refine.go:461-467 | a text without the marker becomes README.md, unchanged |
| RefinedContent.SectionsWithoutContent | cmd/guild/commission_refine.go:439-467 | so does one whose marked sections have one line or none |
| RefinedContent.UsualLayout | cmd/guild/commission_refine.go:435-459 | a preamble, a blank after the marker, a line break after the path and an empty line at the end read as the one file |
| RefinedContent.SpacesAre | cmd/guild/commission_refine.go:438-453 | which characters are trimmed |
| Paths.CleanIsNormal | internal/scaffoldlite/filesystem.go:178 | cleaning leaves no empty, "." or non-leading ".." component, and no ".." at all in an absolute path |
| Paths.CleanIdempotent | internal/scaffoldlite/filesystem.go:178 | cleaning twice is cleaning once, and keeps absoluteness and the resolved components |
| Paths.CleanKeepsMeaning | internal/scaffoldlite/filesystem.go:178 | from every directory, the cleaned path denotes the position the original does |
| Paths.CleanIsCanonical | internal/scaffoldlite/filesystem.go:178 | two paths clean to the same text if and only if they agree in absoluteness and denote the same position from every directory |
| Paths.JoinMeansWalking | internal/scaffoldlite/filesystem.go:195 | a joined path is clean and denotes, from every directory, walking the second from the first |
| Paths.CleanedExample | internal/scaffoldlite/filesystem.go:178 | "a/.././b//c/" cleans to "b/c" |
| Paths.DirDropsLast | internal/scaffoldlite/renderer.go:156 | the directory of a cleaned relative path is the path without its last component |
| Confinement.SafePathExact | internal/scaffoldlite/filesystem.go:174-208 | with a clean base: refused for traversal exactly when some cleaned component begins with two dots, refused as absolute otherwise, and else mapped to base plus cleaned path; the escape check never fires |
| Confinement.AcceptedStaysBelow | internal/scaffoldlite/filesystem.go:193-207 | an accepted path's position is the base's position followed by the path's own, at the base or below it |
| Confinement.UnconfinedExact | internal/scaffoldlite/filesystem.go:179-191 | without a base: accepted exactly when no cleaned component begins with two dots, and mapped to the clean absolute path of its position in the working directory |
| Confinement.TraversalTest | internal/scaffoldlite/filesystem.go:179-181 | the two textual tests together detect exactly the components that begin with two dots |
| Confinement.SafePathIgnoresSpelling | internal/scaffoldlite/filesystem.go:174-208 | cleaning the input first changes neither verdict nor result |
| Confinement.SafePathInjective | internal/scaffoldlite/filesystem.go:174-208 | two accepted paths land in the same place if and only if they clean to the same path |
| Confinement.RejectsHarmlessName | internal/scaffoldlite/filesystem.go:179-181 | "..notes" is refused although it stays below every directory |
| TemplateCaching.TemplateCache.Get | internal/scaffoldlite/renderer.go:184-196 | returns the entry's template exactly while its age is within the time to live, counts the hit, keeps the timestamp |
| TemplateCaching.TemplateCache.Set | internal/scaffoldlite/renderer.go:198-205 | a full cache first evicts, then the new entry is stamped with a later reading; nothing else changes |
| TemplateCaching.TemplateCache.EvictLRU | internal/scaffoldlite/renderer.go:213-225 | removes an entry of smallest insertion time that lies in the past, unless there is none or it is named "" |
| TemplateCaching.StepKeepsBound | internal/scaffoldlite/renderer.go:184-225 | every operation keeps the size bound and the timestamps in the past, when clock readings strictly increase and names are not empty |
| TemplateCaching.RunStaysBounded | internal/scaffoldlite/renderer.go:198-225 | in every state of every such run from an empty cache the size is at most the maximum (1 if the maximum is smaller) |
| TemplateCaching.OneEntryAnyway | internal/scaffoldlite/renderer.go:198-205 | with any maximum below 1, a run that holds one entry |
| TemplateCaching.EvictionRemovesOldest | internal/scaffoldlite/renderer.go:213-225 | an eviction that removes anything removes one entry, and none it keeps was inserted earlier |
| TemplateCaching.OverflowExact | internal/scaffoldlite/renderer.go:198-225 | for any clock and any names: a full cache can outgrow its maximum if and only if the name is new and there is nothing to evict |
| TemplateCaching.OverflowReached | internal/scaffoldlite/renderer.go:198-225 | a run from an empty cache for one template that ends with two, when the clock stands still |
| CacheUse.EvictsLeastRecentExactly | internal/scaffoldlite/renderer.go:184-225 | in every run with a strictly increasing clock: an evicted entry is the least recently used one if and only if no live look-up of it came after the last use of another cached entry; always when it was never looked up |
| CacheUse.EvictsMostRecent | internal/scaffoldlite/renderer.go:184-225 | a run in which the entry looked up last is evicted |
| CacheUse.ServedExactly | internal/scaffoldlite/renderer.go:184-205 | in every run, a look-up is answered exactly when the name is cached and was last stored no longer ago than the time to live, with the template stored then |
| CacheUse.EntryIsStored | internal/scaffoldlite/renderer.go:198-205 | a cached entry is the template stored last under its name, with that time |
| MemoryFs.MemoryFileSystem.ReadFile | internal/scaffoldlite/filesystem.go:221-232 | the contents stored under the cleaned path, if any |
| MemoryFs.MemoryFileSystem.WriteFile | internal/scaffoldlite/filesystem.go:234-249 | fails exactly on an existing file and then changes nothing; otherwise stores one file and marks its one parent directory |
| MemoryFs.MemoryFileSystem.Stat | internal/scaffoldlite/filesystem.go:251-262 | succeeds exactly for files and directories; a name that is both is a file |
| MemoryFs.MemoryFileSystem.MkdirAll | internal/scaffoldlite/filesystem.go:264-285 | the splitting loop marks exactly the non-empty prefixes of the resolved path, without a leading slash |
| MemoryFs.MemoryFileSystem.Exists | internal/scaffoldlite/filesystem.go:287-298 | the cleaned path is a file or a directory |
| MemoryFs.MemoryFileSystem.Remove | internal/scaffoldlite/filesystem.go:308-315 | forgets one key; what lies below it stays |
| Directories.MkdirAllExactly | internal/scaffoldlite/filesystem.go:264-285 | for a relative cleaned path: exactly the path and its ancestors are marked |
| Directories.LeadingSlashIsLost | internal/scaffoldlite/filesystem.go:271-283 | an absolute path marks the directories of the path without its slash |
| Directories.WritingMarksParent | internal/scaffoldlite/filesystem.go:241-247 | writing marks exactly the parent, unless it is "." or "/" |
| Directories.StoringMakesAncestors | internal/scaffoldlite/renderer.go:152-165 | storing a file at a relative cleaned path makes exactly its ancestors |
| Directories.NewNamesExactly | internal/scaffoldlite/renderer.go:152-165 | what storing adds is the path and its ancestors, and nothing else |
| Directories.RunAddsAncestorsExactly | internal/scaffoldlite/renderer.go:63-103 | a run without overwrite of relative cleaned paths, however it ends, leaves the directories that were there and exactly the ancestors of the files it added |
| Rendering.RunKeeps | internal/scaffoldlite/renderer.go:63-103 | whatever options, templates, failures and moment of cancellation: no existing file changes or disappears, a dry run changes nothing, the number of files grows by the number generated, and the counters account for every entry of a completed run |
| Rendering.EntryKeeps | internal/scaffoldlite/renderer.go:69-100 | the same for one entry, and a run stops early only with an error |
| Rendering.NewFileIsRendered | internal/scaffoldlite/renderer.go:124-136 | every file a run adds holds the rendering of the first entry with its path, with entry variables over option variables over recipe variables |
| Rendering.RunToThenFrom | internal/scaffoldlite/renderer.go:69-102 | running the first entries and then the rest is the whole run |
| RenderingRuns.DryRunPredicts | internal/scaffoldlite/renderer.go:63-103 | uncancelled and without overwrite: the dry run never errs or writes; it has the real run's counters if and only if it counts no failure and no entries clash; without clashes the real run errs if and only if the dry run counts a failure |
| RenderingRuns.RealRunErrsExactly | internal/scaffoldlite/renderer.go:63-103 | uncancelled and without overwrite, whatever the paths: the real run errs if and only if some entry does not render whose path is absent at first and is created by no entry rendered before |
| RunOutcomes.RealRunEndsExactly | internal/scaffoldlite/renderer.go:63-103 | a real run, cancelled or not: it succeeds exactly when it gets through all entries, else it names why the first it did not get through stopped it; failures and templates are counted exactly |
| RunOutcomes.DryRunCountsExactly | internal/scaffoldlite/renderer.go:77-99 | an uncancelled dry run skips exactly the entries that exist, fails exactly the others that do not render, and counts the rest as generated |
| RenderingRuns.RunsAgree | internal/scaffoldlite/renderer.go:63-103 | without clashes ahead the two runs stay in step from any entry on until the real one fails |
| RenderingRuns.RealSkipsMore | internal/scaffoldlite/renderer.go:77-80 | where the dry run fails nowhere, the real run skips at least as much, and strictly more when an earlier entry makes a later one's path exist |
| RenderingRuns.PlainPathsDoNotClash | internal/scaffoldlite/filesystem.go:234-285 | relative cleaned paths, pairwise different and none an ancestor of another, never clash |
| RenderingRuns.NewNamesOfPlain | internal/scaffoldlite/filesystem.go:234-285 | storing a file at a cleaned relative path adds only that path and its ancestors |
| RenderingRuns.SecondRunIsIdle | internal/scaffoldlite/renderer.go:63-103 | after a successful real run, a run of the same entries without overwrite skips them all and changes nothing, whatever its templates and variables |
| RenderingRuns.OverwriteNeverReplaces | internal/scaffoldlite/filesystem.go:238-240 | an overwriting run succeeds if and only if every entry renders, no entry's file exists yet and no two entries share a path |
| RenderingRuns.OverwritingDryRunPredicts | internal/scaffoldlite/renderer.go:77-99 | uncancelled and with overwrite: the dry run has the real run's counters if and only if every entry renders, no entry's file exists yet and no two entries share a path |
| RenderingRuns.OverwritingDryRunMisleads | internal/scaffoldlite/filesystem.go:238-240 | with overwrite and the file there: the dry run counts one generated file and no failure, and the real run fails to write |
| RenderingRuns.OverwritingAgainFails | internal/scaffoldlite/filesystem.go:238-240 | after a successful overwriting run of a non-empty recipe, the same run fails to write and changes no file |
| Renderer.TemplateRenderer.SetTemplateFS | internal/scaffoldlite/renderer.go:42-45 | the cache is forgotten with the old template file system |
| Renderer.TemplateRenderer.GetTemplate | internal/scaffoldlite/renderer.go:105-122 | the result is an uncached load from the current template file system, for this directory or another one used since it was set; with one directory in use, for this one |
| Renderer.TemplateRenderer.PrepareRenderContext | internal/scaffoldlite/renderer.go:124-136 | the three loops let entry variables win over option variables over recipe variables |
| Renderer.TemplateRenderer.FileExists | internal/scaffoldlite/renderer.go:147-150 | directories count as existing files |
| Renderer.TemplateRenderer.RenderTemplate | internal/scaffoldlite/renderer.go:47-61 | cancelled, or the template's load failure, or its execution on the given data |
| Renderer.TemplateRenderer.WriteFile | internal/scaffoldlite/renderer.go:152-165 | cancelled, or the parent directories are made and then the file is stored unless it exists |
| Renderer.TemplateRenderer.RenderRecipe | internal/scaffoldlite/renderer.go:63-103 | counters, error and file system are those of `Render` on look-ups each of which is an uncached load, through all cache hits, expiries and evictions |
| Renderer.OneDirectoryIsTransparent | internal/scaffoldlite/renderer.go:105-122 | with one templates directory, a run's look-ups are exactly those without a cache |
| Renderer.StoringStaysFaithful | internal/scaffoldlite/renderer.go:198-225 | storing a fresh load, with any eviction, keeps every cached template equal to an uncached load |
| Renderer.CacheAnswersExactly | internal/scaffoldlite/renderer.go:106-120 | with given directories in use, every answer of every cache is right for a directory if and only if whatever loads from one of them loads the same from it |
| Renderer.WrongDirectoryAnswers | internal/scaffoldlite/renderer.go:106-120 | for any two directories with different templates of one name: the live entry stored for the first answers the second with the wrong template |
| TemplateReports.LoadsExactly | internal/scaffoldlite/renderer.go:109-119 | loading fails as not found exactly when there is no file, as unparsable exactly when the text is wrong or calls an unknown function, and else yields the text |
| Validation.SemanticValidator.CheckTemplates | internal/scaffoldlite/validator.go:76-116 | the loop with its seen-names map reports `TemplateIssues`, in order, up to cancellation |
| Validation.SemanticValidator.Validate | internal/scaffoldlite/validator.go:27-68 | template, version and directory issues, in that order |
| Validation.TemplatesCheckedExactly | internal/scaffoldlite/validator.go:76-102 | no template issue if and only if the check was not cancelled and every entry's template is there, is a file and parses with the validator's functions, although each name is parsed once |
| Validation.PassingTemplatesLoad | internal/scaffoldlite/validator.go:111-127 | what passes the validator loads in the renderer |
| Validation.LoadableButRejected | internal/scaffoldlite/validator.go:118-127 | a template that loads fails validation if and only if it calls one of the renderer's own functions other than "default" |
| Validation.ValidationIsSound | internal/scaffoldlite/validator.go:76-127 | after template validation, rendering from the same file system never fails because a template is missing or unparsable |
| TemplateReports.TemplateIssuesExactly | internal/scaffoldlite/validator.go:76-116 | each missing template is reported once per entry, each directory and each wrong text once per name, a cancellation once, and nothing else |
| TemplateReports.OtherIssuesExactly | internal/scaffoldlite/validator.go:50-68 | the version, forbidden characters and two dots in a row are reported exactly when they are there |
| Engine.ScaffoldEngine.SetTemplateFS | internal/scaffoldlite/engine.go:70-75 | renderer and validator get the same file system, and the cache is forgotten |
| Engine.ScaffoldEngine.RenderFS | internal/scaffoldlite/engine.go:51-64 | refused untouched exactly when validation finds an issue; otherwise a run over uncached loads from the options' templates or else the renderer's |
| Engine.ScaffoldEngine.DryRun | internal/scaffoldlite/engine.go:77-81 | the counters and error of the same run with the dry flag; the file system is unchanged |
| Engine.ScaffoldFromFS | internal/scaffoldlite/engine.go:83-98 | refused untouched if there are issues; otherwise exactly the run without a cache, which keeps every file and never lacks a template |
| Engine.OptionsTemplatesSafeExactly | internal/scaffoldlite/engine.go:60-63 | whatever the options and the moment of cancellation: templates given with the options never make a run lack a template, on any file system, if and only if it is dry or every entry it may come to loads from them (without overwrite the first of each path; with overwrite those before which all entries render to different paths) |
| Engine.OptionsBypassValidation | internal/scaffoldlite/engine.go:52-63 | a recipe without issues on one template file system whose run on the options' templates ends because its template is not found |
| Lifecycle.KeyInjective | internal/daemon/lifecycle.go:344-346 | "campaign:number" keys are equal if and only if campaign and number are, colons in names included |
| Lifecycle.LifecycleManager.FindAvailableSession | internal/daemon/lifecycle.go:104-134 | returns the least slot of ten that is missing, inactive or crashed, marks a crashed one inactive, and fails exactly when there is none |
| Lifecycle.LifecycleManager.UpdateActivity | internal/daemon/lifecycle.go:137-145 | renews the activity time of that entry only |
| Lifecycle.LifecycleManager.CheckIdleSessions | internal/daemon/lifecycle.go:171-189 | exactly the active entries idle for longer than the timeout become inactive |
| Lifecycle.LifecycleManager.CheckCrashedSessions | internal/daemon/lifecycle.go:209-227 | exactly the active entries whose known process is dead become inactive |
| Lifecycle.LifecycleManager.SwitchSession | internal/daemon/lifecycle.go:230-250 | only an active entry can become current, and it counts as used; otherwise nothing changes |
| Lifecycle.LifecycleManager.GetActiveSession | internal/daemon/lifecycle.go:253-276 | the configuration of the campaign's current session, exactly when that entry is active |
| Lifecycle.LifecycleManager.ShutdownAll | internal/daemon/lifecycle.go:279-312 | every entry becomes inactive and monitoring stops; a second call panics |
| Lifecycle.LifecycleManager.AutoStartDaemon | internal/daemon/lifecycle.go:51-101 | undisturbed: reuse of the current active session, or the least free slot tracked with the started daemon's configuration and made current, or the error and the state it leaves |
| SessionHistory.SwitchedAnswers | internal/daemon/lifecycle.go:230-276 | a switch succeeds exactly for a slot in use; then asking for the campaign's session yields that slot's configuration, and other campaigns' answers stay |
| SessionHistory.AutoStartAnswers | internal/daemon/lifecycle.go:51-134 | an undisturbed AutoStart: which of its errors when, the repeated configuration, or a daemon in the least slot that is not held, recorded as started |
| SessionHistory.AutoStartBecomesCurrent | internal/daemon/lifecycle.go:51-101 | what AutoStart returns is what asking for the session returns next; other campaigns' answers stay |
| SessionHistory.SearchedEntry | internal/daemon/lifecycle.go:104-127 | a search changes at most the active flag of the slot it finds |
| DaemonSystem.StepKeepsInv | internal/daemon/lifecycle.go:51-312 | every critical section, sweep, user operation and change among processes keeps entries filed under their own campaign and slot, current session numbers on entries, and callers consistent |
| DaemonSystem.EveryRunIsInOrder | internal/daemon/lifecycle.go:51-312 | in every reachable state of every interleaving: each current session number names an existing entry of its campaign in slot 0 to 9, entry (c, n) holds a configuration for campaign c and session n, and finished calls returned their own campaign's configuration |
| DaemonSystem.AtMostTenEntries | internal/daemon/lifecycle.go:104-134 | no campaign ever has more than ten entries |
| DaemonSystem.OnlyTrackingActivates | internal/daemon/lifecycle.go:87-98 | an entry becomes active in no other action than the tracking section of a caller that started a daemon for that slot, whose configuration it then holds |
| DaemonSystem.InactiveUntilTracked | internal/daemon/lifecycle.go:87-98 | a slot inactive at the start of a run and active at its end was tracked on the way |
| DaemonSystem.SearchReservesNothingButInactivity | internal/daemon/lifecycle.go:104-134 | the slot a search returns is the least free one and stays inactive until some caller tracks it |
| DaemonSystem.StepStaysExclusive | internal/daemon/lifecycle.go:71-98 | when no slot is in flight for two callers, a step keeps it so if and only if it is no search whose least free slot is in flight |
| DaemonSystem.ExclusiveExactly | internal/daemon/lifecycle.go:71-98 | a run never has a slot in flight for two callers if and only if none of its searches is given a slot in flight |
| DaemonSystem.TwoCallersOneSlot | internal/daemon/lifecycle.go:71-98 | an interleaving in which two calls start a daemon for the same slot, both return, and the registry keeps the later one |
| DaemonSystem.UndisturbedCallIsSequential | internal/daemon/lifecycle.go:51-101 | with nobody in between, the sections of a call add up to the sequential operation |
| DaemonSystem.ShutdownDeactivates | internal/daemon/lifecycle.go:279-312 | after a shutdown, whatever is active was tracked after it |
| SessionHistory.EntryAfter | internal/daemon/lifecycle.go:51-312 | what every action leaves of every session: configuration, start, activity, process, and whether it is in use |
| SessionHistory.InUseExactly | internal/daemon/lifecycle.go:51-312 | in every interleaving, a session is in use exactly when it was tracked and no sweep, search or shutdown stopped it since |
| SessionHistory.CurrentIsLastMade | internal/daemon/lifecycle.go:97-246 | in every interleaving, a campaign's current session number is the one of its last tracking or effective switch |
| SessionHistory.SettingsAfter | internal/daemon/lifecycle.go:279-319 | only a shutdown stops monitoring, and only once; only setting it changes the timeout |
| Timestamps.FormatRoundTrip | cmd/guild/corpus_scan.go:352 | for every instant and zone: the printed time parses back, cut to whole seconds, when the local year has four digits and the zone does not print as 25 hours, and otherwise does not parse |
| Timestamps.ParsedYear | cmd/guild/corpus_scan.go:325 | whatever parses, fractions and large zones included, has a four-digit local year |
| Timestamps.HalfSecondIsRead | cmd/guild/corpus_scan.go:325 | a fraction of a second is read |
| Timestamps.Civil | cmd/guild/corpus_scan.go:352 | every day number has a valid calendar date with that day number |
| Timestamps.YearIsUnique | cmd/guild/corpus_scan.go:325 | a valid date's day number lies in no other year |
| Timestamps.MonthLengths | cmd/guild/corpus_scan.go:325 | a date is valid exactly when its day fits the month, with leap years |
| Timestamps.NextDay | cmd/guild/corpus_scan.go:352 | the day after a date has the next day number |
| Timestamps.EasternZoneIsEarlier | cmd/guild/corpus_scan.go:325 | the sign and value of a zone |
| Timestamps.CommaIsRead | cmd/guild/corpus_scan.go:325 | a comma introduces a fraction as well |
| CorpusIndex.MetadataFile.GetEmbeddingsMetadata | cmd/guild/corpus_scan.go:306-332 | the loop over lines computes the file's meaning: later lines win, malformed ones are ignored, no file means nothing |
| CorpusIndex.MetadataFile.UpdateEmbeddingMetadata | cmd/guild/corpus_scan.go:334-356 | the new file is the old one's meaning with one time replaced, printed in some order; if writing fails the file stays |
| CorpusIndex.RoundTripExact | cmd/guild/corpus_scan.go:306-356 | for every index and every order of lines: parsing gives back the index cut to seconds if and only if no path holds a tab or newline and every time is printable |
| CorpusIndex.CleanIndexRoundTrip | cmd/guild/corpus_scan.go:348-355 | for clean paths, parsing gives back exactly the entries with printable times, cut to seconds |
| CorpusIndex.ReadIndexIsReadable | cmd/guild/corpus_scan.go:321-331 | whatever the file holds, what is read has clean paths and four-digit local years |
| CorpusIndex.RewritingSurvives | cmd/guild/corpus_scan.go:334-356 | one rewrite of any file for a clean path: the printable part of the updated index, every time cut to seconds |
| CorpusIndex.RewritingExact | cmd/guild/corpus_scan.go:334-356 | one rewrite of any file is one map update, cut to seconds, if and only if the path is clean, the time printable and every other entry settled (printable, whole seconds) |
| CorpusIndex.RewritingSettles | cmd/guild/corpus_scan.go:334-356 | after one rewrite for a clean path every entry is settled |
| CorpusIndex.RewritesRefineUpdates | cmd/guild/corpus_scan.go:334-356 | any sequence of rewrites of any file refines the same map updates of what was printable in it, cut to seconds |
| CorpusIndex.OwnFileRefinesUpdates | cmd/guild/corpus_scan.go:334-356 | starting without a file, the rewrites refine the map updates, and every entry is settled |
| CorpusIndex.FractionIsLost | cmd/guild/corpus_scan.go:342-355 | a file with half a second in one entry: updating another path changes that entry |
| CorpusScan.Scanner.PerformCorpusScan | cmd/guild/corpus_scan.go:187-294 | new, modified and deleted files and errors are exactly those the index and the file times call for; the three lists do not depend on the dry-run flag; the file is rewritten once per recorded document, and not at all in a dry run |
| ScanReports.ReportsExactly | cmd/guild/corpus_scan.go:214-290 | path by path: new, modified and deleted files and every failure to load, index or remove are reported exactly when they occur, each as often as the path is listed, deletions once; a dry scan reports no failure |
| ScanReports.NewFilesFollowListing | cmd/guild/corpus_scan.go:215-237 | new files are in listing order |
| ScanReports.ModifiedFilesFollowListing | cmd/guild/corpus_scan.go:215-244 | so are modified files |
| CorpusScan.Scanner.StatFiles | cmd/guild/corpus_scan.go:202-209 | the modification times of exactly the listed files that can be stat'ed |
| CorpusScan.Scanner.ProcessFiles | cmd/guild/corpus_scan.go:214-270 | classifies each listed file in order, collects load and index failures, and rewrites the metadata once per recorded document |
| CorpusScan.Scanner.ProcessDeleted | cmd/guild/corpus_scan.go:272-290 | lists each known path without a file once, and the failures to remove them |
| CorpusScan.ScanLeaves | cmd/guild/corpus_scan.go:214-270 | after an error-free scan the index has the kept entries and the indexed ones, each of these at the second of its last indexing |
| CorpusScan.RescanExact | cmd/guild/corpus_scan.go:214-270 | after an error-free scan of any file, a second scan finds no new file if and only if no listed path was dropped as unprintable, and no modified file if and only if every indexed document was last indexed at a second at or after its change and no kept time was cut below one |
| CorpusScan.RescanIsQuiet | cmd/guild/corpus_scan.go:214-270 | for a file the program left: the keys become the old ones plus the indexed ones, a second scan finds no new file, and no modified file if and only if every document was indexed at a second at or after its change |
| CorpusScan.DeletedStaysDeleted | cmd/guild/corpus_scan.go:272-290 | a deleted path is reported as deleted by the next scan too, if and only if the file was not rewritten, its time is printable, or it was indexed |
| CorpusScan.SameSecondIsReportedAgain | cmd/guild/corpus_scan.go:238-268 | a document indexed after its change within the same second is reported as modified by the next scan |
| Connections.Manager.Connect | internal/daemonconn/manager.go:52-77 | on success the old connection is closed and the new one installed with default discovery; on failure nothing changes |
| Connections.Manager.ConnectForCampaign | internal/daemonconn/manager.go:80-106 | the same, with campaign discovery |
| Connections.Manager.AttemptReconnect | internal/daemonconn/manager.go:210-245 | the same, leaving the discovery parameters alone |
| Connections.Manager.Close | internal/daemonconn/manager.go:160-174 | the current connection is closed and connection and info become nil together |
| Connections.StepKeepsInv | internal/daemonconn/manager.go:52-245 | every step keeps each connection in one place and connection and info nil together |
| Connections.ConnectionsAreConserved | internal/daemonconn/manager.go:52-245 | in every interleaving each opened connection is the current one, or held by exactly one caller, or closed exactly once |
| ConnectionHistory.CurrentIsLastInstalled | internal/daemonconn/manager.go:52-245 | in every interleaving, the current connection and the info are what the caller that installed last since the last close had opened and learned |
| ConnectionHistory.TargetIsLastChosen | internal/daemonconn/manager.go:70-100 | in every interleaving, the discovery target is the one of the last installation that was no reconnect |
| Connections.QuietMeansAtMostOneOpen | internal/daemonconn/manager.go:52-245 | with nothing in flight the open connections are exactly the current one |
| Connections.NoneOpenAfterCloseExact | internal/daemonconn/manager.go:160-174 | after a close, with nothing in flight: none is open if and only if nothing was installed since |
| Connections.CurrentExact | internal/daemonconn/manager.go:52-245 | a run ends with a connection if and only if the last installation came after the last close, or one was there and never closed |
| Connections.InstallAfterCloseLeaks | internal/daemonconn/manager.go:52-77 | a call that dialled before a close and installs after it leaves an open connection |
| Backoff.MaintainConnection | internal/daemonconn/manager.go:177-207 | the loop's backoff after any events is min(minBackoff * 2^k, maxBackoff) for k failed ticks since the last reset, and so is every wait it makes |
| Backoff.EventsThatReset | internal/daemonconn/manager.go:188-198 | a manual trigger resets the backoff whatever its outcome, so does a reconnect on a tick; a healthy tick changes nothing |
| Backoff.FailedTickDoubles | internal/daemonconn/manager.go:199-203 | a failed tick waits for the backoff and doubles it up to the maximum |
| Backoff.SleepsBounded | internal/daemonconn/manager.go:199-202 | every wait lies between the minimum and the maximum |
| Backoff.WaitForSocket | internal/daemon/manager.go:174-224 | however long probes take: it succeeds exactly when a probe that starts in time connects, at the first such one; otherwise every probe in time was made and failed; at most 20 probes for up to 30s; it terminates |
| Backoff.SlowProbesStartLater | internal/daemon/manager.go:195-222 | probes that take time start no earlier than the closed form says |
| Backoff.WaitClosedForm | internal/daemon/manager.go:190-221 | the k-th wait is exactly min(100ms * 1.5^k, 2s) |
| Backoff.WaitsDoNotShrink | internal/daemon/manager.go:218-221 | waits never shrink and stay between 100ms and 2s |
| Backoff.TwentyProbes | internal/daemon/manager.go:170 | thirty seconds leave time for twenty probes and no more |
| ByteSizes.FormatBytes | cmd/guild/info.go:161-172 | for every 64-bit size of at least 1024: div = 1024^(exp+1), div <= bytes < 1024 * div, the unit index is in range, and div does not overflow |
| Health.HealthChecker.CheckHealth | tools/health.go:44-120 | a recent status is repeated and nothing changes; otherwise the verdict is returned and recorded with the failures in a row |
| Health.FirstCheck | tools/health.go:67-119 | a first check asks the tool and records what it learned |
| Health.NextCheck | tools/health.go:55-119 | a known tool is answered with its record exactly while the interval has not passed since; then it is asked again, and its record, and no other, is renewed |
| Health.HealthChecker.GenerateHealthReport | tools/health.go:193-225 | every known tool once with its status; healthy and unhealthy counts are exact and add up to the total |
| Health.CacheIsExplained | tools/health.go:44-164 | after any checks, hits, clears and interval changes, every cached status is the one the log of real checks since the last clear predicts |
| Health.HealthHistory | tools/health.go:44-120 | the failure count is the trailing run of failed real checks since the last clear, healthy if and only if that is zero if and only if there is no error, and a hit repeats the last real verdict |
| HealthSystem.RecordsAreExplained | tools/health.go:50-120 | in every interleaving of checks and clears, a cached status is the one predicted by the real checks that ended on its record; healthy, no failures in a row and no error coincide |
| HealthSystem.BeginAnswers | tools/health.go:50-65 | in every reachable state: who is answered at once, and that the answer is the verdict of the last real check on the tool's record |
| HealthSystem.UndisturbedCheckIsSequential | tools/health.go:44-120 | a check that nobody disturbs does and answers what the sequential check does |
| HealthSystem.FinishCountsExactly | tools/health.go:75-110 | the end of a real check keeps the cache equal to what all real checks of the tools predict if and only if it ends on the cached record, or makes it anew with no failure in a row to lose |
| HealthSystem.CountedExactly | tools/health.go:44-164 | along every run whose checks end at different times, the cache is explained by all real checks since the last clear at every moment if and only if every real check counts in this sense |
| HealthSystem.OverlapLosesAFailure | tools/health.go:50-90 | two overlapping first checks that fail leave a count of one |
| RecommendationSort.SortByConfidence | internal/setup/preset_recommendations.go:184-194 | the in-place bubble sort equals the stable sort by descending confidence |
| RecommendationSort.StableSortKeeps | internal/setup/preset_recommendations.go:184-194 | that sort descends, keeps the multiset, and keeps equals in order |
| RecommendationSort.StableOrderIsUnique | internal/setup/preset_recommendations.go:184-194 | there is only one descending arrangement that keeps equals in order |
| RecommendationSort.SwapKeepsRanks | internal/setup/preset_recommendations.go:189-191 | exchanging neighbours of different confidence never reorders equals |
| Presets.AnalyzeProviderCapabilities | internal/setup/preset_recommendations.go:48-93 | flags and count hold exactly of the configured models, and each best choice is the result of one pass with its comparison |
| Presets.BestWorkerIsBest | internal/setup/preset_recommendations.go:82-84 | no model beats the chosen worker model, and it beats every earlier one |
| PresetChoices.WorkerGetsLeftmostBest | internal/setup/preset_recommendations.go:82-84 | the worker's model is the leftmost of the affordable (cost up to 3) before the others, recommended ones first |
| Presets.ManagerChoiceDependsOnOrder | internal/setup/preset_recommendations.go:220-253 | a larger window and a recommendation beat each other, and then the later model wins |
| Presets.UnbeatenChoiceExactly | internal/setup/preset_recommendations.go:78-88 | with named providers: the manager's and the specialist's chosen model is beaten by none if and only if some model has the largest window of all and is recommended, unless none is |
| Presets.EvaluatePreset | internal/setup/preset_recommendations.go:96-180 | zero and incompatible without enough models; otherwise the clamped sum of the bonuses, within [0, 1] |
| PresetChoices.CategoriesAre | internal/setup/preset_recommendations.go:196-213 | which project types make which category |
| PresetChoices.ConfidenceByType | internal/setup/preset_recommendations.go:112-149 | the confidence of presets not bound to a provider, by type and circumstances |
| PresetChoices.ConfidenceByProvider | internal/setup/preset_recommendations.go:152-177 | what being bound to a provider adds or takes |
| PresetChoices.DemoConfidenceByProvider | internal/setup/preset_recommendations.go:152-177 | the same for demos |
| PresetChoices.CompatibleExactly | internal/setup/preset_recommendations.go:105-111 | compatible exactly with enough models; else no confidence |
| Presets.RecommendPresets | internal/setup/preset_recommendations.go:15-45 | cancelled, or no providers, or the stable sort of the viable evaluations in some order of the presets |
| Presets.RecommendationsExact | internal/setup/preset_recommendations.go:33-44 | recommendations descend, contain exactly the viable evaluations, and are all compatible with confidence in (0.1, 1] |
| PresetChoices.RecommendedExactly | internal/setup/preset_recommendations.go:34-39 | a preset is recommended exactly when it has enough models and a confidence above a tenth |
| Presets.DemoIsRecommended | internal/setup/preset_definitions_demo.go:11-18 | with named providers, a model and the minimal demo preset, some compatible demo preset is recommended for every project |
| Presets.AdaptAgentForProviders | internal/setup/preset_adapters.go:59-107 | keeps an agent whose own pair is configured, gives any other the best model for its kind, or fails without one |
| PresetChoices.OwnChoiceStays | internal/setup/preset_adapters.go:68-80 | an agent whose own pair is configured is left alone, unless its provider is "auto" |
| PresetChoices.KindDecides | internal/setup/preset_adapters.go:82-106 | any other agent gets a configured model by its kind: a manager or specialist one with the largest window that is recommended unless none is, whenever there is one; everyone else the leftmost best for a worker; nothing else of it changes |
| Presets.AdaptPresetForProviders | internal/setup/preset_adapters.go:14-56 | adapts agents in order up to the first failure or cancellation, and renames the collection |
| PresetChoices.PresetKeeps | internal/setup/preset_adapters.go:33-55 | an adapted preset has its ID and name marked, keeps type, category and size, and each agent adapted at its place |
| PresetChoices.PresetFailsExactly | internal/setup/preset_adapters.go:15-50 | why adapting a preset fails, and at which agent |
| PresetChoices.NoModelsNoAgent | internal/setup/preset_adapters.go:95-99 | without any model every agent fails to adapt |
| Presets.AdaptationSucceeds | internal/setup/preset_adapters.go:59-107 | with named providers and a model: adapting succeeds, keeps everything but the model choice, chooses a configured pair, and is idempotent (also for a provider called "auto") |
| Presets.PresetAdapts | internal/setup/preset_adapters.go:14-56 | the same for every preset: agent order, IDs and kinds stay, all pairs are configured, adapting again changes no agent |
| Presets.DemoPreset | internal/setup/preset_manager.go:124-158 | adapts the first compatible demo among the recommendations for a demo project, else the minimal one, else fails; or reports cancellation or missing providers |
| PresetChoices.DemoChosen | internal/setup/preset_manager.go:142-147 | the demo taken is the compatible one of most confidence, the first of those |
| PresetChoices.NoDemoRecommended | internal/setup/preset_manager.go:149-157 | without one, the minimal demo, if it is there |
| Presets.DemoCannotFail | internal/setup/preset_manager.go:124-158 | with named providers, a model and the minimal demo preset the whole pipeline succeeds with configured pairs only |
| DefaultAgents.FindBestModel | internal/setup/agents.go:118-175 | the two loops yield the winner among the qualified models, or among all when none qualifies |
| DefaultAgents.BestIsQualified | internal/setup/agents.go:118-175 | a role gets a configured model, qualified if and only if any model is |
| AgentRoster.RoleGetsSuitable | internal/setup/agents.go:118-185 | each role gets a model with the capabilities, window or cost it asks for whenever there is one |
| AgentRoster.LargestWindowWins | internal/setup/agents.go:190-216 | manager and reasoning: the suitable model with the largest window that is recommended unless none is, whenever there is one |
| AgentRoster.LeastCostWins | internal/setup/agents.go:198-205 | worker: the cheapest suitable model that is recommended unless none is, whenever there is one |
| DefaultAgents.UnbeatenWinnerExactly | internal/setup/agents.go:166-218 | for manager, worker and reasoning: the chosen candidate is beaten by none if and only if some candidate has the most of what the role values (window, or low cost) and is recommended, unless none is |
| DefaultAgents.CodingChoice | internal/setup/agents.go:140-146 | the coding specialist gets the first candidate |
| DefaultAgents.CheapChoice | internal/setup/agents.go:147-151 | the cheap choice is the leftmost model of least cost |
| DefaultAgents.AnalyzeProviders | internal/setup/agents.go:82-115 | all models in order, whether one is local, and the best model for each role |
| DefaultAgents.CreateWorkerAgents | internal/setup/agents.go:258-334 | the primary worker, and a second on the second model, or on the third when the second is the primary's, or none |
| DefaultAgents.CreateLocalSpecialist | internal/setup/agents.go:413-443 | the first free-of-cost model, if a local one was seen |
| DefaultAgents.CreateSpecialistAgents | internal/setup/agents.go:337-446 | none without a high-quality model; otherwise coder, analyst and the first free-of-cost model, each under its condition |
| DefaultAgents.CreateDefaultAgents | internal/setup/agents.go:34-59 | fails without providers, panics exactly when they offer no model; otherwise unique IDs, one manager, configured pairs, and two workers share a pair if and only if the primary's is at the second and third place |
| AgentRoster.ManagerAndWorkers | internal/setup/agents.go:222-334 | the manager and the one or two workers: their IDs, kinds, places and models |
| AgentRoster.SpecialistsExactly | internal/setup/agents.go:337-446 | which specialists there are and on which models |
| DefaultAgents.DistinctPairsAreNotRepeated | internal/setup/agents.go:297-306 | with pairwise distinct pairs two workers never share one |
| DefaultAgents.ThriceListedIsRepeated | internal/setup/agents.go:297-306 | a provider that lists one model three times gives both workers the same model |

## Left out

- Engine.ScaffoldFromFS: renders a given recipe into the in-memory file system. The on-disk file system (beyond its path check), reading and caching recipe files, and `GetScaffoldInfo` are not part of this model.
- Template execution, syntax and YAML: uninterpreted functions of their arguments (`Templates.Language`). Templates that read the clock, or print a map through `toYAML`, whose order Go leaves open, are therefore outside the claims about equal renderings.
- RefinedContent.ParseRefinedContent: strings are sequences of characters; invalid UTF-8 is not modelled.
- Health.HealthChecker.CheckHealth: one check of a tool at a time; overlapping checks are in `HealthSystem`, where looking at the cache and reading the record found there are one step although the code reads the record after releasing the lock. The timeout and the wrapping of errors are not modelled.
- DaemonSystem.StepKeepsInv: a search is one step although the code writes a flag under a read lock. Stopping a daemon, its socket and PID files and restart counts appear only as the active flag and the process set; two clock readings of one tracking section are one.
- Backoff.WaitForSocket: a probe due exactly at the deadline is made, where Go may choose either. The PID-file start path of the daemon is not part of this model.
- Connections.Manager.Connect: dialling is a given result; starting the maintenance goroutine once, and which target a reconnect read, are not modelled.
- CorpusIndex.MetadataFile.UpdateEmbeddingMetadata: a failing write leaves the file as it was; partial writes are not modelled. The vector store appears as success or failure per document.
- Presets.EvaluatePreset: confidence is a real number, so the rounding of sums in floating point is not modelled; the reasoning texts are left out.
- DefaultAgents.CreateDefaultAgents: prompts, descriptions, tools and other fixed fields of agents are left out.
- ByteSizes.FormatBytes: the division that prints one decimal is left out.
- Extraction of task lists from refined files, the built-in preset tables, cost estimates, tool registries, quality gates and the command line: only easy claims.
