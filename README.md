# Webiny build orchestrator and platform helpers in Dafny

This project models the core of the Webiny platform's multi-target build
orchestrator (`Cli/Overrides/MultiCompiler.js`, an override of webpack's
`MultiCompiler`) and proves properties of the model. It also models five smaller
parts of the platform that stand on their own:

- the per-locale translations of an `I18NText` entity;
- the view filter registry;
- the class-string and listener bookkeeping of the base UI `Component`;
- the path and table derivations of a package-manager `App`;
- the WebMongo database list store.

The orchestrator drives several webpack compilers ("targets"):

- **Cycle counter.** The constructor normalises its targets. It then counts
  how many have finished their current compile cycle and emits a combined
  "done" once all have (`MultiCompiler.MultiCompiler`).
- **Common output path.** `outputPath` computes the common leading output
  path of all targets (`CommonPath`, `MultiCompiler.MultiCompiler.OutputPath`).
- **Dependency scheduler.** `runWithDependencies` hands out targets whose
  dependencies are fulfilled. It marks a target's name fulfilled when that
  target's step succeeds (`DependencyScheduler`).
- **One-shot build.** `run` builds every target once and reports the stats in
  target order, or the first error (`BatchRun`).
- **Watch mode.** `watch` starts the targets' watchers in dependency order. It
  passes on combined stats once every target has reported (`WatchRun`).

The asynchronous callbacks and promise chains become a sequential state
machine. Each method call is one event:

- the scheduler dispatches the ready batch;
- the target at dispatch position `j` finishes with stats or an error;
- a watcher reports.

What the orchestrator passes on is recorded in the state: `emitted`,
`handlerCalls` and `Reported()`. Webpack's compilers, stats and errors are
opaque values (`CompilerUnits`).

Where the design description and the code disagree, the model follows the code:

- **Prefixes.** `outputPath` compares by character prefix
  (`indexOf(commonPath) === 0`), not segment by segment. So `/out/ab` counts as
  a prefix of `/out/abc` (`CommonPath.CommonCandidate`).
- **No deadlock error.** A dependency cycle or an unknown dependency name does
  not fail with a deadlock error. No target of the cycle is ever ready, the
  batch is empty, and `run` reports success with `null` for every unbuilt
  target. This holds whenever every target names at least one dependency
  (`BatchRun.NoneReadyRun`).
- **Builds run one at a time.** `run` chains the builds of a batch through
  `chainedBuild`, so they finish in dispatch order (`BatchRun.BatchRun.Complete`).
- **Dispatch continues after a failure.** A failure goes to the final callback
  only once. A sibling that succeeds afterwards still marks its name fulfilled
  and dispatches its dependents (`DependencyScheduler.Scheduler.Succeed`).
- **Combined watch results.** After the first combined result, every status is
  `true`. From then on, any single new report already makes every status
  truthy, so the handler gets a combined result holding only that target's new
  stats (`WatchRun.FreshStatsOnly`). The combined result does not wait for
  every target to report again.
- **Watch errors.** They go to the handler only. The scheduler never sees a
  failure in watch mode (`WatchRun.WatchNeverAborts`).

## Model

| member | source | states |
|---|---|---|
| MultiCompiler.NormalizeTargets | Cli/Overrides/MultiCompiler.js:15-20 | A list of targets is kept as is. A keyed object becomes the list of its values in key order. Each target then carries as its `name` the last key it is listed under. Only the `name` field of the listed targets may change. |
| MultiCompiler.MultiCompiler.constructor | Cli/Overrides/MultiCompiler.js:13-44 | The targets are normalised as above. The counter is 0, no target is done, no stats are stored and nothing has been emitted. The counter equals the number of done targets. |
| MultiCompiler.CountTrueUpdate | Cli/Overrides/MultiCompiler.js:27-29 | Setting or clearing one target's done flag moves the done count by exactly one when the flag changes, and not at all otherwise. |
| MultiCompiler.CountTrueAll | Cli/Overrides/MultiCompiler.js:32 | The done count equals the number of targets exactly when every target is done. |
| MultiCompiler.CountFalse | Cli/Overrides/MultiCompiler.js:22-25 | With no target done, the count is zero. |
| MultiCompiler.Values | Cli/Overrides/MultiCompiler.js:33 | Once every slot holds stats, the combined stats list holds each target's stats at that target's position. |
| MultiCompiler.MultiCompiler.OnDone | Cli/Overrides/MultiCompiler.js:26-35 | A "done" event marks its target done and increments the counter only if the target was not done before. It stores the stats at the target's own position. The combined "done" is emitted exactly when the counter reaches the number of targets, with every target's stats in target order. The counter stays equal to the number of done targets. |
| MultiCompiler.MultiCompiler.OnInvalid | Cli/Overrides/MultiCompiler.js:36-42 | An "invalid" event clears its target's done flag. It decrements the counter only if the target was done. Afterwards the counter is within 0 and n-1, and "invalid" is passed on once. |
| MultiCompiler.MultiCompiler.OutputPath | Cli/Overrides/MultiCompiler.js:46-56 | With no targets, the getter throws. Otherwise its nested loops compute the common output path of the targets' output paths, as defined by `CommonPath.CommonOutputPath`. |
| CommonPath.DropLastSegment | Cli/Overrides/MultiCompiler.js:50 | Dropping the last separator and what follows it leaves a strictly shorter prefix. |
| CommonPath.ShortenFor | Cli/Overrides/MultiCompiler.js:49-51 | The inner loop for one path ends on a prefix of where it started. That prefix is a character prefix of the path, or it holds no separator. |
| CommonPath.CommonCandidateSnoc | Cli/Overrides/MultiCompiler.js:48-52 | Running the inner loop over one more path gives the reference candidate for the longer list of paths. |
| CommonPath.CommonCandidatePrefix | Cli/Overrides/MultiCompiler.js:47-52 | The candidate is a prefix of the first path. |
| CommonPath.CommonCandidateCommon | Cli/Overrides/MultiCompiler.js:49 | A candidate that still holds a separator is a character prefix of every path. |
| CommonPath.CommonCandidateLongest | Cli/Overrides/MultiCompiler.js:49-51 | No longer candidate on the shortening walk is a prefix of every path. |
| CommonPath.CommonOutputPathPrefixOfFirst | Cli/Overrides/MultiCompiler.js:46-56 | The result is a prefix of the first target's output path. |
| CommonPath.CommonOutputPathPerPath | Cli/Overrides/MultiCompiler.js:46-56 | For every target, one of three holds: the result is a character prefix of its path, or the result holds no `/` or `\`, or the result is the `/` that replaces an empty candidate. |
| CommonPath.CommonOutputPathAbsolute | Cli/Overrides/MultiCompiler.js:46-56 | When every output path starts with `/`, the result is a prefix of every one of them. This includes the case where an empty candidate becomes `/`. |
| CommonPath.CommonOutputPathSingle | Cli/Overrides/MultiCompiler.js:46-56 | A single target's output path comes back unchanged. |
| MultiCompiler.MultiCompiler.GetInputFileSystem | Cli/Overrides/MultiCompiler.js:58-60 | Reading `inputFileSystem` always throws its error. |
| MultiCompiler.MultiCompiler.GetOutputFileSystem | Cli/Overrides/MultiCompiler.js:62-64 | Reading `outputFileSystem` always throws its error. |
| MultiCompiler.MultiCompiler.SetInputFileSystem | Cli/Overrides/MultiCompiler.js:66-70 | Every target gets the value as its input file system. Its output file system and name are left alone. |
| MultiCompiler.MultiCompiler.SetOutputFileSystem | Cli/Overrides/MultiCompiler.js:72-76 | Every target gets the value as its output file system. Its input file system and name are left alone. |
| CompilerUnits.IndexOf | Cli/Overrides/MultiCompiler.js:113 | `indexOf` gives the first position of the target, or -1 exactly when it is not listed. |
| CompilerUnits.OutputPaths | Cli/Overrides/MultiCompiler.js:47-49 | The output paths of the targets, one per target, in target order. |
| DependencyScheduler.Partition | Cli/Overrides/MultiCompiler.js:82-94 | Every target of the list lands in exactly one half: ready targets in the first, blocked ones in the second. Together the halves hold the list's targets with their multiplicities. |
| DependencyScheduler.PartitionKeepsOrder | Cli/Overrides/MultiCompiler.js:86-92 | Both halves keep the relative order of the list. |
| DependencyScheduler.PartitionMembership | Cli/Overrides/MultiCompiler.js:81-87 | A target is in the ready half exactly when it has no dependencies or every dependency name is fulfilled. It is in the blocked half exactly otherwise. |
| DependencyScheduler.Scheduler.constructor | Cli/Overrides/MultiCompiler.js:78-105 | The session starts with no name fulfilled and dispatches the targets that are ready at the start. It completes at once when none is. |
| DependencyScheduler.Scheduler.GetReadyCompilers | Cli/Overrides/MultiCompiler.js:82-94 | The loop computes the partition of the remaining list: the ready targets are returned, the blocked ones remain. |
| DependencyScheduler.Scheduler.RunCompilers | Cli/Overrides/MultiCompiler.js:95-104 | With nothing remaining, nothing is dispatched. Otherwise the ready batch is dispatched and the blocked targets remain. Success is reported once nothing is in flight. The session invariant is kept: every target is dispatched, in the batch or remaining exactly once, and fulfilled names are exactly the names of targets whose step succeeded. |
| DependencyScheduler.Scheduler.Dispatch | Cli/Overrides/MultiCompiler.js:97-103 | Each target of the batch becomes in flight. Only ready targets are dispatched. The invariant is kept. |
| DependencyScheduler.DispatchKeepsAccounts | Cli/Overrides/MultiCompiler.js:97-103 | Dispatching a batch keeps the session's bookkeeping and introduces no failure. |
| DependencyScheduler.Scheduler.Finish | Cli/Overrides/MultiCompiler.js:98-102 | An error settles the step as failed. The name is not fulfilled, nothing is dispatched, and the error goes to the final callback unless that callback has already been called. A success fulfils the target's name and runs the next pass. |
| DependencyScheduler.Scheduler.Fail | Cli/Overrides/MultiCompiler.js:99 | A failed step is never marked fulfilled. Its error reaches the final callback unless an earlier outcome was reported. |
| DependencyScheduler.Scheduler.Succeed | Cli/Overrides/MultiCompiler.js:100-101 | A succeeded step adds exactly its target's name to the fulfilled names. It then dispatches what that made ready. |
| DependencyScheduler.DispatchedAtMostOnce | Cli/Overrides/MultiCompiler.js:84-92 | With distinct targets, no target is ever dispatched twice. |
| DependencyScheduler.InFlightCountZero | Cli/Overrides/MultiCompiler.js:96-103 | No step is pending exactly when the in-flight count is zero. |
| BatchRun.BatchRun.constructor | Cli/Overrides/MultiCompiler.js:149-152 | `allStats` starts as one `null` per target. No name is fulfilled. The first dispatched batch and the remaining list are the ready and blocked parts of the targets. With nothing dispatched, the callback gets success at once. |
| BatchRun.BatchRun.Complete | Cli/Overrides/MultiCompiler.js:153-166 | The oldest running build ends. Its stats go to its target's position in `allStats`. The callback gets the first error and fires at most once. An error leaves the dispatched list, the remaining list and the fulfilled names unchanged. A success has the scheduler effect stated for `Built`. |
| BatchRun.BatchRun.Failed | Cli/Overrides/MultiCompiler.js:157-158 | A failed build leaves `allStats` alone. Its error becomes the report unless one was already made. Nothing is fulfilled or dispatched, and the remaining list is kept as it was. |
| BatchRun.BatchRun.Built | Cli/Overrides/MultiCompiler.js:159-161 | A successful build writes its stats at its target's position. Its target's name becomes fulfilled. With targets remaining, the newly dispatched targets and the new remaining list are the ready and blocked parts of the old remaining list; with none remaining, nothing is dispatched. If nothing was reported yet, success is reported exactly when no build is in flight. An existing report is not changed. |
| BatchRun.CollectedAt | Cli/Overrides/MultiCompiler.js:155-160 | A target built once and successfully has its stats at its own position, whatever the order in which the builds ended. |
| BatchRun.CollectedFrom | Cli/Overrides/MultiCompiler.js:160 | A filled slot holds the stats of a successful build of the target at that position. |
| BatchRun.CollectedUnbuilt | Cli/Overrides/MultiCompiler.js:151 | A target that never finished a build keeps `null`. |
| BatchRun.SucceededReportAligned | Cli/Overrides/MultiCompiler.js:167-169 | A successful run has finished every dispatched build. Its stats are index-aligned with the targets: each filled slot is that target's build result, and an undispatched target gives `null`. |
| BatchRun.CyclicNoneReady | Cli/Overrides/MultiCompiler.js:87 | Illustration of `NoneReadyAtStart`: two targets that depend on each other are both blocked at the start. |
| BatchRun.CyclicTargets | Cli/Overrides/MultiCompiler.js:96-97 | With a dependency cycle, `run` reports success with `[null, null]` rather than an error. |
| BatchRun.ReadyAtStart | Cli/Overrides/MultiCompiler.js:87 | With no name fulfilled, a target is ready exactly when it has no dependency list or an empty one (`every` on `[]` is true). |
| BatchRun.NoneReadyAtStart | Cli/Overrides/MultiCompiler.js:83-93 | The first ready batch is empty exactly when every target names at least one dependency. |
| BatchRun.NoneReadyRun | Cli/Overrides/MultiCompiler.js:149-170 | When every target names at least one dependency, for any number of targets, `run` reports success at once with `null` for every target, and no deadlock error. |
| WatchRun.OptionsFor | Cli/Overrides/MultiCompiler.js:118 | Shared options go to every target. An options array gives each target the entry at its own position, or `undefined` past the end. |
| WatchRun.FreshStatsAllFresh | Cli/Overrides/MultiCompiler.js:124-130 | When every status is `"new"`, the combined result holds every target's stats in target order. |
| WatchRun.FreshStatsNone | Cli/Overrides/MultiCompiler.js:125-127 | With no `"new"` status, the filter keeps nothing. |
| WatchRun.FreshStatsOnly | Cli/Overrides/MultiCompiler.js:125-130 | With exactly one `"new"` status, the combined result is that target's stats alone. |
| WatchRun.WatchSession.constructor | Cli/Overrides/MultiCompiler.js:109-112 | No stats, every status `false`, no handler call and no watcher started. No name is fulfilled. The first dispatched batch and the remaining list are the ready and blocked parts of the targets. |
| WatchRun.WatchSession.Start | Cli/Overrides/MultiCompiler.js:116-118 | The next dispatched target starts watching only after the previous one has reported. It gets the options for its own position. |
| WatchRun.WatchSession.RecordStats | Cli/Overrides/MultiCompiler.js:121-132 | The stats are stored at the target's position and its status becomes `"new"`. Exactly when every status is then truthy, the handler gets the `"new"` stats in target order and every status becomes `true`. |
| WatchRun.WatchSession.Notify | Cli/Overrides/MultiCompiler.js:119-132 | An error goes to the handler first. Stats are then handled as above. A report without stats changes no status. |
| WatchRun.WatchSession.Report | Cli/Overrides/MultiCompiler.js:118-139 | One watcher report. Handler calls and status updates are as above. The first report without an error ends that target's step in the scheduler: its name is fulfilled, the remaining targets are split again, and the newly ready ones are dispatched after the earlier ones. Errors and later reports leave the dispatched list, the remaining list, the fulfilled names and the settlements unchanged. |
| WatchRun.WatchSession.EndFirstRun | Cli/Overrides/MultiCompiler.js:133-136 | The end of the first successful run fulfils exactly that target's name. The dispatched list only grows. With targets remaining, the new dispatches and the new remaining list are the ready and blocked parts of the old remaining list under the new names. With none remaining, nothing is dispatched. |
| WatchRun.WatchNeverAborts | Cli/Overrides/MultiCompiler.js:119-120 | In watch mode the scheduler never records a failure. A final outcome, if any, is success. |
| I18N.FindLocale | Php/Entities/I18NText.php:280-281 | The position of the first entry for the locale, or none exactly when no entry has it. |
| I18N.FindLocaleIs | Php/Entities/I18NText.php:280-281 | An entry with the locale and none before it is the one found. |
| I18N.Lookup | Php/Entities/I18NText.php:302-306 | `getTranslation` gives `null` exactly when no entry has the locale. Otherwise it gives the text of the first entry for that locale, where the `foreach` returns. |
| I18N.UpsertReplacesFirst | Php/Entities/I18NText.php:279-285 | For a locale already present, only its first entry changes, to the new text. The length is unchanged. |
| I18N.UpsertAppends | Php/Entities/I18NText.php:289-292 | For a new locale, `{locale, text}` is appended and nothing else changes. |
| I18N.LookupUpsert | Php/Entities/I18NText.php:277-307 | After setting a locale's text, reading that locale gives the text. Every other locale reads as before. |
| I18N.UpsertIdempotent | Php/Entities/I18NText.php:279-292 | Setting the same translation twice leaves the list of setting it once. |
| I18N.I18NText.constructor | Php/Entities/I18NText.php:36 | A new text has no translations. |
| I18N.I18NText.SetTranslation | Php/Entities/I18NText.php:277-293 | The loop replaces the first matching entry or appends one, as the upsert above. |
| I18N.I18NText.GetTranslation | Php/Entities/I18NText.php:300-307 | The loop returns the lookup above. |
| I18N.I18NText.HasTranslation | Php/Entities/I18NText.php:314-317 | True exactly when the first entry for the locale has a PHP-truthy text. A missing entry, `""` and `"0"` all give false. |
| I18N.FillMissingExtends | Php/Entities/I18NText.php:237-245 | The aggregate rows stay first and unchanged. Every added row has count 0 and is for one of the locales. |
| I18N.FillMissingCovers | Php/Entities/I18NText.php:237-245 | Afterwards every locale has a row. |
| I18N.FillMissingDistinct | Php/Entities/I18NText.php:237-245 | A locale that already has a row gets no second one. Rows with distinct locale keys stay distinct. |
| I18N.FillMissingLocales | Php/Entities/I18NText.php:237-245 | The nested loops compute the fill described above. |
| I18N.Stats | Php/Entities/I18NText.php:208-254 | The totals are the locale count and the text count. Without locales the list is empty. Otherwise the aggregate rows are filled with the missing locales. |
| Filters.Entry | Js/Webiny/Modules/Filters/Filter.js:10-12 | A segment maps the text before its first `:` to the remaining `:`-separated pieces. A segment without `:` has no parameters. |
| Filters.ParseFilters | Js/Webiny/Modules/Filters/Filter.js:3-15 | A falsy argument gives `{}`. Otherwise the loop assigns each segment's entry in turn, and no name appears twice in the result. |
| Filters.ParsedSegments | Js/Webiny/Modules/Filters/Filter.js:7-13 | A name maps to the parameters of its last segment. The parsed names are exactly the segments' names. |
| Filters.ApplyAllFails | Js/Webiny/Modules/Filters/Filter.js:22-24 | Applying the filters fails exactly when some parsed name has no registered filter. |
| Filters.ApplyAllAppend | Js/Webiny/Modules/Filters/Filter.js:22-24 | The value is threaded through the filters in map order. Each filter gets the previous output. |
| Filters.ApplyAllSingle | Js/Webiny/Modules/Filters/Filter.js:23 | One filter is called with the value followed by its parameters. |
| Filters.AddAsWritten | Js/Webiny/Modules/Filters/Filter.js:28-31 | `addFilter` as written stores the callable under the name and keeps every other filter. |
| Filters.AddAsWrittenReplaces | Js/Webiny/Modules/Filters/Filter.js:29-30 | As written, a second registration under a taken name replaces the first filter. |
| Filters.AddIfAbsent | Js/Webiny/Modules/Filters/Filter.js:28-33 | With the intended guard, a new name gets the callable. A taken name leaves the table unchanged. |
| Filters.AddIfAbsentKeepsFirst | Js/Webiny/Modules/Filters/Filter.js:29-31 | With the intended guard, registering twice under one name keeps the first filter. |
| Filters.FilterRegistry.constructor | Js/Webiny/Modules/Filters/Filter.js:1 | The module-level table starts empty. |
| Filters.FilterRegistry.AddFilter | Js/Webiny/Modules/Filters/Filter.js:28-33 | Registration as written: the callable replaces any earlier one under the name, and every other filter is kept. |
| Filters.FilterRegistry.Filter | Js/Webiny/Modules/Filters/Filter.js:21-26 | The loop threads the value through the parsed filters. No filters (a falsy string) gives the value unchanged. An unregistered name is a `TypeError`. |
| AssocList.GetPut | Js/Webiny/Modules/Filters/Filter.js:12 | After an object assignment, reading the key gives the new value. Every other key reads as before. |
| AssocList.PutShape | Js/Webiny/Modules/Filters/Filter.js:12 | Assigning a new key appends it. Assigning an existing key keeps its position and the other entries. |
| AssocList.PutAllLastWins | Js/Webiny/Modules/Filters/Filter.js:9-13 | With assignments in turn, a key holds the value of its last assignment. |
| AssocList.PutAllKeys | Js/Webiny/Modules/Filters/Filter.js:9-13 | The keys present are exactly the assigned keys. |
| AssocList.PutAllUnique | Js/Webiny/Modules/Filters/Filter.js:9-13 | No key appears twice. |
| Components.TruthyKeysSpec | Js/Webiny/Modules/Core/Core/Component.js:125-130 | An object argument keeps a key exactly when its value is truthy. |
| Components.ClassSetIgnoresFalsy | Js/Webiny/Modules/Core/Core/Component.js:111-113 | A falsy argument anywhere changes nothing. |
| Components.ClassSetOfString | Js/Webiny/Modules/Core/Core/Component.js:115-118 | A single string argument comes back unchanged: its space-split pieces joined again. |
| Components.ClassSetOfObject | Js/Webiny/Modules/Core/Core/Component.js:125-130 | An object argument contributes exactly the keys whose values are truthy. |
| Components.ClassSetSplits | Js/Webiny/Modules/Core/Core/Component.js:133 | When no piece is empty or holds a space, the joined string splits back into the pieces in argument order. |
| Components.FlatMapAppend | Js/Webiny/Modules/Core/Core/Component.js:110-131 | The pieces of consecutive arguments are concatenated in argument order. |
| Components.ClassSet | Js/Webiny/Modules/Core/Core/Component.js:107-134 | The loop joins each argument's pieces with single spaces, in argument order: string pieces, array elements, truthy object keys. No arguments give `""`. |
| Components.BindNames | Js/Webiny/Modules/Core/Core/Component.js:150-153 | Several arguments are the names themselves. A single argument gives one name per comma-separated piece. |
| Components.TrimAll | Js/Webiny/Modules/Core/Core/Component.js:152 | Each piece is trimmed, in order. |
| Strings.Trim | Js/Webiny/Modules/Core/Core/Component.js:152 | The result is the slice of the string that starts after its leading whitespace and is followed by whitespace only. It neither starts nor ends with whitespace, which pins it down. A string already without surrounding whitespace is unchanged. |
| Components.BindNamesTrimmed | Js/Webiny/Modules/Core/Core/Component.js:152 | Every name parsed from one string is comma-free and has no surrounding whitespace. |
| Components.BindNamesTrims | Js/Webiny/Modules/Core/Core/Component.js:152 | Illustration of `BindNamesTrimmed`: `"a, b"` names exactly `a` and `b`. |
| Components.ParseNames | Js/Webiny/Modules/Core/Core/Component.js:150-153 | The loop computes the parsed names. |
| Components.Missing | Js/Webiny/Modules/Core/Core/Component.js:158-160 | The names reported missing are exactly the names that are not members, in their order, duplicates kept. |
| Components.MissingAppend | Js/Webiny/Modules/Core/Core/Component.js:155-161 | The missing names of consecutive name lists are reported one after the other. |
| Components.StopAt | Js/Webiny/Modules/Core/Core/Component.js:155-161 | The loop stops at the first name that is a member but not a function, where `this[name].bind` throws a `TypeError`. Every earlier name is a function or not a member. |
| Components.StopAtFails | Js/Webiny/Modules/Core/Core/Component.js:156-157 | Binding throws exactly when some name is a member that is not a function. |
| Components.Component.constructor | Js/Webiny/Modules/Core/Core/Component.js:8-14 | Both lists start empty and `bindTo` is bound. `__listeners` and `__cursors` are members that are not functions. |
| Components.Component.BindMethods | Js/Webiny/Modules/Core/Core/Component.js:149-162 | The parsed names are taken in order up to the first member that is not a function. Each function member before it becomes bound. Each non-member before it is reported, in order, and left unbound. A `TypeError` is thrown exactly when the loop stops early. |
| Components.Component.BindEach | Js/Webiny/Modules/Core/Core/Component.js:155-161 | The same, for a list of names already parsed. |
| Components.Component.On | Js/Webiny/Modules/Core/Core/Component.js:102-105 | Exactly one unsubscribe function is appended to the listeners. |
| Components.Component.OnRouteChanged | Js/Webiny/Modules/Core/Core/Component.js:76-79 | Exactly one unsubscribe function is appended to the listeners. |
| Components.Component.Watch | Js/Webiny/Modules/Core/Core/Component.js:168-175 | Exactly one cursor is appended, and it is returned. Its path joins back to the key. |
| Components.Component.ComponentWillUnmount | Js/Webiny/Modules/Core/Core/Component.js:46-57 | Every listener is unsubscribed once and then every cursor is released once, in order. Both lists are left empty. |
| Components.UnsubscribeAll | Js/Webiny/Modules/Core/Core/Component.js:48-50 | One unsubscribe call per listener, in order. |
| Components.ReleaseAll | Js/Webiny/Modules/Core/Core/Component.js:54-56 | One release per cursor, in order. |
| Strings.JoinSplit | Js/Webiny/Modules/Core/Core/Component.js:169 | Joining the pieces of a split gives back the string. |
| PackageApp.NewApp | Php/PackageManager/App.php:36-41 | Construction succeeds exactly when `Name` and `Version` are both present and non-empty, and keeps them. Otherwise it throws its error. |
| PackageApp.VersionPath | Php/PackageManager/App.php:56-66 | The result is empty exactly when the setting is missing, boolean, `""` or `"0"`. Otherwise it is `/v` and the version with each `.` turned into `_`. |
| PackageApp.VersionPathRoundTrip | Php/PackageManager/App.php:60 | A version without underscores can be read back from its suffix. |
| PackageApp.VersionPathIgnoresBooleans | Php/PackageManager/App.php:59 | A boolean setting gives no suffix, whatever its value. |
| PackageApp.AppVersionPath | Php/PackageManager/App.php:58 | An application's version suffix holds no dot. |
| PackageApp.AppDir | Php/PackageManager/App.php:72-75 | The directory starts with the name and adds no dot after it. |
| PackageApp.Path | Php/PackageManager/App.php:68-76 | The path ends with the application's directory. An absolute path starts with the configured prefix. |
| PackageApp.PathsAgree | Php/PackageManager/App.php:71-75 | `getPath(true)` is the absolute prefix followed by `getPath(false)`. |
| PackageApp.BuildPath | Php/PackageManager/App.php:78-83 | The build path starts with `/build/` and ends with the application's directory. |
| PackageApp.Asset | Php/PackageManager/App.php:120-123 | The asset URL starts with the web path and the build path, and ends with the asset. |
| PackageApp.FileName | Php/PackageManager/App.php:134 | A name (of an entity, and likewise of a service at line 159) holds no `/`. |
| PackageApp.FileNameOf | Php/PackageManager/App.php:134 | For `dir/X.php` the name is `X`. |
| PackageApp.ClassName | Php/PackageManager/App.php:133 | The class (likewise for services at line 158) starts with `Apps\` and holds no `/`. |
| PackageApp.RecordOf | Php/PackageManager/App.php:139-173 | An entity is named `app.Name`. A service is public exactly when it implements the public interface. It needs authorization exactly when it is not public and does not implement the no-authorization interface. |
| PackageApp.EntriesSound | Php/PackageManager/App.php:138-144 | Every assignment comes from a file that is not abstract (and, for entities, not a trait). |
| PackageApp.EntriesComplete | Php/PackageManager/App.php:162-174 | Every such file makes its assignment. |
| PackageApp.TableKeys | Php/PackageManager/App.php:132-147 | A name is in the table exactly when some kept file has it. |
| PackageApp.TableUnique | Php/PackageManager/App.php:139 | No name appears twice. |
| PackageApp.TableValues | Php/PackageManager/App.php:167-173 | The row under a name is the row of a kept file with that name. |
| PackageApp.TableLastWins | Php/PackageManager/App.php:139-143 | A kept file's row is stored under its name unless a later kept file has the same name. |
| PackageApp.PublicServicesSkipAuthorization | Php/PackageManager/App.php:164-172 | A public service never needs authorization. |
| PackageApp.Collect | Php/PackageManager/App.php:125-178 | The `foreach` of `getEntities` and `getServices` builds the table described above. |
| DatabaseStore.SpliceStart | Apps/WebMongo/Database/Js/Stores/DatabaseStore.js:22 | Where `splice` starts: an index in range as given, a negative one counted from the end, both ends clamped. |
| DatabaseStore.RemoveAt | Apps/WebMongo/Database/Js/Stores/DatabaseStore.js:22 | One entry fewer when the start is in range, else the same list. Nothing is added. |
| DatabaseStore.RemoveAtInRange | Apps/WebMongo/Database/Js/Stores/DatabaseStore.js:21-24 | An in-range index deletes exactly that entry and keeps the others in order. |
| DatabaseStore.RemoveAtLast | Apps/WebMongo/Database/Js/Stores/DatabaseStore.js:22 | `-1` removes the last entry. |
| DatabaseStore.RemoveAtPastEnd | Apps/WebMongo/Database/Js/Stores/DatabaseStore.js:22 | An index past the end removes nothing. |
| DatabaseStore.RemoveAtUndoesAdd | Apps/WebMongo/Database/Js/Stores/DatabaseStore.js:16-24 | Removing at the position just added to undoes the add. |
| DatabaseStore.Store.Init | Apps/WebMongo/Database/Js/Stores/DatabaseStore.js:9-14 | Exactly three databases, Sandbox, Production and Development in that order, and no change emitted. |
| DatabaseStore.Store.Add | Apps/WebMongo/Database/Js/Stores/DatabaseStore.js:16-19 | The database is appended at the end, earlier entries are unchanged, and one change is emitted. |
| DatabaseStore.Store.Remove | Apps/WebMongo/Database/Js/Stores/DatabaseStore.js:21-24 | The list loses what `splice(index, 1)` removes, and one change is emitted. |
| DatabaseStore.Store.GetDatabases | Apps/WebMongo/Database/Js/Stores/DatabaseStore.js:35-37 | The current list. |

## Left out

- Concurrency and timing. `asyncLib.map` parallelism and the `chainedBuild`/`chainedWatching` promises become one event per method call; an interleaving is a sequence of calls.
- `MultiWatching`, the `watchings` array and its `push`: the handle that `watch` returns, and stopping it, belong to code outside the orchestrator.
- `MultiStats`: a combined result is the list of per-target stats it wraps. Each combined result that MultiCompiler.MultiCompiler.OnDone emits is a snapshot of the slots. In the source, every emitted `MultiStats` wraps the one live `compilerStats` array, so a later "done" also changes the results emitted earlier. This aliasing is not modelled.
- Tapable `plugin`/`applyPlugins` wiring: "done" and "invalid" events are method calls, and emitted events are recorded in order.
- `purgeInputFileSystem`: it only calls the targets' own file systems, which are opaque here.
- A target's own compile, watch and file-system behaviour: external, reduced to opaque `Stats`, `BuildError` and `FileSystem` values.
- JavaScript objects are modelled with string keys only. An integer-like key, which JavaScript enumerates first, and prototype keys such as `constructor` are not modelled (`fulfilledNames`, `parseFilters`, `classSet` objects).
- Components.BindMethods: a single argument that is not a string is treated like several arguments. Binding itself is recorded as membership of the `bound` set; `console.info` becomes the list of missing names. Members are split into function-valued names and other properties, and the `TypeError` message is a fixed string.
- Components.ClassSet: an object's values are given only as truthy or not; a truthy number argument is the object with no keys, as `_.forIn` visits none.
- `setState`, `bindTo`/`LinkState`, `signal`, `render`, `addKeys`, `dispatch`, the `props.ui` dispatcher registration and the empty lifecycle hooks of `Component.js`: React and dispatcher plumbing.
- Filters.FilterRegistry.AddFilter: returning `Filter` for chaining is not modelled.
- `Strings.Trim`: only ASCII whitespace is trimmed.
- The API routes of `I18NText.php`: Mongo aggregates, imports and exports. The `usort` with a boolean comparator is also left out, since its order is not well defined; `I18N.Stats` returns the rows before sorting.
- `getBuildMeta`, `getLifeCycleObject`, `registerAutoloaderMap` and the `parse*` calls of `App.php`: they need storage and the autoloader. `ReflectionClass` and `class_implements` become the fields of `PhpFile`, and the directory listing is the `files` argument.
- PackageApp.ConfigValue: a configuration value that is a number or an array is not modelled.
- `wConfig()` and `wIsProduction()` become the `Config` argument.
- DatabaseStore.Store.GetDatabases: returns the list as a value; a caller that mutates the returned array in place is not modelled. The `CollectionStore` listener does nothing and is left out, and `emitChange` is counted, not delivered.

## Findings

| source | as written | input that shows it | evidently intended | confidence | as-written member | corrected member |
|---|---|---|---|---|---|---|
| Js/Webiny/Modules/Filters/Filter.js:29 | `_.has(filters[name])` passes no key, so the guard is always true and every call assigns | `addFilter('trim', f)` then `addFilter('trim', g)`: the table holds `g` | `_.has(filters, name)`: the first registration under a name is kept | not executed | Filters.AddAsWrittenReplaces | Filters.AddIfAbsentKeepsFirst |
