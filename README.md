# vend, modelled in Dafny

vend keeps a project's `vendored/` directory in step with a list of pinned
git sources (`<url>@<reference>`) kept in `vend.yaml`. Each source is
cloned into a per-user cache whose root is `Location()`, under the key
`Name()`. `vendored/<ShortName()>` is then linked to that checkout. The
clones run concurrently and report to a terminal progress display.

This project models the core of vend and proves properties of the model:

- the configuration commands `Add`, `Remove` and `Load`, the `Sync`
  reconciliation, and the names derived from a source (`config.go`);
- the progress writer, the display's update and view functions, each
  clone's message stream, and `CloneMultiple` (`download.go`);
- the linking loops: `link` in `main.go`, the Unix `Link`, and the Windows
  `Link` with its administrator branch and its elevated relaunch;
- `user.Location`;
- the version comparison of the update check (`version.go`).

Modules, one per concern:

| module | file | models |
|---|---|---|
| `Wrappers` | wrappers.dfy | `Option` and `Result` |
| `Text` | text.dfy | the `strings`/`strconv` helpers used, and Go's bytewise string order |
| `Paths` | paths.dfy | `filepath.Clean`, `Join` and `Base` |
| `Urls` | urls.dfy | the host and path that `url.Parse` yields |
| `User` | user.dfy | `Location` |
| `Sources` | sources.dfy | `sourceRE`, `ShortName`, `Name`, `DestPath` |
| `Versions` | version.dfy | `Split` and `IsNewerThan`, as written and as intended |
| `Events` | events.dfy | messages, `extractPercentage`, the progress writer, `cloneRepository` |
| `ProgressUi` | progress_ui.dfy | `model.Update` and `View`, as a state machine and as a class over a shared array |
| `Downloads` | downloads.dfy | `CloneMultiple` and interleaved clone streams |
| `FileSystems` | filesystem.dfy | symlink, remove, remove-all and mkdir on a map from path to node |
| `Linking` | linking.dfy | `main`, `link`, the Unix and Windows `Link` |
| `Registry` | registry.dfy | the `Config` class: `Add`, `Remove`, `Load`, `Sync` |

Concurrency is modelled by its effect. Each clone's messages reach the
display in the order the clone sent them: the channels are unbuffered and a
single goroutine forwards them. The clones' streams are merged in an
arbitrary order, and that merged sequence is a parameter. The display and
`CloneMultiple` share one slice of repository states. The model uses one
`array`, held by the `ProgressModel` class, so the errors the display
records are the ones `CloneMultiple` reads back.

`Sync` deletes every entry of `vendored/` it can read
(`config.go:204-224`) and then relinks all sources: see
`Registry.ReconcileRemovesEverything` and `Registry.SyncLeavesExactlyTheLinks`.
The names it passes to the file system are resolved against the working
directory, as the operating system does. So the removal of
`vendored/<name>` and the link at `<wd>/vendored/<name>` land on the same
place.

## Model

| member | source | states |
|---|---|---|
| Sources.ParseSource | internal/config/config.go:83-87 | a match splits the argument into a non-empty URL free of newlines, `@`, and a non-empty reference free of `@` |
| Sources.ParseSourceMatches | internal/config/config.go:83-87 | `^(.+)@([^@]+)$` matches exactly `u@r` with non-empty `u` free of newlines and non-empty `r` free of `@`; the groups are `u` and `r` |
| Sources.ShortName | internal/config/config.go:239-245 | the link name contains no slash, or is "/". For degenerate URLs it may be "", "." or ".." (`https://h/.git` gives "") |
| Sources.NameKeepsReference | internal/config/config.go:247-253 | a reference that is a plain relative path stays whole at the end of the cache key, after a prefix fixed by the URL alone |
| Sources.NameEndsWithReference | internal/config/config.go:247-253 | a plain reference is the last element and the base name of the cache key, whether or not the URL parses |
| Sources.CachePathEndsWithReference | internal/config/config.go:247-257 | a reference that is a plain relative path (`main`, `refs/heads/main`) stays whole at the end of the cache key and the cache path. What comes before it depends on the URL and the environment only. Under an absolute data root the path ends in "/" and the reference. A single-element reference is the base name of both |
| Sources.PinsCachedApart | internal/config/config.go:247-257 | two plain relative references of one URL get different cache paths (`main` and `main/` clean to one path) |
| Sources.DestPath | internal/config/config.go:255-257 | the cache path, the data root joined with the cache key, is never empty |
| User.Location | internal/user/user.go:12-27 | the data root ends in `vend` (`.vend` on other systems without `XDG_DATA_HOME`) |
| User.XdgOverridesSystem | internal/user/user.go:13-14 | a set `XDG_DATA_HOME` alone decides the root |
| User.EmptyBaseIsRelative | internal/user/user.go:13-22 | an empty `XDG_DATA_HOME`, or Windows without `APPDATA`, gives the relative path `vend` |
| Registry.Config.Add | internal/config/config.go:85-100 | the new list and error are those of `AddSources`: malformed is refused, a present URL is refused, else the parsed source is appended |
| Registry.AddAppendsSource | internal/config/config.go:85-100 | adding `u@r` appends `Source(u, r)` exactly when no source has URL `u`, and otherwise fails with "exists already" |
| Registry.AddRejectsMalformed | internal/config/config.go:86-89 | anything that is not `<url>@<ref>` is refused with the format error |
| Registry.AddKeepsUrlsUnique | internal/config/config.go:90-98 | adding keeps URLs unique and grows the list by one |
| Registry.FirstIdentified | internal/config/config.go:105-106 | the first source whose URL, `Name()` or `ShortName()` equals the argument |
| Registry.FirstWithUrl | internal/config/config.go:112-113 | the first source with the given URL |
| Registry.Config.FindIdentified | internal/config/config.go:105-110 | the first loop of `Remove` finds the first designated source |
| Registry.Config.FindUrl | internal/config/config.go:112-117 | the second loop panics exactly when the argument did not parse and the list is non-empty; otherwise it finds the first source with the URL |
| Registry.Config.Remove | internal/config/config.go:102-119 | result and new list are those of `RemoveAsWritten`, including the index panic |
| Registry.RemovePanicsExactly | internal/config/config.go:103-117 | `Remove` panics exactly when the argument is no `url@ref`, names no source, and some source exists |
| Registry.RemoveUnknownNamePanics | internal/config/config.go:104-113 | `remove name` for an unknown name panics whenever a source is configured |
| Registry.RemoveIntendedMeaning | internal/config/config.go:102-119 | the intended `Remove` never panics, agrees with the written one otherwise, deletes exactly the first designated source, and with unique URLs leaves none with that URL |
| Registry.NearestConfig | internal/config/config.go:58-78 | the deepest ancestor of the working directory holding `vend.yaml`; none closer exists |
| Registry.Config.Load | internal/config/config.go:51-81 | the upward search loop ends in exactly the outcome `LoadOutcome` gives for the directories above the working directory |
| Registry.LoadReadsNearest | internal/config/config.go:51-81 | loading succeeds exactly when the nearest directory with a `vend.yaml` holds a readable one, and then yields its sources and that directory; not-found exactly when no directory up to the root has one; every error returns the fresh configuration, with no sources and an empty location |
| Registry.Reconcile | internal/config/config.go:204-224 | the entry loop leaves the file system `ReconcileFrom` describes |
| Registry.ReconcileRemovesEverything | internal/config/config.go:204-224 | reconciliation only deletes; it removes every readable entry nothing blocks, links and checkouts alike, and keeps everything outside the listed entries |
| Registry.ReconcileEmptiesVendored | internal/config/config.go:204-224 | with nothing failing and every entry readable, a full listing leaves no entry in `vendored`, keeps the directory, and adds nothing |
| Registry.EntryKeyIsChild | internal/config/config.go:205 | `vendored/<name>`, resolved against the working directory, is the entry `<name>` of the working directory's `vendored` |
| Registry.LinkKeyIsChild | internal/config/config.go:228-233 | `<wd>/vendored/<short name>` is that same entry, whether `os.Getwd` gave the working directory or failed and gave "" |
| Registry.LinkPairs | internal/config/config.go:228-235 | one pair per source, in order: the cache path and `<wd>/vendored/<ShortName>` |
| Registry.Config.BuildLinkPairs | internal/config/config.go:228-235 | the append loop builds `LinkPairs` |
| Registry.AppendPairs | internal/config/config.go:229-235 | appending one pair per source leaves one pair per source, in the order of the sources |
| Registry.LinkPairNames | internal/config/config.go:231-234 | each link is the short name's entry of `vendored`, and its base name is the short name. It points at the cache path, which is the URL's cache prefix followed by the reference when that is a plain relative path |
| Registry.SharedShortNameBlocksLinking | internal/config/config.go:230-236 | two sources with one short name make the link step fail, whatever their cache paths |
| Registry.SyncLinksEverySource | internal/config/config.go:226-236 | once the display has quit and the link step succeeded, every source's `vendored` link points at its cache path |
| Registry.Config.Sync | internal/config/config.go:196-237 | with a listing only when `vendored` is no file and does not fail, and then exactly its entries: mkdir, stop on an unreadable listing, reconcile, clone, stay waiting (linking nothing) while the display has not quit, then link with the Unix loop; the file system ends as `SyncResult` says |
| Registry.SyncEmptiesVendored | internal/config/config.go:196-224 | with nothing failing and every entry readable, making and reconciling `vendored` leaves it an empty directory |
| Registry.LinkStepLeavesExactlyTheLinks | internal/config/config.go:204-236 | with nothing failing, every entry readable and distinct plain short names, reconciling and then linking leave `vendored` a directory whose entries are exactly the sources' links, each pointing at its source's cache path |
| Registry.SyncResultLinks | internal/config/config.go:226-236 | once the clone display has quit, `Sync` goes on to the link step, whatever the display's error |
| Registry.BlockedSyncLinksNothing | internal/config/config.go:196-226 | while the clone display has not quit, `Sync` has emptied `vendored` and linked nothing |
| Registry.SyncLeavesExactlyTheLinks | internal/config/config.go:196-237 | once the display has quit, with nothing failing, every entry readable and distinct plain short names, `Sync` leaves `vendored` a directory whose entries are exactly the sources' links, each pointing at its source's cache path |
| Events.ExtractPercentage | internal/config/download.go:79-88 | no match or float64 overflow gives `(0, false)`; a match gives a non-negative fraction |
| Events.PercentMatchIsLeftmost | internal/config/download.go:80-81 | a match of `(\d+)%` is found exactly when one exists, and it is the leftmost |
| Events.MatchEndDetermined | internal/config/download.go:80-81 | the start of a match fixes its end |
| Events.ExtractAfterPlainPrefix | internal/config/download.go:68-88 | "Receiving objects:  15% (…)" gives 0.15: the number after a percent-free prefix, over 100 |
| Events.ProgressWriter.Write | internal/config/download.go:54-77 | the whole buffer is written, never an error, and `WriteEvents` is sent |
| Events.WriteEventsShape | internal/config/download.go:54-77 | one write sends at most one event, for its own index; submodule text is trimmed and never read as progress |
| Events.GitSubmoduleMentionsSubmodule | internal/config/download.go:58-60 | the third test of `Write` is subsumed by the second |
| Events.ProgressWriter.Replay | internal/config/download.go:222-228 | git's successive writes send their events in order |
| Events.CloneEventsShape | internal/config/download.go:200-232 | one clone's stream concerns its own index and ends with its single `Done`: no error if the destination exists, git's error otherwise |
| Events.CloneRepository | internal/config/download.go:200-232 | an existing destination sends only `Done`; otherwise 0%, then the writer's events, then `Done` with git's result |
| ProgressUi.InitialUi | internal/config/download.go:244-258 | one fresh entry per source, not quitting |
| ProgressUi.Step | internal/config/download.go:94-155 | one message keeps the number of repositories, and sets `quitting` exactly on `q` or `ctrl+c` |
| ProgressUi.Run | internal/config/download.go:296-300 | running messages until the quit command keeps the number of repositories, and a run that does not quit leaves `quitting` as it was |
| ProgressUi.QuitExactly | internal/config/download.go:94-142 | the display quits on `q` or `ctrl+c`, or on a `Done` for a known repository when all others are done, and on nothing else |
| ProgressUi.QuittingOnlyByKey | internal/config/download.go:96-100 | only a quit key sets `quitting` |
| ProgressUi.StepFrame | internal/config/download.go:102-128 | a message about one repository leaves the others unchanged; a resize sets every width to `min(w-4, 80)` |
| ProgressUi.DoneIsAbsorbing | internal/config/download.go:107-128 | a finished repository stays finished, and only a `Done` for it changes its error |
| ProgressUi.TidyInitially | internal/config/download.go:244-252 | all repositories start unfinished and tidy |
| ProgressUi.StepKeepsTidy | internal/config/download.go:107-128 | a finished repository keeps a full bar and no submodule status |
| ProgressUi.RunKeepsTidy | internal/config/download.go:94-155 | the same over any message sequence |
| ProgressUi.RunFinishes | internal/config/download.go:122-141 | one `Done` per pending repository and no quit key: the program quits, every repository done with its error |
| ProgressUi.FirstError | internal/config/download.go:302-307 | none exactly when no repository failed; else the error of the first failing one |
| ProgressUi.StatusLabelMeaning | internal/config/download.go:164-182 | each label stands for one state: error, done, submodules, finishing (≥ 0.99), none |
| ProgressUi.ScreenShowsEveryRepository | internal/config/download.go:157-197 | unless quitting, the screen holds every repository's block and ends with the hint |
| ProgressUi.FinishedBlockHasNoStatusLine | internal/config/download.go:187-190 | a finished repository's block has a full bar and no status line |
| ProgressUi.ProgressModel.ScanAllDone | internal/config/download.go:130-137 | true exactly when every repository is done |
| ProgressUi.ProgressModel.Update | internal/config/download.go:94-155 | new state and command are those of `Step` |
| ProgressUi.ProgressModel.RunProgram | internal/config/download.go:297-300 | the event loop is `Run`: messages until the first quit command |
| ProgressUi.ProgressModel.View | internal/config/download.go:157-197 | the text is `Screen` of the current state |
| Downloads.CloneStreamOk | internal/config/download.go:200-232 | each `cloneRepository` stream is well formed |
| Downloads.InterleavingDelivers | internal/config/download.go:263-295 | merging well-formed clone streams delivers each pending `Done` exactly once |
| Downloads.StreamsFinish | internal/config/download.go:279-300 | from a fresh display, complete streams make the program quit with every error recorded |
| Downloads.ClonesFinishWithFirstError | internal/config/download.go:234-310 | with complete streams and no quit key, `CloneMultiple` returns the first failing source's error in list order, or none |
| Downloads.FirstErrorOfErrs | internal/config/download.go:302-307 | the first error read off the recorded errors |
| Downloads.ClonesOfRepositories | internal/config/download.go:234-310 | the same for real clone streams: existing destinations count as success, others carry git's error |
| Downloads.CloneMultiple | internal/config/download.go:234-310 | `CloneResult`: nil for no sources, the display's error, the first recorded error once it quits |
| Linking.Dispatch | main.go:14-21 | the link command runs exactly for three arguments with `link` first; its argument is the batch |
| Linking.RunMain | main.go:13-41 | the CLI otherwise; else decode, link with `ElevatedLink`, exit 1 on an error |
| Linking.UndecodableBatchDoesNothing | main.go:24-29 | a link command whose batch does not decode leaves the file system as it was and exits with 0 |
| Linking.ElevatedLink | main.go:24-41 | the file system and error are `LinkLoop` with the `link` rules |
| Linking.LinkLoopOutcome | main.go:29-40 | each loop links a prefix of the batch, adds nothing else, keeps what exists, and fails exactly at the pair it names |
| Linking.SuccessLinksEverything | internal/sudo/sudo_unix.go:10-17 | a successful Unix or `link` loop leaves every pair linked, except skipped equal pairs |
| Linking.FreshLinksSucceed | internal/sudo/sudo_unix.go:10-17 | the Unix loop succeeds on pairs with targets and distinct, free, non-failing names |
| Linking.TakenNameFails | internal/sudo/sudo_unix.go:10-17 | the Unix loop fails once it reaches a pair whose link name is already taken |
| Linking.RepeatedNameFails | internal/sudo/sudo_unix.go:10-17 | the Unix loop skips no pair, so two pairs with one link name make it fail |
| Linking.UnixLink | internal/sudo/sudo_unix.go:10-17 | the file system and error are `LinkLoop` with the Unix rules |
| Linking.UnixMatchesElevated | internal/sudo/sudo_unix.go:10-17 | Unix `Link` and `link` agree on batches without equal or empty paths |
| Linking.AdminLink | internal/sudo/sudo_windows.go:25-35 | the file system and error are `LinkLoop` with the administrator rules |
| Linking.AdminLinksBackwards | internal/sudo/sudo_windows.go:32-34 | the administrator loop creates the link at the cache path, which fails where `link` succeeds |
| Linking.AdminStopsAtEqualPair | internal/sudo/sudo_windows.go:26-28 | an equal pair ends the whole batch successfully, where `link` skips it and links the rest |
| Linking.IntendedAdminMatchesUnix | internal/sudo/sudo_windows.go:25-35 | the `link` loop, the intended administrator loop, equals the Unix loop and links every pair on success |
| Linking.Absolutise | internal/sudo/sudo_windows.go:39-52 | the slice is rewritten in place to `Absolutised` |
| Linking.Absolutised | internal/sudo/sudo_windows.go:39-52 | each relative path is replaced by `filepath.Abs`'s result, or "" on its error |
| Linking.AbsolutisedIsAbsolute | internal/sudo/sudo_windows.go:41-48 | afterwards every path is absolute or empty, and absolute pairs are kept |
| Linking.AbsolutisedIdempotent | internal/sudo/sudo_windows.go:41-48 | when `Abs` never fails, a second pass changes nothing |
| Linking.WindowsLink | internal/sudo/sudo_windows.go:23-92 | an administrator links directly; otherwise absolutise, then fail on a missing executable or a NUL, else ask for a `runas` relaunch with `link <batch>` |
| Versions.Split | internal/update/version.go:11-20 | "dev" gives 999, 0, 0; apart from "dev", three numbers, and the version is `v` followed by them, dot-separated |
| Versions.SplitMatches | internal/update/version.go:9-20 | apart from "dev", a version splits exactly when it is `v<n>.<n>.<n>`, into those numbers |
| Versions.IsNewerThan | internal/update/version.go:22-37 | the as-written comparison `Compare`, including the out-of-range read; false when either side does not parse |
| Versions.CompareCases | internal/update/version.go:30-34 | it panics exactly when minor and patch agree; otherwise the first differing of them decides, as strings |
| Versions.MajorIgnored | internal/update/version.go:30 | the major version never matters |
| Versions.CompareAsymmetric | internal/update/version.go:30-34 | newer one way is not newer the other way |
| Versions.TenBeforeNine | internal/update/version.go:32 | 0.10.0 is not newer than 0.9.0 |
| Versions.EqualVersionsPanic | internal/update/version.go:30-31 | comparing a version with itself reads past the parts |
| Versions.IntendedIsStrictOrder | internal/update/version.go:22-37 | the intended comparison is irreflexive, asymmetric, transitive and total on different numbers |
| Versions.IntendedTenAfterNine | internal/update/version.go:32 | intended: 0.10.0 is newer than 0.9.0 |
| Versions.IntendedMajorCounts | internal/update/version.go:30 | intended: 2.0.0 is newer than 1.0.0 |

## Left out

- `url.Parse` is reduced to the host and path it yields for the common forms. Percent-decoding of the path and host/port validation are not modelled.
- `strings.TrimSpace` removes ASCII white space only. Strings are handled one `char` per byte.
- A percentage is an exact `real`, not a rounded float64. Only overflow (a number of at least 2^1024 − 2^970) is modelled as `ParseFloat`'s failure.
- `filepath` is modelled with Unix separators. On Windows, `IsAbs` is approximated by a drive letter or two leading separators. `filepath.Abs` is a parameter.
- `Load` takes the working directory as its list of names from the root, and `Dir` drops the last name. `os.Stat` and `os.Open` are summarised as one map from configuration path to what opening and decoding gives.
- The file system is keyed by path strings. `Sync` resolves relative names against the working directory (`Registry.InDir`), but absolute spellings are not cleaned. `MkdirAll` does not create parents. A failing `RemoveAll` is modelled as removing nothing.
- Registry.Config.Sync: the listing `os.ReadDir` returns is a parameter tied to the file system by two preconditions. `ReadableDir` says a listing is read only when `vendored` is not a file and its path does not fail; `ListsChildren` says the listing then holds exactly the plain names under `vendored`. A `vendored` that is a link is taken as readable, whatever it points to. The listing's order is arbitrary, and the listing is not computed from the map.
- User.Location: the error of `user.Current()` (user.go:10) is discarded. When that lookup fails, `Current` is nil, and `Location` panics on darwin, linux and other systems unless `XDG_DATA_HOME` is set. The model always has a home directory (`Env.home`), so it does not model that panic.
- `Sync` links through the Unix `Link`. The Windows variant is modelled on its own (`Linking.WindowsLink`). What `git clone` writes to the cache is not modelled, and the file system is unchanged by `CloneMultiple`.
- The `LinkData` type (sudo.go) is a datatype of two paths. sudo.go is not part of this model. Its JSON/base64 encoding and decoding are parameters. A decode error is taken to leave the batch empty.
- Goroutines, channels and the bubbletea runtime become an interleaving of messages. The quit command ends the run at once. A display that never quits is `StillRunning`; `Sync` then stops after reconciling, as the Go code stays blocked in `p.Run()` and never reaches the link step.
- The progress bar library is left out: a bar is drawn by a parameter from its width, its colour and the fraction. A fresh bar's default width is 40. Animation frames (`FrameMsg`) leave no trace.
- Other events: `Init` has nothing to model; `time.Sleep` after the relaunch and the messages printed to stderr or stdout are left out.
- `New`, `Run`, `FromGitSubmodules` and `Save` from `config.go`, and the `cobra` commands, are not part of the core.
- Registry.Config.Load: the decoder's partial filling of a config that fails to decode is not modelled; the sources are left empty.

## Findings

| source | as written | input that shows it | evidently intended | confidence | as-written member | corrected member |
|---|---|---|---|---|---|---|
| internal/update/version.go:30-31 | the loop runs `i` from 1 to 3 over the three parts, so equal minor and patch parts read index 3 | the same version on both sides, e.g. `v1.2.3` against `v1.2.3` | compare major, minor and patch (indices 0 to 2); equal versions are not newer | high; not executed | Versions.EqualVersionsPanic | Versions.IntendedIsStrictOrder |
| internal/update/version.go:32 | parts are compared as strings, and the major part is skipped | `v0.10.0` against `v0.9.0` gives false | numeric comparison: 0.10.0 is newer | high; not executed | Versions.TenBeforeNine | Versions.IntendedTenAfterNine |
| internal/config/config.go:112-113 | after the first loop finds nothing, the second loop reads `match[1]` of the nil match | `remove nosuch` with one source configured | report "source not found" | high; not executed | Registry.RemoveUnknownNamePanics | Registry.RemoveIntendedMeaning |
| internal/sudo/sudo_windows.go:32 | the administrator loop calls the symlink function with the two paths swapped | a cloned cache directory and a free `vendored/<name>` path | create `vendored/<name>` pointing at the cache, as `link` in main.go does | high; not executed | Linking.AdminLinksBackwards | Linking.IntendedAdminMatchesUnix |
| internal/sudo/sudo_windows.go:26-28 | a pair with equal paths returns success for the whole batch | `[(p, p), (cache, vendored)]` | skip the pair and go on, as `link` in main.go does | medium; not executed | Linking.AdminStopsAtEqualPair | Linking.ElevatedLink |
