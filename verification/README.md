# Dafny models of Syncthing's stateful and search logic

This project models ten components of Syncthing and proves properties that hold over all inputs, all runs
or all reachable states. Each module follows one source file or one part of it. Code that works by changing
things step by step is modelled by methods (on classes, arrays and loops) that are proved equal to functions
on values; the theorems are about those functions and about runs of them.

| files | component | main results |
|---|---|---|
| `Paths` | path algebra of `lib/fs` | `Canonicalize` accepts exactly the paths that never lead above the folder and is idempotent; `IsParent` is "strict prefix of the components"; `rooted` stays below the root |
| `Globs`, `IgnorePatterns`, `RuleMeaning`, `IgnoreSkip`, `IgnoreHash`, `IgnoreMatcher` | ignore matcher (`lib/ignore`) | what every rule line matches; the exact law of when a skipped directory has something un-ignored below it; equal hash inputs mean equal behaviour, so the cache and the "unchanged" shortcut are transparent; when a successful load means the patterns on disk |
| `ScanIgnored`, `DeferredIgnore`, `ScanRequests` | database pass of a folder scan | deferred ignoring is safe for every folder state if and only if the listing is in tree pre-order; nothing else is lost, repeated or reordered; every request by the flags of the rows |
| `UnifySubs`, `Sorting` | `unifySubs` | it covers what was asked for and no more than needed; the exact condition under which its outputs nest |
| `FolderLoop`, `FolderService` | folder event loop | no wake-up of the puller is lost, and what is kept armed is enough to serve every one; the retry pause by the history of the pulls |
| `DialRegistry` | forced redials (`lib/connections`) | the exact maximum of forced redials in any span of time, reached by some run |
| `Slices`, `DeviceLists`, `FolderSharing`, `ConfigPrepare`, `ConfigWrapper` | configuration (`lib/config`) | normal forms are exactly the configurations that preparing leaves alone; reachable configurations are normal; removing a device changes exactly what it should |
| `EventLogger`, `EventRing` | events (`lib/events`) | per-subscription numbering agrees with a history kept without the logger's arrays; the ring agrees with the plain history, and polling misses nothing |
| `TokenStore` | session tokens (`lib/api`) | the map with expiry and eviction refines an LRU list |
| `BlockReorder` | block pull order (`lib/model`) | reordering permutes; exactly when the devices of a folder start on a partition of the file |
| `WalkFs`, `WalkTree`, `WalkOrder`, `WalkLexical` | walker (`lib/fs`) | it terminates on cyclic directories and restores its stack; entries come once and in pre-order for every callback, and exactly the reachable ones, with every problem reported, for one that never objects; exactly when the order is lexical |
| `LogRotation`, `CrashFilter` | `cmd/syncthing` | the exact condition under which the log files always are the end of everything written; the in-place filter equals the filter of a copy |

`Options` holds the one shared datatype. `dafny verify dfyconfig.toml` checks everything.

## Where the code does not do what is expected of it

Each of these is proved, and where a property fails so is the condition under which it holds.

- Skipping ignored directories: the rules `!/f/**` and `/f` make the matcher report `f` as ignored and
  skippable although nothing below it is ignored (`IgnoreSkip.SkipIsUnsoundWhenReopened`). What is below a
  skippable directory is ignored if and only if no un-ignoring pattern that matches all below the directory
  comes before every pattern that matches the directory or the path (`IgnoreSkip.SkippedIgnoresBelowIff`); rule
  lists in which no un-ignore line ends in `/` or `/**` are safe (`IgnoreSkip.LoopSkipIsSound`).
- A directory with a temporary name, such as `.syncthing.d` (`IgnoreSkip.TemporaryExample`), is skippable, but its
  contents are not ignored
  (`IgnoreSkip.TemporaryDirectoryIsSkipped`). For all such rule lists skipping a directory is right exactly if
  its name is not temporary or it is one of the internal directories or below one
  (`IgnoreSkip.SkipsRightlyIff`).
- A load that cannot read the ignore file drops the patterns, but the change detector keeps what it remembers: when
  the file is back with its old modification time, the next load succeeds without any patterns
  (`IgnoreMatcher.ReturnedFileIsNotRead`; exactly when: `IgnoreMatcher.SuccessMeansDiskIff`).
- Deferred ignoring needs listings in tree pre-order. Byte order, in which `a.b` comes between `a` and `a/c`,
  is not, and then a directory with something live in it can be marked ignored
  (`DeferredIgnore.ByteOrderIsNotPreOrder`).
- `unifySubs` compares each path only with the previous output, so with `a`, `a.b` and `a/c` the directory `a/c`
  is scanned twice (`UnifySubs.OutputsCanNest`; exactly when: `UnifySubs.NestFreeIffNoInterloper`).
- A bound of four forced redials for every started two minutes fails for spans between an instant and two
  minutes, where five can go through (`DialRegistry.FourPerIntervalIff`). The cleanup resets the attempts of a
  device only on a copy of its entry, so a device that is kept keeps them.
- With two entries for one untrusted device in a folder, one with a password and one without, their order
  decides whether the folder stays shared (`FolderSharing.OrderDecides`), and only then
  (`FolderSharing.OrderDecidesIff`).
- A folder passes all its devices, this one included, to the reorderer as the other devices
  (`lib/model/folder_sendrecv.go:140`), so each splits a file for one device more than there is. With two devices
  and three blocks nobody starts with the third (`BlockReorder.FolderLeavesAPart`); the devices start on the whole
  file exactly if it splits into no more parts than there are devices
  (`BlockReorder.FolderPartitionsTheFileIff`).
- `Since` with a negative ID returns unfilled slots of the ring until it has been filled once
  (`EventRing.SinceIsExact`).
- With tokens that never expire, a new session token may be evicted by its own creation when the store is full
  (`TokenStore.ForeverSurvivesIffRoom`).
- `--log-max-old-files 0` is documented (`cmd/syncthing/main.go:164`) to keep only the current file; the code
  keeps one old file (`LogRotation.ZeroKeepsOne`).
- Numbered log files at or above the limit, left by an earlier run that kept more, are never moved or removed,
  and then the files do not stay the end of everything written: they always do if and only if there is none
  (`LogRotation.AlwaysASuffixIff`).
- The comment on `Walk` (`lib/fs/walkfs.go:136-141`) promises lexical order; the walk follows the order in which
  `DirNames` lists the names (`lib/fs/basicfs.go:224-241` does not sort). A directory that lists `b` before `a` is
  walked in that order (`WalkLexical.UnsortedIsNotLexical`); with a callback that never objects the order is
  lexical exactly if every directory the walk enters lists its names so (`WalkLexical.WalkIsLexicalIff`).

## Model

| member | source | states |
|---|---|---|
| Paths.CanonicalizeYieldsCanonical | lib/fs/filesystem.go:313-343 | What is accepted comes back as "." or as names joined by separators, and accepting it again changes nothing |
| Paths.CanonicalIffFixpoint | lib/fs/filesystem.go:313-343 | The canonical paths are exactly those that come back unchanged |
| Paths.CanonicalizeRefusesIff | lib/fs/filesystem.go:316-334 | Refused are exactly paths with a double separator in front and relative paths some prefix of which leads above the folder root |
| Paths.DetoursDoNotMatter | lib/fs/filesystem.go:325 | A name and "..", a "." and a doubled separator may be left out of a path anywhere after its beginning without changing what comes back |
| Paths.RootIsTheFolder | lib/fs/filesystem.go:334-342 | A leading separator stands for the folder root, above which there is nothing |
| Paths.StackTracksDepth | lib/fs/filesystem.go:325-333 | Lexical cleaning as a stack: ".." is left at its bottom exactly when the path escapes, else it is as high as the path is deep |
| Paths.JoinOfSplit | lib/fs/util.go:232-234 | Joining the components of a path gives the path back |
| Paths.SplitOfJoin | lib/fs/util.go:232-234 | The components of joined names are the names |
| Paths.IsParentIffCompsPrefix | lib/fs/util.go:154-182 | On canonical relative paths, being a parent is being a strict prefix of the components, in both directions |
| Paths.AbsIsParent | lib/fs/util.go:154-182 | The same for clean absolute paths, including the root |
| Paths.RootedStaysBelowRoot | lib/fs/basicfs.go:123-137 | A path below a folder resolves exactly if it is accepted, and then to the components of the root followed by its own: the root itself for ".", else something strictly below it |
| Paths.JoinPathComps | lib/fs/basicfs.go:136 | Joining a canonical path below a clean absolute root appends its components |
| Paths.DirDropsLast | lib/model/folder.go:1465-1469 | The directory of a canonical path is the path without its last component |
| Globs.MatchesJoin | lib/ignore/ignore.go:448-489 | Two globs in a row match two matched strings in a row |
| Globs.MatchesCut | lib/ignore/ignore.go:448-489 | And a match of two globs in a row can always be cut in two |
| Globs.CompileBelow | lib/ignore/ignore.go:600-608 | Compiling a pattern with `/**` appended is compiling it and appending "everything below", even after a trailing backslash |
| Globs.BelowMatchesDescendants | lib/ignore/ignore.go:600-608 | A glob that matches a directory matches, so extended, everything below it |
| Globs.FlatMatchesDirectory | lib/ignore/ignore.go:103-108 | A pattern with neither a separator nor a double star inside that matches below a directory matches the directory |
| IgnorePatterns.ParseLine | lib/ignore/ignore.go:410-489 | A line is parsed to its patterns: prefixes in any order once each, rooted, `**/` and unrooted forms, or an error |
| IgnorePatterns.AddPatterns | lib/ignore/ignore.go:600-609 | A rule line stands for itself and, unless it ends in `/` or `/**`, for everything below |
| IgnorePatterns.ParseIgnoreFile | lib/ignore/ignore.go:499-616 | The loop over the lines yields the patterns of all rules, each line once, or fails with the first bad one |
| IgnorePatterns.StripOfAppended | lib/ignore/ignore.go:419-438 | The prefixes taken off a line do not depend on what is appended to it after a separator |
| RuleMeaning.PlainInFront | lib/ignore/ignore.go:448-489 | Text without special characters matches itself, in front of any other |
| RuleMeaning.QuestionMark | lib/ignore/ignore.go:448-489 | A question mark matches one character that is no separator |
| RuleMeaning.OneStar | lib/ignore/ignore.go:448-489 | A single star matches any text without a separator |
| RuleMeaning.TwoStars | lib/ignore/ignore.go:448-489 | Two stars match any text |
| RuleMeaning.Backslash | lib/ignore/ignore.go:448-489 | A backslash takes the next character as it is |
| RuleMeaning.ClassesAreRefused | lib/ignore/ignore.go:448-489 | Character classes and alternatives do not parse here |
| RuleMeaning.ExpandMeans | lib/ignore/ignore.go:450-489 | The patterns of a line match exactly the paths its text means: from the root after a leading separator, else at any depth |
| RuleMeaning.RuleMeans | lib/ignore/ignore.go:410-489 | The patterns of a rule line match exactly what its text means and everything below, only what is below for a line ending in `/` or `/**`; text and path in lower case if and only if the line folds case |
| RuleMeaning.PrefixesMean | lib/ignore/ignore.go:419-438 | Prefixes in any order, each once: which flags they set, and what text is left |
| RuleMeaning.FoldingIgnoresCase | lib/ignore/ignore.go:285-295 | A folding pattern does not tell paths apart that differ only in case, any other sees the path as it is |
| RuleMeaning.FoldingLinesAgree | lib/ignore/ignore.go:444-446 | Folding lines that differ only in case parse to the same patterns |
| RuleMeaning.RootedNameMatches | lib/ignore/ignore.go:444-455 | A rooted name is matched by exactly the paths that are the same but for case if the line folds case, and by itself only otherwise |
| RuleMeaning.AllowsSkippingIff | lib/ignore/ignore.go:91-109 | An un-ignoring pattern allows skipping if and only if it is a rooted single name, of which at most the end is a double star, with or without `/**` |
| RuleMeaning.FileMeansItsRules | lib/ignore/ignore.go:499-616 | A file parses if and only if every line can be read, and then to the patterns of its rules in order, comments and repetitions left out |
| RuleMeaning.LastNameTemporary | lib/fs/tempname.go:36-43 | A path is temporary if and only if its last name begins with one of two prefixes |
| RuleMeaning.FirstNameInternal | lib/fs/filesystem.go:286-303 | A path is internal if and only if its first name is one of three |
| RuleMeaning.MatchShows | lib/ignore/ignore.go:235-299 | Temporary and internal names are ignored and skipped whatever the rules, and any other path is ignored if and only if the first pattern that matches it ignores |
| IgnoreSkip.LoopFrom | lib/ignore/ignore.go:270-298 | The pattern loop is first match wins, and says "skip" exactly if every pattern up to the matching one allows skipping |
| IgnoreSkip.RuleCovers | lib/ignore/ignore.go:600-608 | Whatever pattern of a rule line matches a directory, it or a later one of the line matches everything below |
| IgnoreSkip.AllowedMatchesBelow | lib/ignore/ignore.go:91-109 | A rooted un-ignoring pattern that allows skipping and matches below a directory but not the directory itself ends in "everything below", and its text without that matches the directory |
| IgnoreSkip.SkippedIgnoresBelowIff | lib/ignore/ignore.go:235-299 | Below a directory the loop says to skip, a path is ignored if and only if no reopening pattern is the first to match directory or path |
| IgnoreSkip.ReopeningLine | lib/ignore/ignore.go:91-109 | A pattern that reopens a directory, when it and all before it allow skipping and none of them matches the directory, comes from an un-ignore line that ends in `/` or `/**` |
| IgnoreSkip.LoopSkipIsSound | lib/ignore/ignore.go:270-298 | Without such lines everything below a directory the loop says to skip is ignored |
| IgnoreSkip.SkipIsSound | lib/ignore/ignore.go:235-299 | The same for Match as a whole, for directories that are not temporary or are internal |
| IgnoreSkip.SkipIsUnsoundWhenReopened | lib/ignore/ignore.go:91-109 | With the rules `!/f/**` and `/f` the directory is skippable and nothing below it is ignored, also where case is folded by default |
| IgnoreSkip.TemporaryDirectoryIsSkipped | lib/ignore/ignore.go:237-238 | Every temporary directory that is not internal is skippable without any rule while what is in it is not ignored |
| IgnoreSkip.SkipsRightlyIff | lib/ignore/ignore.go:235-299 | Over all rule lists without an un-ignore line that ends in `/` or `/**`, skipping a directory is right for everything below it if and only if it is not temporary or is internal |
| IgnoreHash.RenderDecodes | lib/ignore/ignore.go:77-89 | From the rendered form of a parsed pattern its text and its observable flags can be read back |
| IgnoreHash.HashInputDecodes | lib/ignore/ignore.go:351-358 | Equal hash inputs of parsed lines mean the same patterns |
| IgnoreHash.SameHashInputSameMatches | lib/ignore/ignore.go:207-220 | Two ignore files with the same hash input have the same patterns, up to a flag that cannot be observed |
| IgnoreHash.SamePatternsSameLoop | lib/ignore/ignore.go:270-298 | The same patterns give the same result for every path |
| IgnoreMatcher.Cache.Get | lib/ignore/cache.go:44-51 | Looks an entry up and renews its access time, nothing else |
| IgnoreMatcher.Cache.Set | lib/ignore/cache.go:53-55 | Stores one entry |
| IgnoreMatcher.Cache.Clean | lib/ignore/cache.go:36-42 | Keeps exactly the entries looked at recently enough |
| IgnoreMatcher.Matcher.Parse | lib/ignore/ignore.go:207-227 | After parsing, the patterns in force behave like those just parsed, none if parsing failed, and the cache holds nothing stale |
| IgnoreMatcher.Matcher.Load | lib/ignore/ignore.go:174-198 | Loading keeps everything if the change detector sees no change; else it drops the patterns if the file cannot be read, or parses it, and remembers it if that succeeds |
| IgnoreMatcher.ModtimeChecker.Changed | lib/ignore/ignore.go:675-687 | Whether a remembered file is missing or has another modification time |
| IgnoreMatcher.SuccessMeansDiskIff | lib/ignore/ignore.go:174-198 | After any sequence of loads, a successful one means the patterns on disk, unless the file counts as unchanged and an earlier load that could not read a file dropped its patterns; then there are none |
| IgnoreMatcher.ReturnedFileIsNotRead | lib/ignore/ignore.go:174-185 | Any file that goes missing for one load and comes back as it was is loaded successfully without patterns |
| IgnoreMatcher.Matcher.Search | lib/ignore/ignore.go:270-298 | The pattern loop |
| IgnoreMatcher.Matcher.CachedSearch | lib/ignore/ignore.go:257-298 | With or without a cache hit the result is that of the pattern loop |
| IgnoreMatcher.Matcher.Match | lib/ignore/ignore.go:235-299 | After any sequence of Load, Parse, Match and cleaning, Match shows what an uncached first-match search of the last parsed patterns shows |
| IgnoreMatcher.Matcher.CleanCache | lib/ignore/ignore.go:334-349 | Cleaning the cache changes no result |
| ScanIgnored.MarkHeldBack | lib/model/folder.go:808-820 | The loop that marks what was held back, with every way the batch can end it |
| ScanIgnored.Examine | lib/model/folder.go:825-916 | What is asked of the batch for one item, and how the held directories change |
| ScanIgnored.ScanRow | lib/model/folder.go:792-917 | One row: error, cancellation, flush, leaving the highest ignored directory, the item |
| ScanIgnored.ScanListing | lib/model/folder.go:792-940 | One listing to its end, with what was held back marked |
| ScanIgnored.ScanDeletedAndIgnored | lib/model/folder.go:785-944 | The whole pass: its requests, its count and its error are those of the specification |
| DeferredIgnore.ScanRowsIsSafe | lib/model/folder.go:792-917 | In every state of a pass over a pre-ordered listing each held directory is the highest ignored one or below it, and nothing marked late has something live below it |
| DeferredIgnore.ListingIsSafe | lib/model/folder.go:785-940 | For one pre-ordered listing, whatever the batch and the context do |
| DeferredIgnore.PassIsSafe | lib/model/folder.go:785-944 | For the whole pass over pre-ordered listings |
| DeferredIgnore.BrokenOrderIsUnsafe | lib/model/folder.go:807-838 | For any listing out of pre-order some folder state makes it mark a directory with something live below it |
| DeferredIgnore.SafeIffPreOrder | lib/model/folder.go:785-944 | So a listing is safe for every folder state if and only if it is in tree pre-order |
| DeferredIgnore.ByteOrderIsNotPreOrder | lib/model/folder.go:792 | Byte order is not: `a`, `a.b`, `a/c` |
| DeferredIgnore.ImmediateActionsExact | lib/model/folder.go:825-916 | Apart from what is held back, the requests are those of each item in order: none lost, repeated or moved |
| DeferredIgnore.NewDirectoryMarkedUnlessOutvoted | lib/model/folder.go:828-866 | In one listing every directory that became ignored is marked, unless something live comes later in it or in a newly ignored one around it, be that of this listing or left by an earlier one |
| DeferredIgnore.PassMarksNewDirectories | lib/model/folder.go:785-944 | The same for every listing of a pass |
| ScanRequests.RequestedIffAsked | lib/model/folder.go:825-916 | In terms of the flags of a row, the ignores and the disk: each deletion, mark of a file, cleared flag and dropped entry is requested if and only if a row of the listing asks for it |
| ScanRequests.DeletedIff | lib/model/folder.go:854-888 | A deletion is requested if and only if a row is not ignored, gone from disk, and marked ignored or neither deleted nor unsupported |
| ScanRequests.MarkedLateOnly | lib/model/folder.go:828-842 | Marked late are only directories that became ignored, in a pre-ordered listing only such with nothing below that is still there |
| ScanRequests.ChangesAreCounted | lib/model/folder.go:813-816 | The count is that of the updates the batch accepted and of the entries dropped |
| ScanRequests.StopIsExplained | lib/model/folder.go:792-806 | A pass stops only for trouble on its way, and trouble does stop it |
| ScanRequests.TroubleCutsShort | lib/model/folder.go:792-944 | Trouble with batch or context cuts a pass short and does nothing else to its requests |
| ScanRequests.CancelledWhere | lib/model/folder.go:798-803 | Cancelled before a row a pass ends without an error, cancelled after the last row or at a row that cannot be read with one |
| UnifySubs.UnifySubdirs | lib/model/folder.go:1445-1475 | The in-place loop returns what the specification says, nil where everything is asked for |
| UnifySubs.UnifySorted | lib/model/folder.go:1454-1474 | The loop that removes and replaces entries of the list |
| UnifySubs.ClimbFacts | lib/model/folder.go:1465-1469 | Climbing ends at or above a path, with a known parent or the root, and with nothing known in between |
| UnifySubs.WholeFolderIff | lib/model/folder.go:1445-1453 | The whole folder is scanned if and only if nothing is asked for or the first request is for the folder itself |
| UnifySubs.UnifiedCovers | lib/model/folder.go:1445-1475 | Every acceptable request is an output or below one |
| UnifySubs.UnifiedIsNeeded | lib/model/folder.go:1445-1475 | Every output is a request or above one, and its parent is the root or known |
| UnifySubs.NotAboveEarlier | lib/model/folder.go:1461-1469 | No output is strictly above an earlier one |
| UnifySubs.ConsecutiveApart | lib/model/folder.go:1461-1469 | Consecutive outputs are neither equal nor nested |
| UnifySubs.NestFreeIffNoInterloper | lib/model/folder.go:1449-1474 | Outputs nest if and only if a request sorts between a topmost request with a known parent and something below it |
| UnifySubs.OutputsCanNest | lib/model/folder.go:1449-1474 | They do for `a`, `a.b`, `a/c` |
| Sorting.SortWithoutTies | lib/model/folder.go:1449 | Elements no two of which compare equal have one sorted order, whatever the sorting method |
| FolderLoop.NoPullIsLost | lib/model/folder.go:194-273 | In every reachable state of a running folder something is armed to pull again for an unseen index change, even during a pull, and for a failed pull that is not being tried again |
| FolderLoop.PauseCountsFailedRetries | lib/model/folder.go:220-226 | The retry pause is the base pause doubled for every retry that failed since the last success, and at most six times |
| FolderLoop.SettledWakeUpIsServed | lib/model/folder.go:194-273 | From every reachable state between pulls without an error, once each way into a pull had its turn, in whatever order and number, and its pull found nothing needed or succeeded, all that was waiting is served |
| FolderLoop.EveryWakeUpIsServed | lib/model/folder.go:194-273 | And from every reachable state of a running folder, once the puller returned and a scan met no error |
| FolderLoop.ClearingErrorQueuesPull | lib/model/folder.go:1224-1250 | Whatever clears a folder error leaves a token queued |
| FolderLoop.SetErrorShows | lib/model/folder.go:1224-1250 | What recording and clearing an error does to the error shown and to the token |
| FolderLoop.PullerCalledIff | lib/model/folder.go:194-231 | When a select case leads to the puller; then the folder error is cleared, with a token queued if there was one |
| FolderLoop.EarlyReturnShows | lib/model/folder.go:392-457 | What a pull that returns before the puller shows |
| FolderLoop.PullerReturnShows | lib/model/folder.go:458-472 | Success resets the pause only, anything else arms the retry and shows the error |
| FolderLoop.ScanShows | lib/model/folder.go:474-576 | What a scan found wakes the puller, its error is shown, and the first scan is over either way |
| FolderLoop.OthersShow | lib/model/folder.go:194-272 | Starting to serve and other requests: the error they show, and a fatal one that stops the folder |
| FolderLoop.TurnOf | lib/model/folder.go:202-231 | A successful pull satisfies all that waited, and clears the error if it got as far as the puller |
| FolderLoop.TurnsClearError | lib/model/folder.go:202-231 | Once an armed cause had its turn with such a pull, the folder has no error |
| FolderLoop.StepKeepsAwake | lib/model/folder.go:194-273 | The invariant behind it, over every event of the loop |
| FolderService.Folder.SchedulePull | lib/model/folder.go:311-320 | Queues at most one token |
| FolderService.Folder.SetError | lib/model/folder.go:1224-1250 | Records or clears an error; clearing queues a token; a cancelled context or an equal text changes nothing |
| FolderService.Folder.Pull | lib/model/folder.go:392-472 | Up to the puller: stops the retry timer, and for each way to return early what is recorded |
| FolderService.Folder.Finish | lib/model/folder.go:220-272 | The end of a round: back-off and report |
| FolderService.Folder.SelectPull | lib/model/folder.go:202-231 | The four ways into a pull, and the delayed one |
| FolderService.Folder.PullerReturns | lib/model/folder.go:460-472 | Success resets the pause, anything else arms the retry |
| FolderService.Folder.Scan | lib/model/folder.go:474-576 | What a scan does to the folder error and the wake-ups |
| DialRegistry.NextDialRegistry.SetNext | lib/connections/service.go:1228-1233 | Sets one dial time, and makes an entry where there is none |
| DialRegistry.NextDialRegistry.RedialDevice | lib/connections/service.go:1199-1226 | A forced redial: new entry, one more attempt, refusal while cooling down, or a fresh start |
| DialRegistry.NextDialRegistry.SleepDurationAndCleanup | lib/connections/service.go:1235-1262 | Drops overdue dials and forgotten devices; the sleep is exactly the time to the earliest dial left, at most a minute |
| DialRegistry.NextDialRegistry.CleanDials | lib/connections/service.go:1238-1247 | The inner loop over one device |
| DialRegistry.RedialClears | lib/connections/service.go:1199-1226 | A redial that goes through leaves the device without dial times and the others alone; it is refused exactly for three attempts within five minutes of the first |
| DialRegistry.CleanupKeepsUpcoming | lib/connections/service.go:1238-1247 | After a cleanup an address has a dial time if and only if it had one that is not overdue, and it is the same |
| DialRegistry.CleanupForgetsIff | lib/connections/service.go:1248-1259 | A device is forgotten if and only if all its dials are overdue and its forced redials have cooled down; one that is kept keeps them |
| DialRegistry.SleepIs | lib/connections/service.go:1235-1262 | The sleep is between zero and a minute and ends at the earliest upcoming dial |
| DialRegistry.GetShowsHistory | lib/connections/service.go:1178-1262 | After any run the dial time of an address is the one set last, unless a forced redial or a cleanup took it since |
| DialRegistry.AttemptsCount | lib/connections/service.go:1199-1221 | The attempts of an epoch are the redials that went through since it began, which was with the first of them |
| DialRegistry.ThirdClearBlocks | lib/connections/service.go:1188-1226 | After a third redial in an epoch that began at s none goes through before s + 5 min, whatever happens in between |
| DialRegistry.RedialRate | lib/connections/service.go:1188-1262 | In any span of time, after any run, at most three redials a device for each whole two minutes, plus four or five, go through |
| DialRegistry.RateIsReached | lib/connections/service.go:1188-1262 | For every span some run reaches that number |
| DialRegistry.FourPerIntervalIff | lib/connections/service.go:1188-1262 | A bound of four per started two minutes holds if and only if the span is zero or at least two minutes |
| DeviceLists.EnsureExistingDevices | lib/config/config.go:509-522 | The swap-remove loop leaves what the specification leaves |
| DeviceLists.EnsureNoDuplicateFolderDevices | lib/config/config.go:524-540 | The same for duplicates |
| DeviceLists.EnsureNoDuplicateOrEmptyIDDevices | lib/config/config.go:542-558 | The same for duplicates and empty IDs |
| DeviceLists.EnsureNoUntrustedTrustingSharing | lib/config/config.go:560-574 | The loop with removal in the middle filters the list in order |
| DeviceLists.RemoveAndZero | lib/sliceutil/sliceutil.go:12-16 | Shifts the rest down by one and zeroes the last slot |
| DeviceLists.ExistingKeeps | lib/config/config.go:509-522 | Left are exactly the entries with an existing ID, each as often as before |
| DeviceLists.DistinctKeeps | lib/config/config.go:524-558 | Left is one entry of the list for every ID not excluded |
| DeviceLists.FirstStrangerIsReplaced | lib/config/config.go:509-522 | The last entry takes the place of the first one that has to go |
| DeviceLists.FirstRepeatIsReplaced | lib/config/config.go:524-558 | The same for repetitions |
| FolderSharing.PreparedDevices | lib/config/folderconfiguration.go:283-296 | Prepared lists are strictly ascending; listed are exactly the candidates that may be shared with, and these are the existing devices of the list and this device |
| FolderSharing.PreparedIDs | lib/config/folderconfiguration.go:283-296 | Where passwords do not matter the IDs alone decide |
| FolderSharing.UntrustedIsUnshared | lib/config/config.go:560-574 | An untrusted device without any password is not listed unless the folder is encrypted here |
| FolderSharing.EntriesAreTaken | lib/config/folderconfiguration.go:283-296 | Entries are those of the list, and if this device is missing one without introducer and password |
| FolderSharing.FirstEntryCounts | lib/config/config.go:524-574 | An existing device whose entry is first in the list stays listed exactly if that entry allows it |
| FolderSharing.OrderDecidesIff | lib/config/config.go:524-574 | All orders of the entries agree on an untrusted device if and only if all its entries have a password or none has |
| FolderSharing.OrderDecides | lib/config/config.go:524-574 | The shortest list whose order decides |
| FolderSharing.NormalIffPrepared | lib/config/folderconfiguration.go:283-296 | The lists in normal form are exactly those that preparing leaves alone |
| FolderSharing.PreparingTwice | lib/config/folderconfiguration.go:283-296 | Preparing again changes nothing |
| FolderSharing.SortedByID | lib/config/folderconfiguration.go:294-296 | However the list is sorted by ID, the result is the same |
| FolderSharing.FolderConfiguration.Prepare | lib/config/folderconfiguration.go:283-296 | The loops over arrays, in their order, do that to the list of the folder |
| FolderSharing.EnsureDevicePresent | lib/config/config.go:492-507 | Appends this device if it is known and missing |
| ConfigPrepare.DeviceListPrepared | lib/config/config.go:304-321 | The device list gets strictly ascending, non-empty IDs, one entry of the list for each |
| ConfigPrepare.FoldersPrepared | lib/config/config.go:323-358 | Folders are refused exactly for an empty ID, an empty path or a repeated ID, and otherwise each is prepared and all are sorted |
| ConfigPrepare.FirstErrorWins | lib/config/config.go:330-345 | The error is that of the first offending folder |
| ConfigPrepare.FirstErrorIs | lib/config/config.go:330-345 | Which error that is |
| ConfigPrepare.OwnDeviceIsAdded | lib/config/config.go:273-289 | The devices are those there were, and this one with its name and not untrusted if it was missing |
| ConfigPrepare.FoldersKeepTheRest | lib/config/config.go:323-358 | Folders keep all but their device lists, and none is lost or made up |
| ConfigPrepare.PreparedIsNormalForm | lib/config/config.go:247-358 | Preparing fails exactly for unacceptable folders and otherwise yields a normal form with exactly the devices there were and this one |
| ConfigPrepare.NormalFormIffPrepared | lib/config/config.go:247-358 | The normal forms are exactly the configurations that preparing leaves alone |
| ConfigPrepare.FoldersNameExisting | lib/config/config.go:323-358 | In a normal form folders name only configured devices |
| ConfigPrepare.PrepareDeviceListOf | lib/config/config.go:304-321 | The imperative form of it, with the lookup map |
| ConfigPrepare.PrepareFoldersIn | lib/config/config.go:323-358 | The loop over the folders |
| ConfigPrepare.PrepareConfiguration | lib/config/config.go:247-302 | The whole preparation |
| ConfigWrapper.CommittedWholeOrNotAtAll | lib/config/wrapper.go:239-328 | A change is refused exactly for unacceptable folders or a rejecting subscriber and then leaves no trace; else the configuration is what was prepared from it |
| ConfigWrapper.RemovedDeviceIsGone | lib/config/wrapper.go:367-373 | A removed device is gone from the list and from every folder, unless it is this device, which stays; no other device is affected |
| ConfigWrapper.RemovalIsExact | lib/config/wrapper.go:367-373 | Removing another device changes nothing but its entries: no order, no other entry, no setting |
| ConfigWrapper.DeviceRemovalTouchesNothingElse | lib/config/wrapper.go:367-373 | The same on the members of the lists |
| ConfigWrapper.RemovedFolderIsGone | lib/config/wrapper.go:399-406 | Once the removal of a folder is committed no folder has its ID, every other is there as it was and in the same order, and devices and settings are untouched |
| ConfigWrapper.FolderRemovalRefusedIff | lib/config/wrapper.go:304-328 | It is refused if and only if there is such a folder and a verifying subscriber objects |
| ConfigWrapper.VerifiersDecide | lib/config/wrapper.go:304-328 | A change is rejected if and only if a verifying subscriber does not accept going from the present configuration to the prepared one |
| ConfigWrapper.CustomChangeIsApplied | lib/config/wrapper.go:239-328 | What a caller makes of its copy is what is prepared and committed |
| ConfigWrapper.ReachableIsNormal | lib/config/wrapper.go:225-328 | Every reachable configuration is in normal form; the queue is bounded; accepted changes are served once each, in order, and nothing else changes the configuration |
| ConfigWrapper.Wrapper.ModifyQueued | lib/config/wrapper.go:225-237 | Queues a change, or refuses it when a thousand are waiting |
| ConfigWrapper.Wrapper.Replace | lib/config/wrapper.go:304-328 | Prepare, ask the verifying subscribers, commit |
| ConfigWrapper.Wrapper.ServeNext | lib/config/wrapper.go:239-293 | One round of the queue; an unchanged copy is not committed |
| EventLogger.Logger.Subscribe | lib/events/events.go:370-402 | A new subscription starts at 1 |
| EventLogger.Logger.Unsubscribe | lib/events/events.go:404-422 | The last pair takes the place of the removed one; the arrays stay aligned |
| EventLogger.Logger.SendEvent | lib/events/events.go:337-368 | Every matching subscription gets the next of its numbers, whether it takes the event in time or not |
| EventLogger.SwapOutHolds | lib/events/events.go:406-419 | Removing by swapping in both arrays is removing from the map they hold |
| EventLogger.NumberingUnderChurn | lib/events/events.go:337-422 | Over any run: the next ID counts what was delivered and dropped; delivered are exactly the offered and taken events, numbered by their place; numbers strictly increase and a gap is a dropped event |
| EventRing.BufferedSubscription.Deliver | lib/events/events.go:499-508 | One event into the ring, which then holds the last events in order |
| EventRing.BufferedSubscription.Collect | lib/events/events.go:527-538 | The two loops append the newer slots, oldest first |
| EventRing.BufferedSubscription.Since | lib/events/events.go:510-539 | Waits until something newer was delivered, or times out and appends nothing, also if something newer came just then |
| EventRing.SlotsShift | lib/events/events.go:499-508 | Overwriting a slot drops the oldest event and appends the new one |
| EventRing.SinceIsExact | lib/events/events.go:510-539 | Appended are those of the last n events that are newer, if and only if the ID is not negative or the ring has been filled |
| EventRing.SinceAgreesWithHistory | lib/events/events.go:510-539 | With a proper ID exactly those, strictly increasing, and at least one |
| EventRing.PollingSeesAll | lib/events/events.go:510-539 | A caller who passes on the last ID it knows misses nothing and sees nothing twice while no more events come than the ring holds |
| EventRing.ChannelIsNumbered | lib/events/events.go:499-508 | What the logger delivers is numbered as the ring needs it |
| TokenStore.TokenManager.Check | lib/api/tokenmanager.go:61-79 | Says whether a token is live and gives it further life |
| TokenStore.TokenManager.New | lib/api/tokenmanager.go:82-92 | Adds a token and saves |
| TokenStore.TokenManager.Delete | lib/api/tokenmanager.go:102-108 | Removes a token and saves |
| TokenStore.TokenManager.SaveLocked | lib/api/tokenmanager.go:110-137 | Drops the expired and, of too many, the oldest, with any choice among equals |
| TokenStore.TokenManager.Evict | lib/api/tokenmanager.go:119-137 | Leaves exactly the limit, none fresher than those left is evicted |
| TokenStore.StoreIsLru | lib/api/tokenmanager.go:61-137 | With a positive lifetime and limit and an advancing clock the store is an LRU list of that capacity after every operation of every run |
| TokenStore.FreshestRefines | lib/api/tokenmanager.go:119-137 | The freshest tokens of the map are the back of the list |
| TokenStore.NewSurvives | lib/api/tokenmanager.go:82-92 | A token survives its own creation, unless saving takes longer than its lifetime |
| TokenStore.ForeverSurvivesIffRoom | lib/api/tokenmanager.go:94-137 | With tokens that never expire it is sure to survive if and only if there was room |
| BlockReorder.Chunk | lib/model/blockpullreorderer.go:111-126 | The chunking loop with ceiling division |
| BlockReorder.ChunksAre | lib/model/blockpullreorderer.go:111-126 | Chunks are nonempty, of one size but for the last, and together the list |
| BlockReorder.ChunkCount | lib/model/blockpullreorderer.go:115-125 | There are at most as many as asked for |
| BlockReorder.SmallerSizeMakesMore | lib/model/blockpullreorderer.go:115-125 | The chunks are as small as that allows |
| BlockReorder.StandardReorderer.constructor | lib/model/blockpullreorderer.go:53-74 | Finds the rank of a device among all, sorted |
| BlockReorder.StandardReorderer.Reorder | lib/model/blockpullreorderer.go:76-109 | A permutation: the own chunk first, then the others whole, in the order the shuffle gives them |
| BlockReorder.ReorderPermutes | lib/model/blockpullreorderer.go:87-108 | The own chunk and the others in whatever order are the whole |
| BlockReorder.RankIsPosition | lib/model/blockpullreorderer.go:53-66 | A device finds its place among all devices, whatever order it lists the others in, with or without itself |
| BlockReorder.OthersPartitionTheFile | lib/model/blockpullreorderer.go:53-126 | Devices that list each other without themselves start, in order of their IDs, on exactly the file |
| BlockReorder.FolderPartitionsTheFileIff | lib/model/folder_sendrecv.go:140 | Devices that pass all devices of the folder start on all but the part after the last device: on the whole file if and only if it splits into no more parts than there are devices |
| BlockReorder.FolderLeavesAPart | lib/model/folder_sendrecv.go:140 | With two devices and three blocks the third is nobody's first |
| WalkFs.Walker.Walk | lib/fs/walkfs.go:84-134 | Terminates, calls back as specified, and leaves the ancestors as it found them |
| WalkFs.Walker.WalkRoot | lib/fs/walkfs.go:142-153 | The walk from a root, which may not be there |
| WalkFs.Walker.WalkDir | lib/fs/walkfs.go:103-115 | A directory is pushed while it is walked and popped again on every way out |
| WalkFs.Walker.WalkNames | lib/fs/walkfs.go:117-133 | The loop over the names, with its handling of errors and SkipDir |
| WalkFs.Walker.Contains | lib/fs/walkfs.go:38-46 | Compares identities |
| WalkFs.PushShrinks | lib/fs/walkfs.go:103-106 | The measure: every pushed directory is one fewer that can be |
| WalkTree.VisitLeavesTree | lib/fs/walkfs.go:84-134 | Every walk is accounted for by a tree of entries that agrees with the file system and the callback |
| WalkOrder.WalkIsOrderly | lib/fs/walkfs.go:48-134 | For every callback: entries come once each and in pre-order; an error ends the walk; after SkipDir nothing more comes from that directory |
| WalkOrder.WalkVisitsReachable | lib/fs/walkfs.go:84-134 | Visited are only entries reachable without passing a directory twice, and with a callback that never objects all of them |
| WalkOrder.WalkReportsTrouble | lib/fs/walkfs.go:103-123 | Every problem a callback hears of is there; one that never objects hears of every reachable directory that is its own ancestor or cannot be read, and of every listed name that cannot be looked at |
| WalkOrder.WalkVisitsUnskipped | lib/fs/walkfs.go:84-134 | Whatever the callback returns: unless an error ended the walk, every reachable entry was visited or is in a directory the callback skipped, itself or by a file in it |
| WalkOrder.WalkTellsTheTruth | lib/fs/walkfs.go:84-134 | For each place the callback is told what is there |
| WalkOrder.RootTrouble | lib/fs/walkfs.go:84-90 | A root that cannot be looked at is reported, a path that is not accepted ends the walk |
| WalkOrder.ChainIffReachable | lib/fs/walkfs.go:103-110 | The ancestor stack does exactly that |
| WalkLexical.WalkIsLexicalIff | lib/fs/walkfs.go:117-141 | The entries of each directory come in lexical order if every directory the walk can enter lists them so, and with a callback that never objects only then |
| WalkLexical.UnsortedIsNotLexical | lib/fs/walkfs.go:136-141 | A directory that lists `b` before `a` is not walked in lexical order |
| LogRotation.NumberedFileInjective | cmd/syncthing/monitor.go:396-401 | Numbered names differ from each other and from the base name |
| LogRotation.DecimalReads | cmd/syncthing/monitor.go:396-401 | Numbers are written in decimal without zeros in front |
| LogRotation.NumberBeforeExtension | cmd/syncthing/monitor.go:396-401 | The number stands between the name and its extension |
| LogRotation.NumberAtTheEnd | cmd/syncthing/monitor.go:396-401 | Without an extension it stands at the end |
| LogRotation.RotatedFile.constructor | cmd/syncthing/monitor.go:333-355 | Starts from whatever numbered files there are and the size of the current one |
| LogRotation.RotatedFile.Write | cmd/syncthing/monitor.go:357-374 | Appends, or rotates first when the limit would be passed |
| LogRotation.RotatedFile.Rotate | cmd/syncthing/monitor.go:376-394 | Every numbered file up to the next to last number the limit allows moves up by one, the last is overwritten only when one moves into its place, the current file becomes the newest, and nothing else is touched |
| LogRotation.SegmentsAreTheHistory | cmd/syncthing/monitor.go:357-374 | The segments are everything there was and everything written since, in order |
| LogRotation.FilesAreLastSegments | cmd/syncthing/monitor.go:357-394 | The numbered files below the limit are the last segments of the history, whatever numbers were in use at the start |
| LogRotation.FilesAreASuffix | cmd/syncthing/monitor.go:357-394 | From any start without a numbered file at or above the limit: there is none later, and the files from the highest number to the base are the end of everything there was and was written |
| LogRotation.NothingDroppedWhileRoom | cmd/syncthing/monitor.go:376-394 | If the numbers had no gap they have none, there are as many files as segments up to the limit, and nothing is dropped until then |
| LogRotation.AlwaysASuffixIff | cmd/syncthing/monitor.go:376-394 | For given file numbers at the start, the files are the end of everything for all contents and writes if and only if no number is at or above the limit |
| LogRotation.FilesFit | cmd/syncthing/monitor.go:357-374 | Each is within the limit or a single write, or was there at the start |
| LogRotation.NoRotationWhileItFits | cmd/syncthing/monitor.go:357-374 | While all that is written fits nothing is rotated |
| LogRotation.ZeroKeepsOne | cmd/syncthing/monitor.go:376-394 | With no old files asked for, one is there exactly if it was at the start or there was a rotation |
| CrashFilter.FilterLogLines | cmd/syncthing/crash_reporting.go:125-155 | The in-place rewrite returns the filter of the original contents |
| CrashFilter.FilterLine | cmd/syncthing/crash_reporting.go:128-153 | One line: nothing behind it is touched |
| CrashFilter.AppendLine | cmd/syncthing/crash_reporting.go:137-151 | Newline, stripped device ID and text, moved down within the buffer |
| CrashFilter.SplitLines | cmd/syncthing/crash_reporting.go:128 | The lines as slices of the buffer |
| CrashFilter.FilterKeepsFirstAndTrace | cmd/syncthing/crash_reporting.go:122-155 | The result is the first line before the panic trace, if there is one, and the whole trace |
| CrashFilter.FilterMeans | cmd/syncthing/crash_reporting.go:122-155 | The same by the lines that begin with `Panic ` and those that are empty |
| CrashFilter.LinesAre | cmd/syncthing/crash_reporting.go:128 | The lines have no newline and joined by newlines are the text |
| CrashFilter.StripsDeviceID | cmd/syncthing/crash_reporting.go:147-150 | What is taken off a line is a device ID in brackets and one character, when there is more after it |

## Left out

- Ignore patterns: character classes, braces, `#include` and `#escape`, Unicode normalisation and the splitting of a file into lines; lines are taken as read, and lower-casing works on single characters.
- IgnorePatterns.ParseIgnoreFile: `#include` and `#escape` lines fail the parse here, as there is no file to include and no escape line is well formed in the model.
- IgnoreMatcher.Matcher.Load: a file does not change while it is loaded, and only the file itself is remembered, as there are no includes.
- The hash of the ignore patterns is any function without collisions on what is hashed.
- File information (`FileInfo`, version vectors) and the database: a row carries the flags the scan looks at, a listing is a list of rows.
- The puller and the file scanner: they succeed or fail.
- Timers, channels and goroutines: an armed timer may fire at any time, a select takes any ready case, and one event is handled at a time. A subscriber that is ready may still time out.
- The bounded channel of an event subscription: what it takes is given for every event.
- FolderLoop: watcher, version cleanup, forced rescans and scan timers appear only as scans and other requests.
- FolderLoop.NoPullIsLost: error texts are numbers, as they are only compared.
- Folder and device settings other than the device lists, their clamps and migrations, the defaults for new folders, ignored devices, and saving to disk: one-branch members.
- ConfigWrapper.Wrapper.ServeNext: the wait for subscribers after a commit is not modelled.
- Aliasing of slices in `append(otherDevices, id)` and of configuration copies: lists are values there.
- DialRegistry: dialing itself, and the overflow of durations.
- TokenStore.TokenManager.SaveLocked: the comparison of expiry times is that of a 64-bit platform; on 32 bits the difference is truncated. Marshalling and the delayed save are left out.
- LogRotation.RotatedFile.Rotate: renames and the opening of the new file succeed; the automatic closing of idle files is left out.
- WalkFs: with the recursion check off the depth below every directory is taken to be finite. Symbolic links are not followed and files are what `Lstat` says.
- Windows and macOS specifics of paths.
- The HTTP server, sockets, TLS, protocol encoding, SQLite, platform file systems, GUI and build scripts.
