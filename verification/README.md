# CacheInfinity, verified

CacheInfinity mounts remote file listings ("cachelinks") into shares, indexes them in the background, fetches
files on demand and serves everything over WebDAV and SFTP. This project models the algorithms and state machines
behind that and proves what they keep. Each Dafny module stands for one component:

| module | component |
|---|---|
| `ListingHash`, `TargetTable`, `Indexing`, `Coherence` | the index of one remote listing: fingerprint, target row, one indexing pass, and the pass as a protocol beside a changing remote |
| `ServiceGraph`, `StartOrdering`, `ServiceLifecycle` | the service manager: dependency order, start-up, rollback, shutdown |
| `Paths`, `Overlay` | the WebDAV tree put together from a local tree, mount points and flat listings |
| `Catalogue` | the cachelink catalogue: list, nested dictionary, and back |
| `Cadence`, `Throttle`, `Budget`, `ProbePick`, `Spacing` | the indexing scheduler: cadence, per-domain rate limit and backoff, daily budgets, the probe's random pick |
| `Sessions` | web sessions: memory in front of a table |
| `Downloads` | download admission and retry |
| `SftpWrites` | offset writes |
| `Wrappers`, `Text`, `Numbers` | options and results, strings and sorting, small arithmetic |

Objects that the program updates in place are classes, and its loops are loops. Their contracts tie the new state to
a specification function, and the lemmas are about that function. Times are real numbers of seconds (whole
microseconds for sessions). Clocks, random draws, network answers and the database statement at which the backend
gives up are parameters. SHA-256 is a function parameter, assumed injective where a lemma says so. The WebDAV part
covers reading requests.

What the proofs bring out about the code:

- The dirty flag vouches for the stored listing at every moment except one: between an `update_listing` that raised
  half-way and the `mark_failure` that follows (`FailingMomentCoherentIff` says exactly when,
  `FailingMomentCanDisagree` shows a run). A dirty mark that arrives between the snapshot and the commit of a full pass
  is erased by that commit (`MarkDuringPassErasedIff`), even when the remote changed after the fetch
  (`MarkCanBeLost`).
- An error whose text is empty is not noticed by `index_target`: what came with it counts as an empty listing, and a
  full pass throws every stored row away (`EmptyErrorWipesListing`).
- A path with a line break, which the HTML listing parser lets through, can make one entry pass for any listing of two
  or more (`LineBreakHidesChange`, `ConfusableIff`).
- With nested mounts, listing and resolution part company in exactly two ways (`AgreeUnlessMisled`): a mount one step
  below another mount resolves, but is not listed unless the outer listing names it (`NestedMountUnlisted`), and a
  local directory inside a mount lists names of outer mounts that do not resolve (`LocalDirectoryListsTooMuch`). An
  indexed `..` segment is listed but never resolves (`ParentSegmentListedNotResolved`).
- A single record makes `load_cachelinks` raise for the whole catalogue (`Load`) if its URL does not parse, or if it
  has a folder step or name called `url` below its first step: the folder above is then taken for a leaf, and its
  `url` is a dictionary that cannot be stripped. The walk in `config.py` mistakes a folder only if it has a `subfolder`
  too, and then returns a record for it, or raises if it holds something called `subfolder` and has no mode (`Reload`).
- A record leaves no trace in the tree when a later one stands at its path or above it (`BuildKeepsSurvivors`); in the
  order in which the table is read this does not happen (`TableOrderSurvives`).
- A pass selected before midnight and counted after it exceeds the new day's budget exactly when the database already
  reports that budget as used up (`MidnightRoundOverrunsIff`).
- The repository's own README promises full reindexes every 7 to 60 days. In the code a configured minimum above sixty
  days overrides the cap (`DocumentedRangeIff`), and with early reindexing on, and only then, a dirty target may be
  let in before seven days are over (`AlwaysSpacedIff`, `EarlyCommitsCanBeClose`).
- When a download fails without a status code, as every libcurl error does, the transport's own message is dropped
  (`MessageKeptIff`, `TransportErrorsLoseTheirMessage`), because the conditional expression in `fetcher.py` binds the
  other way round.

## Model

| member | source | states |
|---|---|---|
| ListingHash.Hash | app/net/indexer.py:1215-1225 | the loop computes the digest of the sorted normalised lines |
| ListingHash.LineMeans | app/net/indexer.py:1218-1222 | a line is path or name, kind, size and modification text between bars |
| ListingHash.DigestIgnoresOrder | app/net/indexer.py:1223-1225 | the fingerprint depends on the multiset of lines only, for every digest function |
| ListingHash.HashIffSameListing | app/net/indexer.py:1215-1225 | for line-break-free fields and an injective digest, two fingerprints agree iff the listings agree as multisets of normalised entries |
| ListingHash.LineBreakHidesChange | app/net/indexer.py:411-483 | for every listing of two entries or more there is a one-entry listing with the same fingerprint, whose line breaks the HTML parser lets through if it lets the others through |
| ListingHash.AcceptedIff | app/net/indexer.py:419-474 | a link counts as a file of the listing iff none of the parser's tests leaves it out and it does not end in a slash |
| ListingHash.ConfusableIff | app/net/indexer.py:1215-1225 | a listing without line breaks shares its fingerprint with a different listing iff it has at least two entries |
| ListingHash.LineDeterminesFields | app/net/indexer.py:1218-1222 | without a bar in the path, a normalised line gives back path, kind, size (zero for none) and modification text |
| ListingHash.SizeTextMeans | app/net/indexer.py:1220 | a size reads as its decimal numeral, and only a missing size and zero read the same |
| Text.LeqMeans | app/net/indexer.py:1223 | lines are sorted by their first differing character, a prefix before what it begins |
| Text.DecimalMeans | app/net/indexer.py:1220 | a number is written as a numeral without leading zeros that reads back as the number |
| Text.JoinSplit | app/net/indexer.py:1224 | joining the pieces of a split gives the text back, whatever the text |
| TargetTable.IndexDatabase.EnsureTarget | app/db/schema.py:720-786 | a missing target is created dirty, an existing one only ever changes its URL, and the snapshot is the stored row |
| TargetTable.IndexDatabase.UpdateListing | app/db/schema.py:812-859 | stops at the operation the backend fails or at the first repeated path, whichever comes first, and leaves exactly what the completed operations wrote: rows, target row, event |
| TargetTable.IndexDatabase.RecordCheapCheck | app/db/schema.py:861-890 | keeps the listing, keeps columns for which nothing new is given, raises the flag on change and never clears it; a failure at any of its three operations leaves what the completed ones wrote |
| TargetTable.IndexDatabase.MarkFailure | app/db/schema.py:892-908 | records the first 500 characters of the error, its time and the retry time and raises the flag; no other column and no row of the listing changes |
| TargetTable.IndexDatabase.MarkNeedsFull | app/db/schema.py:910-913 | raises the flag of a known target and changes no other row |
| Indexing.Commit | app/net/indexer.py:1035-1118 | each fetch result leads to exactly the row change its branch makes, with its own message and retry time on a failure, or, when the database raises, to what the completed operations wrote; other targets are untouched |
| Indexing.FullPassLeaves | app/net/indexer.py:1094-1107 | a successful full pass stores one record for each entry in order, both stamps, the new validators and hash, clears flag and errors and keeps the URL |
| Indexing.CheapPassLeaves | app/net/indexer.py:1108-1118 | a successful cheap pass keeps rows, URL and full stamp, takes over new validators and hash, and raises the flag iff the fingerprint is not the snapshot's |
| Indexing.NotModifiedLeaves | app/net/indexer.py:1046-1057 | a 304 changes the time of the last check and clears errors, nothing else |
| Indexing.RefusedPassLeaves | app/net/indexer.py:1034-1090 | a refused pass stores its own message, shortened to 500 characters, and its own retry time: the backoff for an error or status, the cooldown for an oversized listing |
| Indexing.RefusedIff | app/net/indexer.py:1034-1092 | exactly errors, statuses and oversized listings are refused |
| Indexing.PartitionMessageMeans | app/net/indexer.py:1073-1077 | the message for an oversized listing tells its size, the limit and the hint |
| Indexing.BrokenOffPassLeaves | app/db/schema.py:823-889 | a commit broken off by the database leaves the old row with a first part of the new records, or from its UPDATE on the new row |
| Indexing.EmptyErrorWipesListing | app/net/indexer.py:1034-1035 | an error with an empty text counts as an empty listing, so a full pass succeeds and drops every stored row |
| Indexing.IndexTarget | app/net/indexer.py:965-1136 | a pass is refused before its retry time and while the domain throttle asks for a delay; otherwise it ends in the state of its branch, with a database error recorded under its own message and retry time; without a database or descriptor it succeeds iff a listing of acceptable size or a 304 came |
| Coherence.RecordsKeepLines | app/net/indexer.py:1227-1246 | the rows stored for a fetched HTTP listing have the listing's own normalised lines |
| Coherence.CommitWritesTogether | app/db/schema.py:845-852 | a commit, even one that raises, replaces validators and hash together or not at all, and writes a new hash iff it got as far as its UPDATE |
| Coherence.InvAlways | app/net/indexer.py:1017-1136 | in every run: stored validators belong to a listing with the stored hash, the stored hash is that of the listing last hashed, snapshots stay current, and outside a failing commit a clear flag means a matching hash |
| Coherence.InvStep | app/net/indexer.py:1017-1136 | each single step of the indexer, the remote or another thread keeps that invariant |
| Coherence.ClearFlagMeansCoherent | app/net/indexer.py:1017-1136 | in every state of every run outside a failing commit, a clear dirty flag means the stored hash is the hash of the stored listing |
| Coherence.SuccessfulPassIsFresh | app/net/indexer.py:1046-1125 | a successful pass (200 full, 200 cheap or 304) that leaves the flag clear leaves exactly the listing the remote held when it answered |
| Coherence.SeenWasRemote | app/net/indexer.py:1019-1031 | the listing compared with is what the remote held at the fetch of this very pass |
| Coherence.RemoteMayAnswer | app/net/indexer.py:300-326 | an honest remote answers "not modified" iff the validator sent still matches, If-None-Match before If-Modified-Since, and otherwise its listing with its validators, a status or an error with a text |
| Coherence.SuccessfulPassAgreesWithRemote | app/net/indexer.py:1046-1125 | the stored listing then equals the remote's current one unless, between the fetch of this very pass and its commit, the remote published a different listing |
| Coherence.RaisedCommitCoherentIff | app/db/schema.py:823-857 | a commit that raises after k operations leaves flag and hash coherent iff the flag was set, or the old rows were not yet deleted, or the UPDATE had run, or the rows inserted so far equal the old ones as a multiset of lines |
| Coherence.FailingMomentCoherentIff | app/net/indexer.py:1126-1136 | in every run, a state with a failure still to be recorded is coherent iff that condition holds of the commit that raised or the flag was marked since |
| Coherence.FailingMomentCanDisagree | app/db/schema.py:823-857 | a run in which a raised commit leaves a clear flag beside a hash of rows already deleted |
| Coherence.DirtyUntilFullCommit | app/db/schema.py:870-884 | once set, the flag survives every step but the UPDATE of a freshly fetched full listing |
| Coherence.CheapCheckFlagsChange | app/net/indexer.py:1108-1118 | in every run a cheap 200 raises the flag iff the normalised listing differs from the one last hashed; where none was ever hashed the flag is set already |
| Coherence.MarkDuringPassErasedIff | app/db/schema.py:845-853 | in every run, a mark set between the snapshot of a pass and its commit is gone after that commit iff the snapshot called for a full pass and the UPDATE of a listing was run |
| Coherence.MarkCanBeLost | app/db/schema.py:845-853 | a run in which the remote changes and the target is marked after the fetch, and the commit leaves a clear flag over the outdated listing |
| Coherence.RowAlwaysOk | app/db/schema.py:733-738 | in every state of every run an error implies the flag, a retry time implies an error, a clear flag implies a past full index, and the last check is not before the last full index |
| Coherence.CommitKeepsRowOk | app/db/schema.py:812-908 | every commit, half-done or not, keeps the row consistent |
| ServiceGraph.StuckMeansCycle | app/core/services.py:170-171 | services that all wait for one another contain a cycle |
| ServiceGraph.OrderMeansNoCycle | app/core/services.py:142-172 | a start order excludes every cycle, self-dependencies included |
| ServiceGraph.ChainGoesForward | app/core/services.py:160-168 | a dependency chain moves forward in every start order by at least its length |
| ServiceGraph.ChainWithinLevel | app/core/services.py:160-168 | no chain into a service is longer than its level |
| ServiceGraph.LevelHasChain | app/core/services.py:160-168 | some chain into a service is as long as its level |
| ServiceGraph.LevelsGiveLayers | app/core/services.py:160-168 | an order with non-decreasing levels never puts a service with a longer dependency chain before one with shorter chains |
| StartOrdering.BuildGraph | app/core/services.py:152-158 | the reversed graph lists a dependent once per mention, and each counter starts at the number of mentions |
| StartOrdering.MissingEmpty | app/core/services.py:143-150 | the list of missing pairs is empty iff every dependency is registered |
| StartOrdering.MissingMeans | app/core/services.py:143-150 | the missing pairs are exactly the mentions of unregistered dependencies |
| StartOrdering.InitialQueue | app/core/services.py:160 | the queue starts with exactly the services that wait for nothing |
| StartOrdering.Release | app/core/services.py:164-168 | after the decrements each counter is what its service still waits for, and exactly the services waiting for nothing are listed |
| StartOrdering.Worklist | app/core/services.py:160-172 | the worklist lists every service iff the graph has no cycle, and then in a layered start order |
| StartOrdering.ResolveOrder | app/core/services.py:142-172 | reports the missing pairs iff a dependency is unregistered; otherwise succeeds iff there is no cycle, with a permutation of the names, dependencies first, in layers |
| ServiceLifecycle.ServiceManager.Register | app/core/services.py:86-91 | refuses an empty or taken name and changes nothing then; otherwise adds exactly one service |
| ServiceLifecycle.ServiceManager.InitializeAll | app/core/services.py:93-113 | the calls made are the initialisations up to the first that raises and then the stops of the earlier ones in reverse, raising stops included; an unorderable graph makes no call |
| ServiceLifecycle.ServiceManager.StartAll | app/core/services.py:115-132 | the same for starting |
| ServiceLifecycle.ServiceManager.StopAll | app/core/services.py:134-140 | stops every service in reverse order |
| ServiceLifecycle.StartUpCalls | app/core/services.py:93-132 | call by call: everything up to the service that raises, then a stop for each service before it, last one first |
| ServiceLifecycle.FailedStartUpRollsBack | app/core/services.py:102-131 | the calls of a failed initialisation or start stop each earlier service exactly once, no other, and dependents before what they depend on |
| ServiceLifecycle.WarningsMeans | app/core/services.py:105-110 | the warnings name exactly the stopped services whose stop raises, in the order of the stops |
| ServiceLifecycle.InitializeSeesDependencies | app/core/services.py:97-112 | every initialisation finds all its dependencies in the context |
| ServiceLifecycle.StopsEachOnce | app/core/services.py:102-111 | a rollback stops each earlier service exactly once and no other |
| ServiceLifecycle.DependentsStopFirst | app/core/services.py:102-140 | no service is stopped before a dependent that is being stopped too |
| Paths.PartsClean | app/hosting/webdav.py:674-678 | reading a path from any text gives segments without slashes, empty names or dots |
| Paths.PartsMembers | app/hosting/webdav.py:674-678 | the segments of a text are the pieces between its slashes other than empty ones and dots |
| Paths.KeepAppends | app/hosting/webdav.py:674-678 | segments are dropped one by one, so the others keep their order |
| Paths.KeepOne | app/hosting/webdav.py:674-678 | a lone segment is dropped iff it is empty or a dot |
| Paths.NameSurvivesFrontendPath | app/hosting/webdav.py:680-688 | the last segment of a frontend path is the child name it was made from |
| Overlay.FindCachelink | app/hosting/webdav.py:630-643 | the loop finds the first of the longest mounts above a path, and the rest of the path below it |
| Overlay.BestIsFirst | app/hosting/webdav.py:630-643 | among equally long mounts above a path the first one is taken |
| Overlay.InShareAppend | app/hosting/webdav.py:594-602 | the mounts of a share are those under its base, in catalogue order |
| Overlay.LookupEntry | app/hosting/webdav.py:645-655 | the loop finds the first entry at the path, or says whether anything lies below |
| Overlay.CachelinkChildren | app/hosting/webdav.py:657-672 | the loop finds exactly the next segments below the path, each a directory iff some entry makes it one |
| Overlay.CachelinkMembers | app/hosting/webdav.py:572-592 | the loop adds the full paths of the next steps towards mounts and of the children in listings |
| Overlay.Resolve | app/hosting/webdav.py:261-391 | a reading request without permission or with `..` gets nothing, a local file its file and a local directory its directory, and a path that is not local what `GetResource` finds in the overlay |
| Overlay.OverlayAnswers | app/hosting/webdav.py:320-385 | above every mount a directory iff a mount lies below; otherwise the longest mount decides by its first entry at the rest of the path, or by what lies below |
| Overlay.BelowLocalFile | app/hosting/webdav.py:281-306 | below a local file nothing resolves unless the overlay is on and a mount lies above or below the path |
| Overlay.ListNames | app/hosting/webdav.py:1255-1276 | both directory listings come to `MemberNames`, full paths and back included |
| Overlay.ListedIffFound | app/hosting/webdav.py:645-672 | at every depth a name is among the children iff its lookup is not (None, False) |
| Overlay.FlagsAgree | app/hosting/webdav.py:645-672 | the directory flags of listing and lookup agree iff the first entry at the name is not a file that another entry makes a directory |
| Overlay.AgreeUnlessMisled | app/hosting/webdav.py:572-672 | for any mounts, nested or not, and in every directory: listing a name and resolving the path one step down agree, except for a mount one step below a mount whose listing does not name it, and, in a local directory inside a mount, for a name offered only by mounts other than the longest one |
| Overlay.ListedIffResolves | app/hosting/webdav.py:1255-1276 | with mounts apart, in every directory a name is listed iff the path one step down resolves |
| Overlay.AncestorIsDirectory | app/hosting/webdav.py:261-391 | everything above a path that resolves is a directory |
| Overlay.WalkableIff | app/hosting/webdav.py:261-391 | for any mounts, listings and local tree: a path that resolves can be walked to iff everything above it is a directory and no step on the way is one where listing and resolution part company |
| Overlay.ResolvesIffWalkable | app/hosting/webdav.py:261-391 | a path resolves iff listed names lead to it from the share root |
| Overlay.IndexedFileReached | app/hosting/webdav.py:261-391 | every indexed file is reached by listed names, and is what is found there iff no local path and no indexed directory took its place |
| Overlay.NestedMountNotListed | app/hosting/webdav.py:1262-1264 | a mount at any depth inside another one resolves, but the outer mount's directory does not list the way to it unless the outer listing holds its first step |
| Overlay.NestedMountUnlisted | app/hosting/webdav.py:1262-1264 | a catalogue of two nested mounts where the inner one resolves unlisted |
| Overlay.LocalDirectoryListsTooMuch | app/hosting/webdav.py:1389-1406 | the same with a local directory on the inner mount, which lists a file of the outer listing that does not resolve |
| Overlay.ParentSegmentListedNotResolved | app/hosting/webdav.py:492-493 | an indexed `..` segment is listed and never resolves |
| Catalogue.Build | app/core/config.py:1614-1651 | the loop builds the tree of the records inserted one after the other |
| Catalogue.NodeAfterInsert | app/core/config.py:679-690 | after an insertion at p: the value at p, a folder above it, the value's own items below it, and elsewhere what stood there before |
| Catalogue.BuildKeepsSurvivors | app/core/config.py:669-691 | for every list, the built tree is that of the records which no later record at or above their path overwrites |
| Catalogue.TableOrderSurvives | app/db/schema.py:2587-2599 | in the order in which the table is read, with backend paths in the standard form and no path twice, nothing is overwritten |
| Catalogue.BuildShape | app/core/config.py:669-691 | for every list with parents before what lies below them: dictionaries exactly on the ways to records, the fields of a record where nothing below it took their place, and nothing else |
| Catalogue.InsertCommutes | app/core/config.py:679-690 | insertions at incomparable paths commute on every tree |
| Catalogue.OrderDoesNotMatter | app/core/config.py:669-691 | two orders of the same prefix-free records build the same tree |
| Catalogue.Collector.Walk | app/core/config.py:701-719 | the recursive walk appends one record for each leaf below its start and leaves the rest of the shared list alone, or raises iff it meets a leaf without a mode whose subfolder is a dictionary |
| Catalogue.Loader.WalkTree | app/cache/cachelinks.py:186-207 | the recursive walk adds one descriptor for each leaf below its start, or raises iff it meets a leaf whose URL is a dictionary or does not parse, or whose mode has to be detected from a dictionary |
| Catalogue.WalkFindsLeaves | app/core/config.py:701-719 | started empty, the walk collects exactly the leaves of the tree |
| Catalogue.FoundIff | app/core/config.py:701-719 | with nothing below a record with a URL, a walk of a built tree finds a path iff no folder above it is mistaken for a leaf and there stands a record with a URL or a folder that is mistaken |
| Catalogue.FindsRecordsIff | app/core/config.py:342-348 | a walk finds exactly the named records with a URL iff no folder is mistaken: for the loose walk one that holds something called `url`, for the strict walk one that also has a `subfolder`, in it or as the record of a folder |
| Catalogue.LooseMistakeIff | app/cache/cachelinks.py:178-184 | the loose walk mistakes a folder iff some named record has a step called `url` below its first |
| Catalogue.LeavesApart | app/cache/cachelinks.py:186-207 | the output of a walk over any tree is prefix-free |
| Catalogue.IsLeafMeans | app/core/config.py:342-348 | the leaf tests: a `url` that is a non-blank text or a non-empty dictionary, and for the strict one a `subfolder` |
| Catalogue.AcceptsMeans | app/cache/cachelinks.py:140-156 | the walks get through a leaf iff its mode is given or its subfolder can be searched for one, and in `cachelinks.py` its URL is a text that parses |
| Catalogue.Reload | app/core/config.py:669-720 | list to tree to list: raises iff a topmost mistaken folder without a mode holds something called `subfolder`; otherwise each surviving record with a name and a non-blank URL comes back once in canonical form and nothing else does, iff no folder is mistaken |
| Catalogue.Load | app/cache/cachelinks.py:118-250 | loading a built catalogue raises iff a surviving record has a step called `url` below its first or a URL that does not parse; otherwise the index holds exactly one descriptor for each surviving record with a name and a non-blank URL |
| Catalogue.SavedLoadsTheSame | app/cache/cachelinks.py:123-176 | a record that went through the round trip loads as the same descriptor |
| Catalogue.ReadsBackCanonical | app/core/config.py:684-714 | the record written down for a leaf is the canonical form of the record it was made from |
| Catalogue.ComesBackWith | app/core/config.py:684-714 | URL, non-empty subfolder, mode and handler come back as given, paths in the standard form, and a record in standard form comes back as it was |
| Catalogue.LoadsAs | app/cache/cachelinks.py:123-176 | a record is loaded under its segments with the URL stripped, the subfolder, the mode it names and its handler in normal form |
| Catalogue.LeafDefaults | app/cache/cachelinks.py:191-200 | a leaf without a subfolder gets "/", and one without `url_handler` its `handler` |
| Catalogue.ModeDetected | app/cache/cachelinks.py:281-297 | a record without a mode comes back and is loaded as a zip iff some segment of its subfolder other than the last ends in ".zip" |
| Catalogue.HandlerMeans | app/cache/cachelinks.py:326-337 | known handlers are recognised stripped and in small letters, anything else is "auto" |
| Catalogue.LeafNameMeans | app/core/config.py:674-677 | the name of a record is what follows the last slash of its id |
| Text.StripMeans | app/cache/cachelinks.py:140 | stripping takes white space off both ends and nothing else |
| Catalogue.CanonicalIsStable | app/core/config.py:669-720 | a record that came back stands at the same path, and a second round changes nothing |
| Catalogue.DifferentPathsDifferentIds | app/cache/cachelinks.py:186-189 | canonical ids agree iff the paths do |
| Cadence.DocumentedRangeIff | app/net/indexer.py:894-900 | the two intervals in seconds for every setting; both are at least 7 days, and at most 60 iff the configured minimum is |
| Cadence.ShouldReindex | app/net/indexer.py:877-963 | full iff not waiting for a retry, wanted and in budget; cheap iff nothing full is wanted, a day has passed and in budget; otherwise the time returned is what is left of the retry wait, or of the day when the budget is used up, or the exact wait after which something is due |
| Cadence.QuietUntil | app/net/indexer.py:907-937 | while nothing is due, waiting for the time returned makes a check or full reindex due, and no shorter wait does, unless early reindexing is on, the target hot and the minimum interval over |
| Cadence.FullCommitsSpaced | app/net/indexer.py:894-934 | with early reindexing off, in every run full commits of a target are at least max(7, min) days apart |
| Cadence.FullCommitsPerWindow | app/net/indexer.py:894-934 | hence at most W / interval + 1 of them in any window of W seconds |
| Cadence.RunIsSpaced | app/net/indexer.py:894-934 | in every run consecutive full commits are a minimum interval apart or the later one was let in early |
| Cadence.EarlyPickIff | app/net/indexer.py:914-924 | a pick is early iff the target is dirty, the settings and the hotness allow it and the minimum interval is running |
| Cadence.EarlyHasReason | app/net/indexer.py:914-924 | every early commit was made by the last pick before it, which found the target dirty, the hotness condition met and the minimum interval running |
| Cadence.CloseCommitsWereEarly | app/net/indexer.py:914-924 | of two full commits closer than the minimum interval, the later one was made by such a pick |
| Cadence.ColdTargetsAreSpaced | app/net/indexer.py:917-924 | where early reindexes need a hot target, a target that is never hot keeps the minimum interval |
| Cadence.EarlyCommitsCanBeClose | app/net/indexer.py:914-924 | with early reindexing on, some run has two full commits less than seven days apart, whatever the configured minimum |
| Cadence.AlwaysSpacedIff | app/net/indexer.py:894-934 | full commits keep the minimum interval in every run iff early reindexing is off |
| Throttle.MayStartIff | app/net/indexer.py:792-810 | the delay is zero iff no backoff window, rate interval or full house stands in the way |
| Throttle.DelayIsLeast | app/net/indexer.py:792-810 | the delay is the least wait after which neither window nor rate stands in the way, and at least a second while the house is full |
| Throttle.ApplyBackoff | app/net/indexer.py:823-847 | the statements compute the backoff delay and window of the specification |
| Throttle.BackoffAfterKFailures | app/net/indexer.py:831-847 | after k exponential failures in a row the delay lies between 0.8 min(max, base 2^(k-1)) and max, and with Retry-After r it is the larger of r and min(max, base 2^(k-1)) |
| Throttle.BackoffIsJittered | app/net/indexer.py:841-846 | without Retry-After the delay is the jitter times that, cut off at the ceiling, and the window ends exactly then |
| Throttle.CallLeaves | app/net/indexer.py:995-1136 | a refused call changes nothing; one let through is the last request, leaves nothing in flight, and a success forgets failures and window |
| Throttle.BackoffWithoutCounting | app/net/indexer.py:831-847 | a failure that is not exponential leaves the count alone and waits between 0.8 base and max, or max(r, base) with Retry-After r |
| Throttle.FailuresCounted | app/net/indexer.py:834-836 | k exponential failures in a row raise the failure count by k |
| Throttle.FirstFailures | app/net/indexer.py:185-191 | a new domain starts with nothing counted, so its first k failures count to k |
| Throttle.RunKeepsThrottle | app/net/indexer.py:995-1031 | over whole runs no start falls into a backoff window opened before it, starts are 60/rate seconds apart, and nothing stays in flight |
| Throttle.StartsPerWindow | app/net/indexer.py:799-804 | a window of W seconds holds at most W rate / 60 + 1 starts |
| Throttle.InflightIsOpenRequests | app/net/indexer.py:812-821 | under any thread interleaving the in-flight counter is the number of open requests |
| Throttle.CallIsRespectful | app/net/indexer.py:995-1031 | one more call keeps every start outside earlier windows and at its distance from earlier starts |
| Throttle.DomainTable.RunCall | app/net/indexer.py:784-852 | a call starts iff its delay is zero, leaves its domain as the run model says and every other domain alone |
| Budget.BudgetState.Available | app/net/indexer.py:730-740 | resets on a new day, then answers whether the counter is below its cap |
| Budget.BudgetState.ConsumeBudget | app/net/indexer.py:742-746 | resets on a new day, then counts one event of the given kind |
| Budget.BudgetState.DoRound | app/net/indexer.py:1248-1269 | a round counts its event only if it was selected under the budget and succeeded |
| Budget.BudgetsHold | app/net/indexer.py:708-746 | over any rounds that stay within one day each, a counter never passes the larger of its cap and the count loaded that day |
| Budget.CountersHold | app/net/indexer.py:730-746 | hence the full counter stays within its cap, and the cheap one within both of its caps, or within what was loaded |
| Budget.MidnightRoundOverrunsIff | app/net/indexer.py:742-746 | a round across midnight overruns the new day's budget iff the loaded count already fills it |
| ProbePick.Pick | app/net/indexer.py:1630-1646 | the loops end with the last eligible entry that drew zero |
| ProbePick.PickedIsUncached | app/net/indexer.py:1630-1650 | the pick is an uncached file with a name out of one of the listings, and there is one iff such a file exists |
| ProbePick.AllDrawsAreValid | app/net/indexer.py:1645-1646 | the counted set holds every sequence of draws the loop can make and no other |
| ProbePick.AllDrawsCount | app/net/indexer.py:1644-1646 | n candidates can be drawn for in n! ways |
| ProbePick.EachCandidateEquallyOften | app/net/indexer.py:1644-1646 | of the n! draw sequences each of the n candidates wins exactly (n-1)! |
| Sessions.AuthenticationManager.CleanupExpired | app/auth/credentials.py:1054-1065 | drops exactly the expired cached sessions |
| Sessions.AuthenticationManager.RemoveUser | app/auth/credentials.py:1032-1052 | drops exactly the sessions of the user, in memory and table |
| Sessions.AuthenticationManager.CreateToken | app/auth/credentials.py:908-952 | the new session is the only one left for its user, in memory and table |
| Sessions.AuthenticationManager.ValidateToken | app/auth/credentials.py:954-1030 | answers from memory, else from the table, dropping an expired session where it is met |
| Sessions.AuthenticationManager.LogoutUser | app/auth/credentials.py:1087-1098 | the token is gone from memory and table |
| Sessions.AuthenticationManager.CleanupTable | app/db/adapter.py:390-404 | deletes exactly the rows expired for longer than the given hours |
| Sessions.StepRefines | app/auth/credentials.py:908-1098 | each operation answers as one map from tokens would and keeps the relation to it |
| Sessions.SessionsRefineAMap | app/db/adapter.py:344-404 | over any sequence of operations all answers are those of the map, unexpired cached sessions are in the table, and each user has at most one session |
| Sessions.TokenLivesADay | app/auth/credentials.py:927-1000 | over any operations, a token answers with its user for exactly twenty-four hours after the login unless it is logged out or the user logs in again |
| Sessions.TokenDies | app/auth/credentials.py:1032-1098 | a token that was logged out, or replaced by a later login of its user, never answers again |
| Downloads.Download | app/net/fetcher.py:238-327 | makes attempts up to the first terminal one, reports that one, and sleeps retry_delay (2^(attempts-1) - 1) in all |
| Downloads.WaitIsBounded | app/net/fetcher.py:240-327 | at most max_retries + 1 attempts and retry_delay (2^max_retries - 1) seconds of sleep |
| Numbers.Pow2Adds | app/net/fetcher.py:299 | the factor of the waits is a power of two |
| Downloads.SucceedsIff | app/net/fetcher.py:240-327 | succeeds iff some attempt in range succeeds with every attempt before it worth retrying |
| Downloads.StopsIff | app/net/fetcher.py:293-296 | a call goes on exactly after failures without a status, with 408, 429 or a 5xx, after exceptions and after empty files, as long as attempts are left |
| Downloads.ReportMeans | app/net/fetcher.py:291-327 | the text reported for the attempt that ended the call |
| Downloads.MessageKeptIff | app/net/fetcher.py:291 | a call that ends on an answered failure passes the transport's message on iff there is a status code other than zero |
| Downloads.TransportErrorsLoseTheirMessage | app/net/fetcher.py:413-415 | a call that meets nothing but libcurl errors uses up its attempts and reports none of their messages |
| Downloads.Fetcher.TryAdmit | app/net/fetcher.py:231-236 | admits iff the counter is below the limit |
| Downloads.Fetcher.Release | app/net/fetcher.py:329-331 | gives back exactly one slot |
| Downloads.Fetcher.SetMaxConcurrent | app/net/fetcher.py:818-821 | changes the limit and nobody inside |
| Downloads.Fetcher.GetActiveDownloads | app/net/fetcher.py:813-816 | answers the number of threads inside |
| Downloads.Fetcher.DownloadAdmitted | app/net/fetcher.py:238-331 | whatever the attempts come to, the slot is given back |
| Downloads.CounterIsOccupancy | app/net/fetcher.py:231-331 | under any interleaving the counter is the number of threads inside and stays within the largest limit in force |
| Downloads.GateIsSafe | app/net/fetcher.py:813-821 | from the start: occupancy never above the largest limit ever set, and zero iff all have left |
| Downloads.LargestLimitIsMax | app/net/fetcher.py:818-821 | the bound is the largest of the limits that were in force |
| Downloads.NobodyEntersAboveTheLimit | app/net/fetcher.py:231-236 | while the counter stays above a lowered limit, every step since has been a departure |
| SftpWrites.WriteAt | app/hosting/ftp.py:1122-1131 | a write gives length max(len, offset + n), the data in its range, the old content elsewhere and zeros in a gap |
| SftpWrites.ReadAfterWrite | app/hosting/ftp.py:733-756 | reading the range just written gives the data written |
| SftpWrites.ReadMeans | app/hosting/ftp.py:733-756 | a read gives exactly what lies in the range, a short block at the end of the file and nothing beyond |
| SftpWrites.SwapIffAgree | app/hosting/ftp.py:1122-1131 | two writes commute iff they agree where they overlap |
| SftpWrites.WritesMerge | app/hosting/ftp.py:1122-1131 | agreeing writes leave a file just long enough, holding what any of them wrote and elsewhere the old content or zeros |
| SftpWrites.OrderFreeIff | app/hosting/ftp.py:816-823 | on any content, every order of a list of writes ends in the same file iff any two of them agree where they overlap |
| SftpWrites.AssembledInAnyOrder | app/hosting/ftp.py:816-823 | chunks covering a file, in any order, with overlaps and repeats, assemble it from empty |
| SftpWrites.File.Write | app/hosting/ftp.py:816-823 | read, splice and write back come to one specified write |
| SftpWrites.File.ReadAt | app/hosting/ftp.py:733-756 | returns the requested range, clipped at the end of the file |
| SftpWrites.File.WriteAll | app/hosting/ftp.py:775-827 | pipelined writes apply one after the other |

## Left out

- Coherence.SuccessfulPassIsFresh: assumes an HTTP listing at a fixed URL, strong validators, paths without line breaks, errors with a text, an honest remote and one indexer per target; FTP and rclone listings carry no validators and never answer 304.
- Coherence.InvAlways: a database error inside `ensure_target`, `mark_needs_full` or `mark_failure` itself escapes from the pass and is not modelled.
- A full pass eventually clearing the flag: a 304 answers a full pass too and leaves the flag as it was, so this is not claimed.
- Catalogue.Reload: the nested dictionaries are values here, so the in-place pointer walk of the builders (aliasing, order of keys) is not captured; the optional rclone columns are copied like the four kept ones and are omitted.
- Catalogue.Collector.Walk: a dictionary in place of a text is recorded as an empty text; white space is blank, tab, line feed and carriage return only, and lower case is that of ASCII letters.
- Catalogue.Load: which URLs parse is a parameter; `identifier` and `download_root`, which are taken from the parsed URL, and the list form of `inline_docs` are not modelled. A catalogue in which something lies below a record with a URL is excluded, here and in `Catalogue.Reload`.
- Cadence.FullCommitsSpaced: full listings are committed by passes the scheduler picked; `app/storage/vfs.py` calls `index_target` outside the scheduler.
- `CachelinkManager` longest-prefix lookup: the same loop as the one modelled by `Overlay.FindCachelink`.
- Overlay.ListedIffResolves: one share, reading requests; choosing the share and the user policy, PUT and MKCOL on missing paths, and file content are not modelled.
- Throttle.RunKeepsThrottle: for calls one after the other; across threads the delay check and the start are two steps, so only the in-flight count is proved.
- Budget.BudgetsHold: selecting and counting fall on one UTC day; restarts of the process are not modelled.
- The order in which `get_targets_for_indexing` ranks candidates and merges due times.
- Sessions.SessionsRefineAMap: operations are atomic, database writes succeed and new tokens are new.
- Downloads.Download: checksum verification, resuming and rclone downloads.
- SftpWrites.File.Write: permissions, handles and the virtual authorized_keys file.
- Network, SQL text, TLS, passwords, settings parsing, the HTML and FTP listing parsers, the zip cache and the web interface.
