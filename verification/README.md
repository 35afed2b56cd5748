# Replex: a verified model

Replex is a policy-aware reverse proxy for Plex Media Server. It removes media versions an account
may not see, rewrites playback requests so that they name a permitted version, merges home-screen
rows, and caches what Plex answers. This project states what those parts are for and proves it of a
model that follows the Rust sources branch by branch. `dafny verify dfyconfig.toml` checks all of it.

## How the project is laid out

| file | what it models |
|---|---|
| `Prelude`, `Text`, `Sorting`, `Queries` | Rust's strings, stable sort, saturating arithmetic and query multimaps |
| `Models` | the fields of Plex's metadata that matter here |
| `RecordCodec`, `RecordLayout`, `Disk`, `CommitProtocol`, `CommitReports`, `CommitRuns`, `CommitDisturbances`, `DiskCache` | the disk cache: record format, names, concurrent commits, what they report, what callers that go away do to them, accounting and eviction |
| `ResolutionPolicies`, `PolicyTransform`, `ApplyTransforms` | limits, classification, recursive filtering, the transform loop |
| `Selection`, `BestPermitted`, `Playback`, `PlaybackAnswers`, `PlaybackHandlers`, `PlaybackRequests` | choosing a version, the chain of playback handlers, what each answers and changes, and playback requests among policy reloads |
| `Interleaving`, `RowKeys`, `RowMerge`, `RowProperties`, `RowOrder`, `RowPaging` | merged rows: their items, their order, their keys, and following a key back to the row |
| `LibraryKeys`, `PolicyStores`, `LibraryCache` | the cached library route and the reloadable policy |
| `HubKeys`, `HubReadings`, `HubCollisions` | hub cache keys, the ways one key can be read, and when that matters |
| `HubRefresh`, `HubRuns`, `HubFreshness`, `HubAttempts` | background refresh of hubs: single flight, whole refreshes, what an age says, how far apart attempts are |
| `Jobs`, `JobCalls` | account jobs, overlapping calls |
| `XmlAttrs`, `PartFacts` | reading XML attributes, and decisions on direct part requests |

Concurrent code is a state machine whose steps are the atomic actions of the source; a run is any
sequence of enabled steps. Code that edits in place is a method or a class whose contracts equate the
new state with a specification function; the results are about those functions. Values the code gets
from outside (Plex's answers, the clock, what fails) are parameters, so results hold for all of them.

## Where the code does less than its documentation says

Each of these comes with a lemma that shows a failing input, an exact condition for when it is met, or both.

- A picture larger than 4K is judged by its label alone (`MislabelledOversizePasses`; exact: `PermittedFitsFrame`).
- A container with two populated child lists has only the first one filtered when an item of it survives
  (`SecondListEscapes`; exact: `PolicyPassComplies`).
- Merging into a row without items loses the items merged in, and a hub without a size is dropped with its
  items (`FilmIsLost`; exact: `MergingConservesItems`, `ContainerConservesItems`, `PageRebuildsRow`).
- A built-in hub does absorb a collection hub of its title if it stands first, although
  docs/FEATURES.md says built-in hubs remain separate (`BuiltInAbsorbs`; exact: `MergingKeepsBuiltIns`).
- A success status other than 200 is served raw at first and transformed from the cache afterwards
  (`OtherSuccessIsServedTwoWays`; exact: `CacheRefinesRoute`).
- Two spellings of the token parameter with different values can be looked up and stored under
  different keys (`TwoSpellingsSplit`, `TwoTokensMisfile`; exact: `LookupAndStoreAgree`).
- A delimiter inside a hub parameter can pass for another parameter, so that one key stands for two
  fetches (`HubRequestsCollide`; exact: `CollidesExactly`, `CollidesWhenMarked`, `KeyIsSharedExactly`).
- Hub refresh attempts can be less than a minute apart when two refreshes overlap (`AttemptsCanCollide`) or the
  table forgets the first one (`ForgottenAttemptIsRepeated`; exact: `HubAttempts.AttemptsAreSpaced`,
  `AttemptsAreSpacedExactly`).
- A hub payload asked for before a playback change and stored after it counts as fresh (`LateStampLooksFresh`;
  exact: `FreshAfterChangeIsNew`).
- Two starts of a job can fall within its hour when calls overlap (`OverlappingCallsBothStart`; exact:
  `StartsAreSpacedExactly`).
- `best_allowed_media` prefers the version closest to the screen, not the largest that fits it as its
  comment says (`LargerThanScreenIsChosen`; exact: `BestAllowedIsLargestFitting`), and its `i64` key can wrap
  (`WrappingChoosesAnother`; exact: `KeyIsDistance`, `KeyIsSize`,
  `ChoiceIsClosestExactly`, `LargestIsChosenExactly`).
- `clear_all` reports an empty cache even if files could not be deleted (exact: `DiskCache.Cache.ClearAll`).
- A commit whose caller goes away while the rename is under way is never counted (`AbandonedRenameDrifts`), so
  writers of one path can make the counter drift (exact: `DriftsAccumulate`, `CounterIsOffByLandings`).
- A caller that goes away between the write and the rename leaves its temporary file behind until the next
  start: spawn, take a name, write, drop the future (`AbandonedWriterLeavesFile`; every other such file is
  accounted for by `CommitsAreSafe`).

## Model

| member | source | states |
|---|---|---|
| RecordCodec.EncodeRecord | src/disk_cache.rs:88-109 | the buffer, extended piece by piece, is the record layout (magic, 16-bit type length, type, 64-bit body length, body); it fails exactly for a content type above 65535 bytes |
| RecordLayout.RecordBytes | src/disk_cache.rs:88-109 | every byte of a record: the four of the magic, the length of the type in two and of the body in eight bytes, most significant first |
| RecordLayout.ValidExactly | src/disk_cache.rs:139-149 | a content type is accepted if and only if it is the UTF-8 form of some text, as section 3 of RFC 3629 defines it |
| RecordCodec.DecodeEncoded | src/disk_cache.rs:111-151 | decoding undoes encoding for every body and content type, an empty type becoming none, whatever bytes follow |
| RecordCodec.DecodedIsCanonical | src/disk_cache.rs:111-151 | whatever decodes from data with the magic is encodable, and its encoding is what the data starts with |
| RecordCodec.DecodesExactlyEncodings | src/disk_cache.rs:111-151 | with the magic present the decoder accepts r if and only if r is encodable and the data starts with its encoding |
| RecordCodec.TruncationIsRejected | src/disk_cache.rs:111-151 | every proper prefix of at least four bytes of a record is rejected, never another record |
| RecordCodec.LegacyDecodesToItself | src/disk_cache.rs:111-118 | data without the magic is a whole body without a type |
| Disk.NamesTellTemporaryFiles | src/disk_cache.rs:262-273 | a name is recognised as temporary exactly when it is one the commit made |
| Disk.TemporaryExactly | src/disk_cache.rs:262-273 | any name is temporary if and only if it ends in `.tmp` or has `.tmp.` in it |
| Disk.NamesAreDistinct | src/disk_cache.rs:208-214 | different keys, processes or counters never print the same file name |
| CommitProtocol.StepKeepsInv | src/disk_cache.rs:208-244 | every atomic step of every writer, with failures, unreadable lengths, callers that go away at any wait, renames that take place after that, crashes and restarts, keeps lock ownership, name uniqueness, whole contents and the accounting equation |
| CommitProtocol.CommitsAreSafe | src/disk_cache.rs:208-244 | over every run of any number of writers: one lock holder; whenever the lock is free the counter equals the committed bytes less the drift, which is zero unless an abandoned rename took place or a length could not be read; every final path holds one whole submission or its original content; every temporary file is in use by an unfinished writer, failed to be removed, or was left or is being renamed for an abandoned writer |
| CommitProtocol.CountIsExact | src/disk_cache.rs:232-242 | in an undisturbed run the saturating update never saturates and lands on the exact total |
| CommitProtocol.RestartRecovers | src/disk_cache.rs:333-361 | after a crash at any point, the next start recounts exactly and loses no committed file |
| CommitProtocol.CommittedFilesDecode | src/disk_cache.rs:193-206 | a reader never meets half a record: what a run put at a path decodes |
| CommitReports.ReportsAreTrue | src/disk_cache.rs:208-244 | over every run, crashes included: a call that is over was made for its path and record by this process, reports success if and only if its own rename is in the run since the last crash, and right after that rename its path held exactly its record |
| CommitReports.WritersCanGoOn | src/disk_cache.rs:208-244 | in every reachable state a writer is held up by nothing but the lock, a full disk or spent names, each operation may succeed or fail, and a caller may leave at exactly the waits |
| CommitReports.RenamesCanLand | src/disk_cache.rs:227 | an abandoned rename may take place or fail at any time |
| CommitReports.WritesGoThroughPrefixes | src/disk_cache.rs:216 | a write may have put down any prefix there is room for, in its own temporary file alone |
| CommitReports.RemovalsRemove | src/disk_cache.rs:217 | a failed removal leaves the temporary file, a successful one takes it away |
| CommitReports.EndsOnce | src/disk_cache.rs:227 | an abandoned rename ends once, and a failed one changes no file |
| CommitReports.LeavesExactly | src/disk_cache.rs:221-230 | what a caller that goes away leaves: its file before the rename, the rename during it, and never the lock |
| CommitReports.FinishedWritersLeaveNothing | src/disk_cache.rs:213-230 | over every run in which no caller goes away and no removal fails, every new temporary file is in use by a writer that is not through |
| CommitRuns.CommitSucceeds | src/disk_cache.rs:208-244 | from every reachable state with room: the undisturbed steps end with the record at its path, nothing else changed on the disk, the counter exact and success reported |
| CommitRuns.FailedWriteChangesNothing | src/disk_cache.rs:216-219 | a failed write leaves disk, counter and lock as they were and is reported |
| CommitRuns.FailedRenameChangesNothing | src/disk_cache.rs:227-230 | so does a failed rename: the old entry and its accounting are intact |
| CommitDisturbances.UndisturbedIsExact | src/disk_cache.rs:221-242 | over every run, crashes included, in which no pending rename takes place and every length of an existing file can be read, the counter is exact whenever the lock is free |
| CommitDisturbances.AbandonedRenameDrifts | src/disk_cache.rs:221-242 | a rename that takes place after its writer was dropped, whatever ran in between, moves the counter off by the difference of the two lengths at that moment; an exact counter stays exact if and only if they are equal |
| CommitDisturbances.DriftsAccumulate | src/disk_cache.rs:221-242 | over every run of one process the counter is off by the sum of those differences, of what measured lengths exceed replaced ones by, and of what saturation cuts off; it is right if and only if the sum is zero |
| CommitDisturbances.CounterIsOffByLandings | src/disk_cache.rs:221-242 | over every run of one process in which lengths can be read and nothing saturates, the counter is off by the length differences of the abandoned renames that took place, leaving out those between another writer's measurement and rename of the same file, and right if and only if they add up to none |
| CommitDisturbances.StaleMeasurementMakesUp | src/disk_cache.rs:226-242 | a commit that measured the path before such a rename and replaces it afterwards takes the drift back |
| CommitDisturbances.UnreadableMetadataDrifts | src/disk_cache.rs:226 | if reading the old length fails for an existing file, the commit moves the counter off by exactly that length |
| CommitDisturbances.AbandonedWriterLeavesFile | src/disk_cache.rs:213-230 | after a writer is dropped between write and rename its temporary file stays, whole and unused, over every run of that process |
| DiskCache.ThresholdIsAtMost85Percent | src/disk_cache.rs:16-22 | the target never exceeds 85% of any u64 maximum, saturating or not, and is that percentage rounded down otherwise |
| DiskCache.Cache.Init | src/disk_cache.rs:333-361 | start-up makes the counter exact and leaves only undeletable temporary files |
| DiskCache.Cache.Remove | src/disk_cache.rs:247-260 | removal keeps an exact counter exact and touches one file |
| DiskCache.Cache.ClearAll | src/disk_cache.rs:368-392 | only undeletable files remain, and the counter is right afterwards if and only if they were all empty beforehand |
| DiskCache.Cache.Scan | src/disk_cache.rs:288-312 | the scan has one true row per file and their exact total |
| DiskCache.Cache.EnsureCapacity | src/disk_cache.rs:275-331 | nothing happens below the maximum; otherwise files go in age order, the counter stays exact, and the loop stops below the target or out of files and not later |
| DiskCache.Cache.EvictOldest | src/disk_cache.rs:314-329 | the loop deletes a prefix of the age order, with the total before the last attempt still at or above the target |
| DiskCache.OldestGoFirst | src/disk_cache.rs:313-329 | nothing evicted is newer than anything deletable that was kept |
| DiskCache.EvictionIsMinimal | src/disk_cache.rs:314-329 | if deletions succeed, sparing the last evicted file would have left the target or more |
| ResolutionPolicies.AllowedNeedsEverySource | src/resolution_policy.rs:240-303 | under a limit, label and dimensions must both pass as far as they are known, and one must be known |
| ResolutionPolicies.AllowedByBoth | src/resolution_policy.rs:295-303 | passing two policies is passing the one with the stricter limit |
| ResolutionPolicies.PermittedFitsFrame | src/resolution_policy.rs:253-289 | a permitted picture fits the frame of the limit if and only if it is not larger than 4K |
| ResolutionPolicies.LabelDecides | src/resolution_policy.rs:22-31 | without dimensions a version is permitted if and only if its label, trimmed and in lower case, is one of those within the limit, listed by name |
| ResolutionPolicies.SizeDecides | src/resolution_policy.rs:253-289 | without a label it is permitted if and only if it has a size that fits the frame of the limit |
| ResolutionPolicies.ResolvedByFirstEntry | src/resolution_policy.rs:192-232 | the first entry of the account's UUID decides, or else the first of its name: limit and cap are that entry's own, and a title is hidden if and only if it is in the global list and not among the entry's visible ones; without an entry the defaults hold |
| ResolutionPolicies.MislabelledOversizePasses | src/resolution_policy.rs:253-278 | an 8K file labelled 1080 passes a 1080 limit |
| ResolutionPolicies.RuleOrderIrrelevant | src/resolution_policy.rs:192-232 | with no account listed twice, the order of the rules does not matter |
| PolicyTransform.FilterMediaRecursive | src/transform/resolution_policy.rs:162-171 | the in-place recursion computes the filtered tree |
| PolicyTransform.PruneChildren | src/transform/resolution_policy.rs:173-188 | the retain loop drops exactly the children that had versions or were playable and are left with none |
| PolicyTransform.FilteredKeepsNodes | src/transform/resolution_policy.rs:173-188 | every filtered list holds, in order, the children but those whose kind is movie, episode, clip or track, of which no version is permitted, and whose three filtered child lists are empty; no other field changes |
| PolicyTransform.ClearMediaRecursive | src/transform/resolution_policy.rs:191-203 | the in-place clearing computes the cleared tree |
| PolicyTransform.FilteredExact | src/transform/resolution_policy.rs:162-213 | flattening the filtered tree equals filtering the flattened tree: no permitted version is lost, no prohibited one kept, order unchanged |
| PolicyTransform.CountTellsRemoval | src/transform/resolution_policy.rs:204-213 | the version count drops exactly when a prohibited version was present |
| PolicyTransform.FilteredHasNoDeadLeaves | src/transform/resolution_policy.rs:173-188 | no playable leaf below the root is left without a version |
| PolicyTransform.FilteredCompose | src/transform/resolution_policy.rs:162-188 | filtering by one limit and then another gives the tree, nodes included, that the stricter limit gives |
| PolicyTransform.FilteredIdempotent | src/transform/resolution_policy.rs:162-188 | filtering twice changes nothing |
| PolicyTransform.ClearedHasNoVersions | src/transform/resolution_policy.rs:191-203 | failing closed leaves no version at any depth |
| PolicyTransform.ClearedKeepsNodes | src/transform/resolution_policy.rs:191-203 | clearing takes away no node |
| PolicyTransform.DroppedExactly | src/transform/resolution_policy.rs:112-156 | an item is dropped if and only if it has versions and none is permitted, or the account is unknown and the policy fails closed |
| PolicyTransform.ChangedExactly | src/transform/resolution_policy.rs:66-110 | a kept item is filtered for a restricted account, cleared when failing closed, and otherwise left alone |
| PolicyTransform.HiddenExactly | src/transform/resolution_policy.rs:224-236 | an item is hidden if and only if it is a collection or the hub of one and its trimmed title is in the account's hidden list |
| PolicyTransform.TransformedComplies | src/transform/resolution_policy.rs:68-156 | an item that was kept and changed complies with the account's access at every depth |
| ApplyTransforms.ContainerCell.RunItems | src/transform/mod.rs:141-167 | the index loop with in-place removal terminates and equals filter-then-change of the exposed list, moving on exactly when a list empties |
| ApplyTransforms.ContainerCell.ApplyTo | src/transform/mod.rs:137-184 | the whole method applies the transforms one after the other and then fixes the size |
| ApplyTransforms.ExposedExactly | src/models.rs:1752-1777 | which of the four lists is exposed and overwritten |
| ApplyTransforms.SizeCounts | src/transform/mod.rs:178-183 | a container with a size counts, up to the i64 maximum, the items it exposes; one without has none |
| ApplyTransforms.PolicyPassComplies | src/transform/mod.rs:137-184 | after the policy transform everything complies if and only if the lists it did not reach complied before |
| ApplyTransforms.SingleListComplies | src/transform/resolution_policy.rs:68-156 | with one populated list nothing prohibited is left at any depth |
| ApplyTransforms.SecondListEscapes | src/models.rs:1766-1777 | with two populated lists a prohibited item can remain |
| ApplyTransforms.SurvivingExact | src/transform/resolution_policy.rs:68-156 | the versions shown are exactly the permitted ones of the kept items |
| ApplyTransforms.PassesCompose | src/transform/resolution_policy.rs:68-156 | two policy passes over a list equal one by the stricter limit |
| Selection.AreaNeverOverflows | src/playback_selection.rs:12-24 | the checked product of two i64 never overflows a u128: it is missing only for negative factors |
| Selection.BestFitIsFirstBest | src/playback_selection.rs:20-34 | the first version minimal in unknown size, distance, lower resolution; none only without versions or with a negative screen |
| Selection.FallbackIndexes | src/playback_selection.rs:39-61 | the collect-and-sort loop computes the specified order |
| Selection.FallbacksAreRanked | src/playback_selection.rs:39-61 | exactly the eligible original indexes, by descending density, ties in Plex's order |
| Text.ParsesExactly | src/routes.rs:2913-2917 | which texts are read as which numbers: digits after at most one sign, within the bounds of the type |
| Selection.RequestedIndexExactly | src/playback_selection.rs:5-10 | absence and -1 mean the first version, a printed number means itself |
| Selection.DensityIsArea | src/playback_selection.rs:12-16 | the density is the area of a version with two known sides that are not negative |
| Selection.DensityAtExactly | src/playback_selection.rs:57-59 | an unknown density counts as zero when fallbacks are ranked |
| Selection.DistanceIsGap | src/playback_selection.rs:28-30 | the distance of two areas is their gap in either direction |
| Selection.EqualUpToCase | src/playback_selection.rs:48-51 | labels are compared up to the case of ASCII letters alone |
| Selection.BestAllowedExists | src/resolution_policy.rs:317-325 | a version is chosen if and only if one is permitted, and it is permitted |
| BestPermitted.BestAllowedIsFirstClosest | src/resolution_policy.rs:317-339 | the choice is the earliest permitted version with the least key, and that is the earliest of the closest to the screen, or of the largest without one, as long as every permitted version is measurable |
| BestPermitted.ChoiceIsClosestExactly | src/resolution_policy.rs:317-339 | with a screen to which some permitted version is measurable, the choice is the earliest of the closest if and only if it is measurable, that is, if and only if every unmeasurable version's key comes after that of a measurable one |
| BestPermitted.LargestIsChosenExactly | src/resolution_policy.rs:317-339 | without a screen the largest permitted version is chosen if and only if its area, reduced to 64 bits, is still the largest of the permitted ones; if its area fits, only those that do not can outdo it |
| BestPermitted.KeyIsDistance | src/resolution_policy.rs:327-337 | with a screen the wrapping key is the distance if and only if the distance fits an i64 |
| BestPermitted.KeyIsSize | src/resolution_policy.rs:327-337 | without a screen it is the negated area if and only if that fits an i64 |
| BestPermitted.BestAllowedIsLargestFitting | src/resolution_policy.rs:314-339 | the choice is the largest permitted version that fits the screen, as the comment announces, if and only if no permitted version above the screen is as close |
| BestPermitted.NothingFitsStillChooses | src/resolution_policy.rs:314-339 | when nothing permitted fits the screen, a larger version is chosen if one is permitted |
| BestPermitted.LargerThanScreenIsChosen | src/resolution_policy.rs:314-339 | a version larger than the screen is chosen although a smaller one fits |
| BestPermitted.WrappingChoosesAnother | src/resolution_policy.rs:327-337 | an area of 2^64 wraps, and a version is chosen that is not the closest |
| Playback.EnforceSelects | src/routes.rs:2846-3044 | the policy handler refuses exactly when nothing is permitted, otherwise leaves a permitted version selected, and keeps a permitted explicit choice |
| Playback.BitrateIsCapped | src/routes.rs:2909-2935 | afterwards the requested bitrate is the smaller of the old one and the cap, an absent or malformed one becoming the cap |
| Playback.SelectionKeepsChoice | src/routes.rs:2450-2588 | automatic selection and quality forcing leave an explicit choice alone |
| Playback.KnownPolicyNeverEscapes | src/routes.rs:2765-2799 | a fallback that knows the policy never switches to a prohibited version |
| Playback.FallbackStaysWithin | src/routes.rs:2687-2833 | the fallback leaves a permitted selection within policy if and only if it is not due, or the densest version with another label, as far as the policy it knows goes, is permitted |
| PlaybackRequests.PlaybackStaysWithinPolicy | src/auth/context.rs:147-217 | over every history of reload requests before and during a playback request, every subset of handlers and all answers, a restricted account that gets through has an existing version selected that is permitted by the policy in force when the request came in, and is refused by policy only if there is none |
| PlaybackRequests.StateIsLeftExactly | src/auth/context.rs:82-88 | whatever reloads come between, handlers that enforce the policy find a security state if and only if the path is one the middleware protects, as all playback paths are |
| PlaybackRequests.FailsClosed | src/routes.rs:2846-2960 | while the policy fails closed, an account that cannot be identified, or a restricted one whose item cannot be loaded, is refused with the source's status |
| PlaybackRequests.PlaybackPaths | src/routes.rs:220-230 | the paths of the decision, start and subtitle routes |
| PlaybackRequests.StartAnswers | src/routes.rs:224-250 | a start or subtitle request is refused as the policy handler says or goes through the optional handlers |
| Playback.PipelineStaysWithinPolicy | src/routes.rs:220-258 | the handlers alone, for every subset of them, all answers and any security state: a restricted request that gets through names an existing permitted version, if and only if it is not the case that no security state was left, the pinned version has the fallback label and would be transcoded, and the densest other version is prohibited |
| Playback.StartStaysWithinPolicy | src/routes.rs:228-256 | the routes without fallback leave every restricted request that gets through within policy, with no exception |
| Playback.AutoSelectPicksBestFit | src/routes.rs:3049-3131 | the version asked for is the best fit exactly when the client left the choice open; otherwise no lookup changes, and an explicit bitrate keeps its direct-play setting |
| Playback.FallbackSwitchesToDensest | src/routes.rs:2687-2833 | the fallback asks for the densest eligible version, first among equals, or changes no lookup |
| Playback.ForceMaximumAsksForOriginal | src/routes.rs:2450-2588 | quality forcing either changes no lookup or leaves no bitrate and asks for direct play |
| Playback.FallsBackToDirectStream | src/routes.rs:1673-1754 | direct play is turned off and direct streaming on exactly when direct play was left on and Plex answers with code 2000 or status 400; another failure is passed on, and nothing else changes |
| PlaybackAnswers.KnownPolicyVerdict | src/routes.rs:2903-3043 | for which restricted requests the policy handler answers 503, 502, 403 or goes on |
| PlaybackAnswers.PolicyVerdict | src/routes.rs:2852-2899 | what it answers without the policy, for an unidentified account, and without a security state |
| PlaybackAnswers.CapsExactly | src/routes.rs:2909-2935 | a bitrate above the cap, or none that can be read, is replaced by the cap under one name, and nothing else changes |
| PlaybackAnswers.PolicyTouchesOnly | src/routes.rs:2903-3043 | the policy handler changes nothing but the version and the bitrate |
| PlaybackAnswers.ForcesExactly | src/routes.rs:2450-2588 | the value of every parameter after quality forcing, and the resolution dropped exactly for a version to be played directly |
| PlaybackAnswers.SelectionIsWired | src/routes.rs:237-250 | which of the two optional handlers run, version selection first |
| PlaybackAnswers.FallbackVerdict | src/routes.rs:2687-2763 | the transcode fallback fails exactly when a version with its label is played, there is another, and Plex does not say whether it would transcode |
| PlaybackAnswers.DecisionVerdict | src/routes.rs:220-258 | how a decision request ends, by the first handler that refuses or fails |
| Playback.FallbackNeedsSecurityState | src/routes.rs:2765-2799 | that exception is not empty: the fallback handler looks no policy up for itself and relies on the state that the middleware leaves on all its paths (StateIsLeftExactly) |
| Playback.UnparsableUriIsNotRewritten | src/utils.rs:86-97 | without a parsable URI no handler changes the query |
| PlaybackHandlers.Request.ReplaceQuery | src/utils.rs:86-97 | the loop over the multimap leaves the first value of every name |
| PlaybackHandlers.Request.EnforceResolutionPolicy | src/routes.rs:2846-3044 | the handler as it edits the request computes the specified outcome and query |
| PlaybackHandlers.Request.AutoSelectVersion | src/routes.rs:3049-3131 | likewise for automatic selection |
| PlaybackHandlers.Request.ForceMaximumQuality | src/routes.rs:2450-2588 | likewise for quality forcing, with its loop over resolutions |
| PlaybackHandlers.Request.VideoTranscodeFallback | src/routes.rs:2687-2833 | likewise for the transcode fallback |
| PlaybackHandlers.Request.FallBackToDirectStream | src/routes.rs:1673-1754 | likewise for the direct-stream fallback |
| PlaybackHandlers.Request.Decision | src/routes.rs:220-258 | the handlers run in their wired order leave every restricted request that gets through within policy |
| Models.ChildrenExactly | src/models.rs:1448-1470 | which of the three lists is read and overwritten, and the size that is set |
| Models.SetChildrenStores | src/models.rs:1448-1470 | a non-empty list is read back after being set if and only if there was a non-empty list to overwrite |
| Interleaving.InterleaveAlternates | src/transform/hub_interleave.rs:56-60 | where each element of both lists ends up |
| Interleaving.InterleaveKeepsOrder | src/transform/hub_interleave.rs:56-60 | neither list is reordered |
| RowMerge.InterleaveHubs | src/transform/hub_interleave.rs:25-64 | the loop that grows and overwrites rows computes the fold over hubs with a size |
| RowMerge.TransformHubs | src/transform/hub_interleave.rs:13-68 | the transform replaces the exposed list, if there is one, by the rows |
| RowMerge.LoopGroups | src/transform/hub_interleave.rs:25-64 | the loop equals grouping by definition: the first hub of a title leads, every later keyed collection hub of it joins in order, for all inputs, keyless hubs included |
| RowMerge.MergingCanBeOff | src/transform/hub_interleave.rs:13-68 | switched off the transform changes nothing; without hubs it changes the size alone |
| RowMerge.SizeExactly | src/transform/hub_interleave.rs:25-28 | a hub is dropped if and only if its size is zero or unknown |
| RowProperties.FoldRowChildren | src/transform/hub_interleave.rs:41-61 | a row shows its lists interleaved, or nothing if it started with nothing |
| RowProperties.MergedSizeCounts | src/models.rs:1448-1458 | the size of a merged row counts its items |
| RowProperties.MergingConservesItems | src/transform/hub_interleave.rs:25-64 | nothing is added, and the multiset of items is unchanged if and only if no hub with items joins a row led by one without |
| RowOrder.MergingKeepsOrder | src/transform/hub_interleave.rs:25-64 | the titles of the rows are, in order, those of the hubs that do not join the leader of their title among the hubs before them; collection rows have distinct titles when hubs have keys |
| RowOrder.MergingShowsHubs | src/transform/hub_interleave.rs:41-61 | every hub that joins a row has its items in the row of its title, in their order, if and only if no hub with items joins a row led by one without; in that case every hub has |
| RowProperties.MergingKeepsBuiltIns | src/transform/hub_interleave.rs:31-64 | built-in hubs stay unchanged and in order if and only if no collection hub joins one |
| RowProperties.MergedContainerShowsGroups | src/models.rs:1752-1764 | the container shows exactly the groups and its size counts them |
| RowProperties.ContainerConservesItems | src/transform/hub_interleave.rs:25-66 | all items of the container are still shown if and only if no hub without a size has items and no hub with items joins a row led by one without |
| RowProperties.FilmIsLost | src/models.rs:1448-1458 | two hubs of one title of which the second's only film is shown nowhere |
| RowProperties.BuiltInAbsorbs | src/transform/hub_interleave.rs:31-64 | the two orders of a built-in and a collection hub of one title: merged, and separate |
| RowKeys.StripCollectionKey | src/utils.rs:325-341 | stripping a collection key gives back its ids |
| RowKeys.StripBothForms | src/utils.rs:325-341 | both spelled-out forms of a collection's key are stripped down to its ids |
| RowKeys.ParsePrintedIds | src/routes.rs:2265-2268 | the id parser undoes printing: same ids, same order |
| RowKeys.FoldPrintsIds | src/utils.rs:325-341 | folding the keys of n collections, in either form, prints all their ids in order |
| RowKeys.RouteFindsIds | src/routes.rs:386 | a prefixed row key is routed back to the ids in it |
| RowKeys.RoutesExactly | src/routes.rs:386 | a path is routed to the ids if and only if it has the form of a row's key with some style |
| RowKeys.KeysExactly | src/transform/hub_key.rs:13-43 | only the key of a hub that has one and does not point to the proxy changes, by its style's prefix or the default one |
| RowKeys.HubKeyedOnce | src/transform/hub_key.rs:13-43 | a key that points to the proxy already is left alone, so applying the transform again changes nothing |
| RowPaging.InterleaveLibrary | src/transform/library_interleave.rs:20-103 | the paging loop interleaves the readable collections in order and its 32-bit total counts the items shown |
| RowPaging.ListedExactly | src/transform/library_interleave.rs:77-85 | a collection in one list contributes its items in order, without exactly the watched ones when these are excluded |
| Models.WatchedExactly | src/models.rs:1398-1415 | when an item counts as watched |
| Models.CollectionHubExactly | src/models.rs:1305-1330 | which hubs are those of a collection |
| RowPaging.MergedKeyNamesIds | src/utils.rs:325-341 | the key of a merged row, prefixed, routed and parsed, gives the collections' ids in order |
| RowPaging.PageRebuildsRow | src/transform/library_interleave.rs:89-97 | the page equals the row if and only if the row did not start empty before a collection with items |
| RowPaging.MergedRowIsRebuilt | src/transform/library_interleave.rs:89-97 | following a merged row's key shows the same items in the same order |
| LibraryKeys.SameCanonicalPath | src/routes.rs:569-589 | canonical paths are equal if and only if the paths and the multisets of lower-cased significant parameters are |
| LibraryKeys.NoiseNeverSplits | src/routes.rs:541-589 | adding a parameter anywhere leaves the key alone if and only if its name, in any case, is one of the three that shape fields, or starts with `x-plex-` and is neither of the two that choose a page |
| LibraryKeys.ValuesSplitExactly | src/routes.rs:541-589 | two requests that differ in one value share a key if and only if the name is one of the three that shape fields, or starts with `x-plex-` and is neither of the two that choose a page |
| LibraryKeys.OrderNeverSplits | src/routes.rs:569-589 | reordering parameters never changes the key |
| LibraryKeys.LowerCaseNeverSplits | src/routes.rs:569-589 | nor does the case of a name |
| LibraryKeys.NormalizedOnce | src/routes.rs:596-624 | normalising the fetch is idempotent |
| LibraryKeys.NormalizedExactly | src/routes.rs:596-624 | exactly the three parameters that shape fields are dropped |
| LibraryKeys.NormalizedKeepsCanonical | src/routes.rs:596-624 | normalising the fetch keeps the canonical path |
| LibraryKeys.LookupAndStoreAgree | src/routes.rs:640-678 | lookup and store use one key, whatever order the multimap iterates in, if and only if the request carries one token |
| LibraryKeys.TwoSpellingsSplit | src/routes.rs:656-668 | any two spellings of the parameter with different values split the two keys |
| LibraryKeys.TwoSpellings | src/routes.rs:664-668 | there are two such spellings |
| LibraryKeys.ReadsExactly | src/routes.rs:640-668 | the token read is the header's, or the first value under one of the spellings of its name; there is none only without either |
| PolicyStores.RequestsAreReloads | src/routes.rs:3329-3360 | any history of reload requests is the history of those accepted, and never switches the policy on or off |
| PolicyStores.PolicyStore.RequestReload | src/routes.rs:3340-3359 | an unreadable configuration and one that would switch the policy on or off are refused and change nothing; any other replaces the snapshot |
| PolicyStores.AnswersExactly | src/routes.rs:3340-3359 | which requests are answered 400, 409 or with the new snapshot |
| PolicyStores.AccessExactly | src/transform/resolution_policy.rs:16-62 | while the policy is off everything is shown unchanged; while it is on an account is given its own policy, or what the snapshot says if it cannot be identified |
| PolicyStores.GenerationTellsSnapshot | src/policy_store.rs:45-54 | over any history of reloads the generation strictly grows, two snapshots are the same if and only if their generations are, and each is of the configuration loaded last |
| LibraryCache.StepRefines | src/routes.rs:690-782 | a step keeps entries raw upstream payloads or unparsable, and answers as the uncached route |
| LibraryCache.CacheRefinesRoute | src/routes.rs:690-782 | the cached route answers as the uncached one under the policy of the moment over every run of one-token requests, reloads, lost and damaged entries and failed writes, if and only if Plex gives readable listings of that route no success status but 200 |
| LibraryCache.StoredExactly | src/routes.rs:750-782 | after a miss the answer is stored if and only if the route is that of sections, the status is from 200 to 299, there is a body and the write goes through |
| LibraryCache.EntryServesOrGoes | src/routes.rs:690-748 | an entry that can be read serves and stays; one that cannot is dropped before the fetch |
| LibraryCache.FaultsHitOne | src/routes.rs:700-748 | a lost entry is gone and a damaged one unreadable, and no other entry changes |
| LibraryCache.TwoTokensMisfile | src/routes.rs:656-678 | a request with two tokens, answered for one and stored under the other, is what a request of the other account is shown |
| LibraryCache.OtherSuccessIsServedTwoWays | src/routes.rs:750-782 | the exact two responses to a readable answer with another success status |
| LibraryCache.ShownListingComplies | src/routes.rs:1781-1822 | a shown listing complies with the account's access at every depth, for payloads with one list |
| LibraryCache.LibraryRoute.Handle | src/routes.rs:690-782 | the handlers as they run make exactly that step for any readings of the token, storing under the key recomputed after normalising, and refine the uncached route for one-token requests |
| HubRefresh.StepKeepsInv | src/hub_cache.rs:101-155 | every step of refreshes, warmer passes and foreground requests keeps one holder per key and the in-flight set equal to the held keys |
| HubRefresh.SingleFlight | src/hub_cache.rs:101-155 | in every reachable state at most one task is between claim and release of a key, and the in-flight set is exactly those keys |
| HubRefresh.OnlyHoldersRelease | src/hub_cache.rs:404-443 | only the holder of a key releases it; a failed claim releases nothing |
| HubRefresh.FailedFetchesKeepEntry | src/hub_cache.rs:135-155 | however many fetches of a key fail, its payload and age stay as they were |
| HubRefresh.PayloadsStay | src/hub_cache.rs:92-97 | a payload stays there to serve until it is evicted |
| HubRuns.RefreshStores | src/hub_cache.rs:101-155 | from any state: a due refresh of a free key records its attempt, leaves payload and age, and gives the key back |
| HubRuns.RefreshFails | src/hub_cache.rs:101-155 | without an answer nothing but the attempt is left |
| HubRuns.RefreshIsSkipped | src/hub_cache.rs:107-125 | one attempted less than 60 seconds ago, or on a key in flight, changes nothing |
| HubRuns.WarmerStores | src/hub_cache.rs:404-441 | the warmer fetches a free key whenever it was attempted, and records no attempt |
| HubRuns.WarmerGoesOn | src/hub_cache.rs:404-441 | a pass goes on to its next key, in order, when one is done or held by somebody else |
| HubRuns.RequestStores | src/routes.rs:1996-2010 | a foreground fetch stores whoever holds the key; without an answer, or without its client, it changes nothing |
| HubRuns.FreshForItsAge | src/hub_cache.rs:77-90 | a stamped payload counts as fresh for exactly its maximum age, over every run that leaves its age alone |
| HubRuns.EvictionTakesOne | src/hub_cache.rs:29-36 | eviction takes one entry of one table |
| HubFreshness.StaleUntilStamped | src/hub_cache.rs:77-97 | after a playback change every key counts as stale until an age is recorded for it, over every run, and unless evicted its payload is there to serve all the while |
| HubFreshness.FreshAfterChangeIsNew | src/hub_cache.rs:77-155 | from any reachable state, whatever follows a playback change, an entry that counts as fresh holds a payload whose fetch began after the change, if and only if at the change no fetch of the key was under way and no payload of it, nor the age of one that is there, about to be written, by refreshes, the warmer or requests |
| HubFreshness.LateStampLooksFresh | src/hub_cache.rs:135-155 | a run at whose end a payload fetched before the change counts as fresh for every maximum age |
| HubAttempts.AttemptsAreSpaced | src/hub_cache.rs:107-117 | in every reachable state a refresh about to record an attempt is within a minute of another on its key if and only if that other was made after its check or had been forgotten by then |
| HubAttempts.AttemptsAreSpacedExactly | src/hub_cache.rs:107-117 | over every run, attempts on one key are a minute apart if and only if no refresh recorded one while such an attempt was overlooked |
| HubAttempts.AttemptsCanCollide | src/hub_cache.rs:107-117 | a run of two refreshes that both check before one claims, with two attempts in the same second |
| HubAttempts.ForgottenAttemptIsRepeated | src/hub_cache.rs:107-117 | a run with two attempts in the same second, the first one forgotten before the second check |
| Jobs.JobSupervisor.TryStart | src/jobs.rs:35-45 | a start succeeds exactly when the job is neither cooling down nor running |
| Jobs.StepAnswers | src/jobs.rs:35-52 | a call within 3600 seconds of a start or while the job runs changes nothing, any other starts it; its end takes it out of flight and leaves the cooldown |
| Jobs.MayStartExactly | src/jobs.rs:35-43 | a job may start if and only if it is not in flight and 3600 seconds have passed since its last start |
| Jobs.StartsAreSpaced | src/jobs.rs:35-52 | between two atomic starts of a job it was finished and an hour has passed, whatever calls come between |
| Jobs.RestartsAfterCooldown | src/jobs.rs:35-52 | a finished job restarts if and only if its hour is over, however busy other jobs are |
| JobCalls.ClaimsWithinHourAreOvertaken | src/jobs.rs:35-45 | in every reachable state of overlapping calls, a claim comes within an hour of a start of its job if and only if that start was recorded after the call had looked |
| JobCalls.StartsAreSpacedExactly | src/jobs.rs:35-52 | over every run of overlapping calls, starts of one job are an hour apart if and only if no claim succeeded that had been overtaken in that way |
| JobCalls.RunningBlocksStarts | src/jobs.rs:39-43 | over every run of overlapping calls, no call starts a job that is in flight until it is finished |
| JobCalls.ClaimAnswers | src/jobs.rs:35-45 | a call on a job that is not cooling down is refused if it is in flight and starts it otherwise |
| JobCalls.CoolingCallIsRefused | src/jobs.rs:36-38 | a call on one that is cooling down is over when it has looked |
| JobCalls.CallsEnd | src/jobs.rs:35-45 | a call answers once |
| JobCalls.OverlappingCallsBothStart | src/jobs.rs:35-45 | a run of two calls with two starts in the same second |
| HubKeys.ListsAgree | src/routes.rs:1851-1862 | two id lists count as the same if and only if they hold the same ids |
| HubKeys.CollectParts | src/routes.rs:1841-1865 | the collecting loop computes the specified parameters |
| HubKeys.KeyDeterminesFetch | src/routes.rs:1830-1914 | for delimiter-free values equal keys have equal upstream paths |
| HubKeys.FetchKeepsPath | src/routes.rs:1910-1914 | cutting the key at its question mark gives back the path of the request |
| HubKeys.FetchAsks | src/routes.rs:1879-1914 | Plex is asked for the parameters of the key in their order and original spelling, and always for guids and fifty items |
| HubKeys.ListOrderSharesEntry | src/routes.rs:1830-1914 | reordering an id list changes neither key nor fetch |
| HubKeys.LowerNameSharesEntry | src/routes.rs:1834-1838 | nor does the lower-case spelling of a parameter |
| HubKeys.HubNamesAreDistinguishable | src/routes.rs:1841-1846 | the four parameters meet the condition of these results |
| HubReadings.KeyIsSharedExactly | src/routes.rs:1866-1877 | the text of a key belongs to two different lists of parameters if and only if the delimiter followed by the name of a later parameter occurs in it |
| HubCollisions.FetchTellsParts | src/routes.rs:1879-1914 | requests with one key have one upstream path if and only if they have the same parameters |
| HubCollisions.CollidesExactly | src/routes.rs:1830-1914 | a request shares its key with one that fetches something else if and only if its parameters have another reading, of the computed finite set, that is in canonical form |
| HubCollisions.CollidesWhenMarked | src/routes.rs:1830-1914 | this takes the delimiter followed by the name of a later parameter, and for values without commas it takes no more |
| HubCollisions.SmuggledParameterCollides | src/routes.rs:1830-1914 | for any two parameters and any comma-free values, two parameters and one that carries the second in its value have one key and two fetches |
| HubCollisions.HubRequestsCollide | src/routes.rs:1830-1914 | so it is for the two directory parameters among the four of a hub request |
| XmlAttrs.Parse | src/plex_client.rs:798-816 | the loop ends on every string and computes the specified map |
| XmlAttrs.ParseUndoesPrint | src/plex_client.rs:798-816 | parsing undoes printing of any double-quoted attributes with any white space section 3.1 of XML 1.0 allows, ignoring a trailing slash |
| XmlAttrs.LastAttributeWins | src/plex_client.rs:798-816 | a name means the value of its last attribute |
| PartFacts.FactDecidesLikeMedia | src/plex_client.rs:43-65 | a stored fact decides what the version would: permitted and within the cap, an unknown bitrate failing closed |
| PartFacts.PartCache.CachePartClassification | src/plex_client.rs:103-113 | the nested loops record every part of every version, later ones winning |
| PartFacts.DecisionIsFresh | src/routes.rs:1171-1292 | over every run of recordings, reloads and evictions the decision is the current policy's on the version recorded last, a caller that cannot be identified included |
| PartFacts.DecidesExactly | src/routes.rs:1068-1292 | that decision: whom it refuses with which answer, what it delivers, and that only what is not restricted is ever redirected to Plex |

## Left out

- HTTP transport, routing, CORS, TLS, compression, logging and metrics: plumbing over libraries that are not part of this model.
- The upstream host that src/auth/context.rs picks for each request: a single upstream is assumed; the library's cache keys do not name the host.
- Identity calls to plex.tv and the webhook parser: an identity, or its failure, is an input.
- Printing and parsing of URLs: a query is its list of decoded pairs; a path that URL parsing would rewrite, and the fallback for one that does not parse in `canonical_library_path`, are not modelled.
- The web framework's own caching of a parsed query: each handler reads the query the one before it left.
- SHA-256 and the token hash: cache keys are taken to be injective in what they are made from.
- `hub_cache_key` prefixes the key with the account's scope or a shared one, and `shape_canonical_hubs` trims rows per request: one branch and a truncation.
- The photo cache, poster warming and artwork labels: a second cache of the same design as the library's, and request tables.
- Hero styling, user state, hub limits, collection restrictions and scripting transforms: branchy but shallow.
- `mediaBufferSize` and `X-Plex-Client-Profile-Extra` rewriting in `force_maximum_quality`: parameters of the model, since they involve floating point and do not touch the selected version. Bitrates after that handler are removed by design.
- Unicode lower-casing of configured resolutions: ASCII lower-casing is used, except where a literal could tell the difference.
- Metadata trees are owned values in the source, so the recursive methods return the new tree instead of writing through a reference; aliasing does not arise.
- `remove`, `ensure_capacity` and `clear_all` running at the same time as commits: they do not take the commit lock, so exact accounting is not claimed for such overlaps.
- CommitProtocol.CommitsAreSafe: a write or removal still under way when its caller goes away counts as not going on, since it touches that writer's own temporary file alone; assumes that a process makes fewer than 2^64 writes, and that the disk holds less than 2^64 bytes.
- DiskCache.Cache.EnsureCapacity: the directory walk sees every file once; entries whose metadata cannot be read, and files that appear during the scan, are not modelled.
- PolicyStores.GenerationTellsSnapshot: the generation does not wrap at 2^64.
- Capacity eviction of the job cooldown table, and expiry times of hub payloads: the hub tables may forget any key at any time, the cooldown table only when the hour is over.
- The touch on read that sets a file's modification time (src/disk_cache.rs:172-181): modification times are an input of eviction.
- The library pages that the warmer stores (src/hub_cache.rs:523-593): the library cache is filled by its own route alone.
- Jobs.JobSupervisor.TryStart: a call dropped between its two insertions (src/jobs.rs:39-43), which would leave the job running for good, is not modelled.
- PlaybackRequests.PlaybackStaysWithinPolicy: the path that the router matches is the one the middleware looks at, and administrators' requests alone count as reload requests.
- HubRefresh.SingleFlight: a task that panics between claim and release would leave its key in flight; panics are not modelled.
- Jobs.StartsAreSpaced: each call is atomic; for overlapping calls see `StartsAreSpacedExactly`.
- Playback.PipelineStaysWithinPolicy: the lookups one request makes either fail or find the same versions of the item; a library edit in between is not modelled.
- LibraryCache.CacheRefinesRoute: requests that carry one token (for the others see `TwoTokensMisfile`); a reload takes effect between requests, upstream depends on the token and the significant parameters alone, and a body that cannot be read in full counts as an upstream failure.
- XmlAttrs.ParseUndoesPrint: raw attribute text; the parser resolves no character references and knows no single quotes, and its caller cuts the tag at the first `>` even inside a value.
- BestPermitted.BestAllowedIsFirstClosest: arithmetic wraps as in release builds; debug builds would stop instead.
- RowPaging.InterleaveLibrary: the cast of an id above 2^31 to a signed number when asking for the collection itself is not modelled.
