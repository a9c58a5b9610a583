# Verified model of the commit log's maintenance and recovery code

The log is a list of segments, oldest first, the last one active. A segment holds records
in ascending offset order; a record has an offset, a timestamp, an optional key and value,
headers, control and tombstone bits and a flag saying whether its stored checksum matches.
The model covers the code whose guarantees are hardest to see from one function at a time:

- **Compaction** (`DropSet`, `KeyDigest`, `MergeDigests`, `CleanRules`, `CleanSegment`,
  `CompactPass`, `CompactSafety`, `CompactFloor`, `CompactRuns`, `Compactor`). A pass is a
  relation over every pattern of budget answers, read-only tiers and failures; the method
  `Compactor.Compact` is shown to take only steps of it. The safety theorems quantify over
  all such steps, and `CompactRuns` over all runs of appends, rolls and passes.
- **Leader epochs** (`EpochCache`, `EpochLog`). The sparse history of epochs agrees with the
  tenure of every held record over appends with holes, new leaderships and truncations.
- **Tiers** (`TierManifest`, `TierMove`, `TieredLog`, `TieredJoin`). Manifests of all tiers
  merge at open; moves, republishes and tiered joins are sequences of store writes with a
  crash allowed after each.
- **Local files** (`Overlap`, `Join`, `JoinStage`, `CrashRecovery`). Planning and carrying
  out joins, truncating the front, and the resolution of overlaps at open.
- **Protocols** (`GroupCommit`, `IndexCache`). The group-commit barrier as a state machine
  of all its callers; the pinned index cache as critical sections.
- **Formats** (`Varint`, `BlockRecords`, `BlockCursor`, `BlockHeader`, `BlockV3`, `Framing`,
  `TwoFormats`, `Batch`). The version-3 block codec, and its agreement with version-2
  stamping for whole batches.
- **Reads by prefix** (`PrefixSpec`, `PrefixScan`, `PrefixDigest`, `PrefixFetch`,
  `PrefixSource`) and **retention** (`Retention`, `RetentionSuffix`).

Clocks, budgets, store and disk failures, checksums and compression are parameters.
`dafny verify dfyconfig.toml` checks the project.

## Where the code does not do what it says

Each is stated as an exact condition, with a concrete run or input where it fails, or for
the republish every state of a given kind.

- The strip stamp a rewrite writes does not look at the ceiling and does not look inside
  blocks carried whole (`StampTruth`, `StampIgnoresCeiling`, `StampMissesWholeBlock`); the
  verified floor does not look at the ceiling either (`FloorExact`, `FloorIgnoresCeiling`).
  The comment on `CleanSpec.StripBelow` says a boundary above the ceiling costs nothing.
- A deleted key comes back when an older copy lies inside the age horizon and its tombstone
  does not (`CollectedExactly`, `MisdatedCopyReturns`); ordered timestamps exclude it
  (`TimeOrderedSafe`).
- The probe for epoch 2^64-1 wraps to epoch 0 (`LastEpochProbe`, `LastEpochWrong`).
- Republishing every tier after a move that did not release its source, which the comment
  in `cleanPass` says puts every tier back into agreement, is refused at open after a crash
  in the middle of it unless the source comes before the destination in the configured
  order (`RepublishExact`, `InterruptedRepublish`, `DestinationFirstRefused`).
- `SyncAll` takes a segment's dirty mark before its fsync ends, so a concurrent `Sync` can
  return nil for a record that is not durable (`SkipExact`, `SyncAllRace`).
- The download of an index creates its file under a name made from the key alone. If an
  invalidated entry of that key is still held when the file is created, the index in use is
  truncated under its reader (`Create`, `HeldPredecessor`); if that entry is released during
  the download, the file being written is unlinked and a blank index is opened and served in
  its place (`Load`, `BlankIndex`). If none is open at that moment, every open entry reads its
  own object from then on.
- `Restamp` undoes `Strip` only for blocks whose transactional flag matched their nonce and
  that were not stripped already (`RestampUndoesStrip`, `RestampMarks`).
- A scan notices failed checksums on superseded records that a planned read never fetches
  (`RoutesAgree`, `RoutesDiffer`).
- Retention keeps a suffix of each half of the log, and comments on tier runs call anything
  else a hole in the middle; but local limits do not look at the tiered half. A clean without
  failures leaves one suffix of the whole log if and only if nothing is tiered, the local
  limits are met or the floor is in the oldest local segment, or the limits and the floor let
  every run of the tiered half go (`OneSuffix`, `HoleInTheMiddle`).
- A segment moved back to the tier it came from before that tier has released it leaves two
  claims that name each other, which the merge at open refuses (`CommitExact`,
  `MovedBackTooSoon`).

## Model

| member | source | states |
|---|---|---|
| CleanRules.Outcome | compact_cleaner.go:736-775 | What a rewrite leaves of a record differs from it at most in headers, which only go. |
| CleanRules.StripRecord | compact_cleaner.go:1254-1311 | Stripping removes only headers, leaves none of the named ones on a sound record, and changes exactly the records that carry one. |
| DropSets.SettingOneBit | compact_cleaner.go:132-143 | Setting a bit of a word sets that bit and no other. |
| DropSets.DropSet.Set | compact_cleaner.go:132-143 | A set offset joins the marked set if it is in the bitmap's range, and the count grows exactly when it was not marked. |
| DropSets.DropSet.Get | compact_cleaner.go:144-153 | The bit of an offset is set exactly when it was marked. |
| KeyDigests.BuildKeyDigest | keydigest.go:108-187 | The digest of a segment lists, by key in sorted order, exactly its keyed data records, and exactly its unkeyed records and markers. |
| KeyDigests.SortKeys | keydigest.go:108-187 | The keyed section is sorted and holds every key once. |
| MergeDigests.SmallestKey | compact_cleaner.go:481-611 | The next key of a merge step is least among the unread ones. |
| MergeDigests.MarkKey | compact_cleaner.go:481-611 | One key adds to the bitmaps exactly its superseded copies and its newest when that is an expired tombstone. |
| MergeDigests.RemainingDecreases | keydigest.go:559-579 | The entries left to read fall with every key merged. |
| MergeDigests.Merge | compact_cleaner.go:481-611 | The streaming merge marks exactly the records dropped by the definition over the whole log, counts them, and flags exactly the segments with aborted, strippable and collectable records. |
| CleanSegments.CleanSegment | compact_cleaner.go:928-1051 | A rewritten segment holds the survivors of its records in order, with the stamp the scan earned, or nothing when none survive. |
| CleanSegments.RewrittenHolds | compact_cleaner.go:928-1051 | What the rewrite holds is the survivors, under the same base and tier. |
| CleanSegments.StampTruth | compact_cleaner.go:1030-1039 | The stamp is true of the survivors if and only if no target is pinned between ceiling and boundary and, unless residue was seen, none lies above the boundary in a block carried whole. |
| CleanSegments.StampTruthful | compact_cleaner.go:955-1039 | A boundary at or below the ceiling over mergeable blocks earns a true stamp. |
| CleanSegments.StampIgnoresCeiling | compact_cleaner.go:1030-1039 | A kept strip target under a stamp that denies it. |
| CleanSegments.StampMissesWholeBlock | compact_cleaner.go:833-926 | The same through a block carried whole. |
| CompactPass.DropsByRecord | compact_cleaner.go:191-233 | A record's offset is dropped exactly when the record is, by the definition over the log. |
| CompactPass.PassHolds | compact_cleaner.go:404-437 | After any step the log holds exactly what its records became. |
| CompactPass.PassValid | compact_cleaner.go:404-437 | Any step leaves a log, with its active segment untouched. |
| CompactSafety.CollectedExactly | compact_cleaner.go:246-402 | Only an expired tombstone is removed as newest, and its key is then gone if and only if no older copy is inside the horizon. |
| CompactSafety.LatestStays | compact_cleaner.go:191-402 | A newest value that is not removed stays newest. |
| CompactSafety.NoResurrection | compact_cleaner.go:191-402 | Every partial pass with write times in order leaves each key's newest value, or nothing for an expired tombstone. |
| CompactSafety.AbsentStays | compact_cleaner.go:191-402 | An absent key stays absent. |
| CompactSafety.MisdatedCopyReturns | compact_cleaner.go:216-233 | A pass over misdated records after which a deleted key is visible again. |
| CompactSafety.SkipSound | compact_cleaner.go:618-654 | A segment that may be skipped, with a true stamp, is one a rewrite keeps record for record. |
| CompactSafety.MarkersGoLast | compact_cleaner.go:246-371 | When a marker is removed nothing undecided is left below it, if and only if the horizon hid nothing undecided there. |
| CompactSafety.MarkersNeverOutrun | compact_cleaner.go:246-371 | With write times in order no data record below a removed marker carries a target header or is aborted. |
| CompactSafety.StampsAcrossPass | compact_cleaner.go:955-1039 | True stamps stay true across a pass if and only if every rewrite's stamp is true. |
| CompactFloor.FloorExact | compact_cleaner.go:404-457 | The floor is sound if and only if nothing between ceiling and floor that it does not examine is residual. |
| CompactFloor.FloorSound | compact_cleaner.go:443-457 | With strip headers and a boundary at or below the ceiling the floor is sound. |
| CompactFloor.FloorIgnoresCeiling | compact_cleaner.go:454-456 | A reported floor with a target header below it. |
| CompactFloor.SettledStays | compact_cleaner.go:155-458 | A settled prefix stays settled through every later pass. |
| CompactFloor.SecondPassKeeps | compact_cleaner.go:1040-1051 | After a complete pass every rewritable record is one a rewrite keeps as it is. |
| CompactFloor.SecondPassIdle | compact_cleaner.go:618-654 | After a complete pass a second under the same spec and clock changes no record, wherever it stops. |
| CompactRuns.EveryRun | compact_cleaner.go:155-458 | Over every run of appends of blocks of either kind, rolls and passes, each key reads as its newest appended record or, for a tombstone, possibly nothing, and every floor reported on true stamps still holds. |
| CompactRuns.CarefulRun | compact_cleaner.go:955-1039 | In every run whose appended blocks are mergeable and whose active strips stay at or below the ceiling, every strip stamp written is true. |
| CompactRuns.FloorsStand | compact_cleaner.go:404-458 | In every such run every floor a pass reports for strip headers holds at every later point. |
| CompactRuns.TimeOrderedSafe | segment.go:1967-1992 | Timestamps in offset order put segment write times in order, which is what the horizon needs. |
| CompactRuns.TimeOrderedStays | compact_cleaner.go:155-458 | A pass keeps them so. |
| Compactor.CanSkip | compact_cleaner.go:618-654 | The skip decision on a digest, branch for branch. |
| Compactor.DigestSkipsSegment | compact_cleaner.go:618-654 | On an accurate digest it is the decision about the segment. |
| Compactor.RewriteOrder | compact_cleaner.go:240-296 | Every wanted segment once, governing segments last, denser before sparser. |
| Compactor.RewritePhase | compact_cleaner.go:298-402 | Whatever the answers, a governing segment is rewritten only when everything before it was, and with all answers favourable everything is. |
| Compactor.ClassifySegment | compact_cleaner.go:216-233 | What the pass decides about a segment from its digest is the truth about its records. |
| Compactor.Assemble | compact_cleaner.go:404-437 | The new list in offset order and the end of its unbroken verified prefix. |
| Compactor.Compact | compact_cleaner.go:155-458 | Every pass is a step of the relation, reports the floor of that step or none on failure, and is complete when nothing stood in its way. |
| EpochCache.TrimmingLaw | leader_epoch_cache.go:234-283 | Trimming to a positive floor raises every answer to it and changes nothing else; a floor at or below zero changes nothing. |
| EpochCache.LeaderEpochCache.FindEpoch | leader_epoch_cache.go:314-322 | The binary search finds the first entry at or past an epoch. |
| EpochCache.LeaderEpochCache.LastOffsetForLeaderEpoch | leader_epoch_cache.go:190-198 | The answer for an epoch is the anchor of the first entry past it. |
| EpochCache.LeaderEpochCache.Assign | leader_epoch_cache.go:324-356 | An entry is added exactly when epoch and offset both fit after the last. |
| EpochCache.LeaderEpochCache.ClearLatest | leader_epoch_cache.go:209-224 | Exactly the entries anchored below the offset stay. |
| EpochCache.LeaderEpochCache.ClearEarliest | leader_epoch_cache.go:234-283 | The history becomes the trimmed one. |
| EpochLog.ProbeExact | commitlog.go:2297-2307 | For every epoch below 2^64-1 the probe is the greatest held offset of that tenure or earlier, or -1. |
| EpochLog.LastEpochProbe | leader_epoch_cache.go:190-198 | The probe for the last epoch is right if and only if the history is empty or its oldest anchor is the log end. |
| EpochLog.LastEpochWrong | leader_epoch_cache.go:190-198 | A log of one record in one epoch answers that probe with nothing. |
| EpochLog.AgreesAssign | commitlog.go:2269-2271 | Opening an epoch at the log end keeps history and tenures in agreement. |
| EpochLog.AgreesAppend | commitlog.go:1427-1484 | So does a record appended under the newest epoch. |
| EpochLog.AgreesTruncate | commitlog.go:2593-2763 | So does cutting both at an offset. |
| EpochLog.CheckAppendedSet | commitlog.go:1379-1416 | A set is accepted exactly when it is not empty, starts above the tail and ascends. |
| EpochLog.TenuredLog.constructor | leader_epoch_cache.go:88-120 | An empty log agrees with an empty history. |
| EpochLog.TenuredLog.Roll | commitlog.go:3195-3251 | Rolling changes no record and keeps the agreement. |
| EpochLog.TenuredLog.Append | commitlog.go:1427-1509 | An accepted set is added in order, each record under the newest epoch so far; a refused one changes nothing. |
| EpochLog.TenuredLog.NewLeaderEpoch | commitlog.go:2269-2271 | A new leadership is anchored at the log end when it is newer. |
| EpochLog.TenuredLog.Truncate | commitlog.go:2593-2763 | Exactly the records below the offset stay, with their tenures, and history agrees. |
| EpochLog.TenuredLog.LastOffsetForLeaderEpoch | commitlog.go:2297-2307 | Over every run the log's probe is exact for every epoch below 2^64-1. |
| TierManifests.MergeTierManifests | manifest.go:293-317 | The merge gives one winner per claimed segment and refuses exactly when some segment has none. |
| TierManifests.MergeUnique | manifest.go:293-317 | The manifests alone decide the merge, whatever the order of tiers. |
| TierManifests.PairResolves | manifest.go:332-358 | Of two claims, the one moved out of the other's tier wins, unless each names the other. |
| TierManifests.CrowdUnresolved | manifest.go:332-358 | Three claims are refused. |
| TierMoves.Recovery | manifest.go:293-317 | From a recoverable state the merge never refuses, names each segment once, and names objects that are all there with the segment's bytes. |
| TierMoves.PublishExact | manifest.go:175-271 | Rebuilding some manifests leaves the log recoverable if and only if no move into one of them awaits a release the write does not make. |
| TierMoves.RepublishExact | manifest.go:106-110 | A republish of every tier survives a crash after any write if and only if each unreleased source is rewritten before its destination. |
| TierMoves.CommitExact | tier_move.go:100-106 | The commit of a move leaves the log recoverable if and only if the segment was movable and no other move into that tier awaits its release. |
| TierMoves.MovedBackTooSoon | tier_move.go:99-122 | A concrete state in which a move back, committed before the first move is released, is refused at open. |
| TierMoves.CommitBacked | tier_move.go:108-116 | Before and after the repoint the log's view is one the manifests back. |
| TieredLogs.TieredLog.Put | copy_tier.go:158-172 | Storing an object under a fresh key leaves every state recoverable. |
| TieredLogs.TieredLog.Publish | manifest.go:250-271 | One manifest is replaced by the view's part of that tier, if the tier may be written to. |
| TieredLogs.TieredLog.CopySegment | tier_move.go:75-98 | Every object a segment has is copied under fresh keys, byte for byte. |
| TieredLogs.TieredLog.MoveSegment | tier_move.go:39-123 | Whatever fails and wherever a crash falls, every durable state on the way is recoverable; success leaves the segment claimed by the destination alone. |
| TieredLogs.TieredLog.MovePlaced | tier_move.go:183-217 | The same for a whole placement; success puts every placed segment in its tier and moves no other, and an unknown tier moves nothing. |
| TieredLogs.TieredLog.Republish | manifest.go:106-110 | With sources before destinations every write of a republish leaves a recoverable state, and all owned tiers end rebuilt. |
| TieredLogs.InterruptedRepublish | clean.go:660-690 | After a move that committed and did not release, a republish is crash-safe if and only if the source comes first. |
| TieredLogs.DestinationFirstRefused | clean.go:660-690 | With the destination first, the merge at open refuses the state between the two writes. |
| TieredJoins.CommitJoinedRun | clean_join.go:301-353 | However far a joined run's commit gets, the manifests describe the log as it was or the log with the run joined, each record named once. |
| TieredJoins.JoinedNames | manifest.go:112-138 | Joining a run changes exactly its own names: the first input's stays, the others go. |
| Overlaps.LogAscends | commitlog.go:1220-1243 | A log serves every offset at most once, in order. |
| Overlaps.ResolveSegmentOverlaps | commitlog.go:1244-1295 | The open-time walk computes the resolution. |
| Overlaps.ResolveExact | commitlog.go:1244-1295 | For any files, it refuses exactly when one reaches into an earlier one's range without being contained, and otherwise keeps, as a log, exactly the files no earlier one covers. |
| Joins.JoinKeeps | clean_join.go:137-168 | A run's join in its place keeps the log a log with the same records. |
| Joins.JoinCrash | clean_join.go:445-458 | With the joined segment installed and any subset of the other inputs left, open gives the same records. |
| JoinStage.PlanJoins | clean_join.go:98-135 | Planned runs are ordered, disjoint, one-tier, at least two long, within cap and never active, and no joinable pair of neighbours is left out altogether. |
| JoinStage.JoinSegments | clean_join.go:372-416 | Whatever the budget, ownership and failures, the list returned is the log with the runs carried out collapsed, its records unchanged and its active segment in place. |
| CrashRecovery.InstallJoin | clean_join.go:170-274 | Every file state on the way through a local join opens with the log's records. |
| CrashRecovery.TrimBoundary | commitlog.go:2896-2985 | The trimmed boundary holds exactly its records at or above the offset, named by the first. |
| CrashRecovery.FindBoundary | commitlog.go:2896-2912 | The first sealed segment whose last offset reaches the cut, or the active one. |
| CrashRecovery.TruncateBefore | commitlog.go:2872-3060 | Every file state on the way opens with an end of the log that misses nothing at or above the offset; when a sealed segment reaches the offset, nothing below it survives. |
| GroupCommit.EveryRun | commitlog.go:3284-3386 | In every interleaving in which no segment is skipped while a `SyncAll` fsync carries a record the flush claims, one flush is in flight at most and the published mark is never ahead of what is durable. |
| GroupCommit.Preserved | commitlog.go:3284-3386 | A step keeps all of that if and only if it is not such a skip. |
| GroupCommit.SyncGuarantee | commitlog.go:3284-3386 | In such a run, when Sync returns nil, every record up to its offset and up to the tail at the call is durable, then and afterwards. |
| GroupCommit.QuietWithoutSyncAll | commitlog.go:3284-3386 | Every interleaving of appenders, rolls and Sync callers meets the condition of these theorems. |
| GroupCommit.DurableRises | commitlog.go:3343-3346 | The published mark only rises. |
| GroupCommit.SkipExact | segment.go:2477-2497 | Skipping a segment whose mark is taken goes wrong if and only if an fsync of it by `SyncAll` is still carrying a record the flush will claim. |
| GroupCommit.SyncAllRace | segment.go:2477-2497 | A run in which Sync returns nil for a record that is not durable. |
| GroupCommit.SyncedKeeps | segment.go:2503-2526 | The end of an fsync, successful or not, keeps the invariant: no segment with records not yet durable goes unmarked. |
| IndexCache.EvictedIs | index_cache.go:345-360 | Eviction keeps everything held, ends within budget or with everything held, and does nothing within budget. |
| IndexCache.EvictedByAge | index_cache.go:345-360 | What is evicted was less recently used than any unheld survivor. |
| IndexCache.RemoteIndexCache.constructor | index_cache.go:74-97 | An empty cache over an emptied directory is valid. |
| IndexCache.RemoteIndexCache.Acquire | index_cache.go:138-162 | A hit pins the entry and makes it newest, a key being fetched waits, any other starts its one fetch. |
| IndexCache.RemoteIndexCache.Create | index_cache.go:220-224 | Starting a download creates or truncates the key's file: if no entry of the key is open then, every open entry reads its own object and the download has its file to itself from here on, through every other step; if one is, it has just lost its contents. |
| IndexCache.RemoteIndexCache.Load | index_cache.go:232-296 | What a finished download opens by name holds its object if and only if the name was not removed since the file was created. |
| IndexCache.RemoteIndexCache.FetchFailed | index_cache.go:164-175 | A failed fetch frees the key and unlinks its file if it had created one, whoever else maps it. |
| IndexCache.RemoteIndexCache.FetchDone | index_cache.go:176-187 | The new entry is listed and held, the cache within budget or all held, and exactly what was evicted is closed and its name removed. |
| IndexCache.HeldPredecessor | index_cache.go:326-341 | A concrete run: an index invalidated while held loses its contents when its key is fetched again. |
| IndexCache.BlankIndex | index_cache.go:303-312 | A concrete run: released during that fetch, it takes the new file's name along, and the entry listed is blank. |
| IndexCache.RemoteIndexCache.Evict | index_cache.go:345-360 | The list becomes the evicted one; exactly what left it is closed, once and unheld, and its name removed. |
| IndexCache.RemoteIndexCache.Release | index_cache.go:303-312 | One pin fewer; the last one of a stale entry closes it and removes its key's name, even one being downloaded. |
| IndexCache.RemoteIndexCache.Invalidate | index_cache.go:326-341 | The key is no longer found; its entry closes at once unless held. |
| Varints.UvarintRoundTrip | blockv3/blockv3.go:358-369 | Reading undoes writing for every 64-bit value, whatever follows. |
| Varints.UvarintFits | blockv3/blockv3.go:358-369 | What is read never exceeds 64 bits. |
| Varints.VarintRoundTrip | blockv3/blockv3.go:371-382 | Likewise for signed values through zigzag. |
| Varints.AppendUvarint | blockv3/blockv3.go:248-256 | The appending loop writes the encoding. |
| BlockRecords.RecRoundTrip | blockv3/blockv3.go:258-332 | A record reads back as itself, absent and empty fields apart, headers as a map, in whatever order they were written. |
| BlockRecords.PayloadRoundTrip | blockv3/blockv3.go:248-307 | A payload reads back as its records and nothing more. |
| BlockCursors.SortKeys | blockv3/blockv3.go:264-269 | Header keys are written in ascending order, each once. |
| BlockCursors.EncodeRecords | blockv3/blockv3.go:248-286 | The payload is each record's bytes behind their length, keys in order. |
| BlockCursors.EncodesReads | blockv3/blockv3.go:248-307 | Every such payload under 2^63 bytes reads back as the records it was encoded from. |
| BlockCursors.Cursor.Byte | blockv3/blockv3.go:348-356 | A byte or a latched error, never outside the buffer. |
| BlockCursors.Cursor.Uvarint | blockv3/blockv3.go:358-369 | The integer at the front or a latched error, overflow included. |
| BlockCursors.Cursor.Bytes | blockv3/blockv3.go:384-395 | That many bytes or a latched error. |
| BlockCursors.Cursor.Field | blockv3/blockv3.go:399-415 | A field, -1 absent and 0 empty, or a latched error. |
| BlockCursors.DecodeRecord | blockv3/blockv3.go:310-332 | Decoding is the reader of one record that must end its bytes. |
| BlockCursors.DecodeRecords | blockv3/blockv3.go:290-307 | Decoding is the reader of n records that must end the payload. |
| BlockHeaders.HeaderRoundTrip | blockv3/blockv3.go:117-178 | A header decodes to itself, whatever follows. |
| BlockHeaders.HeaderInjective | blockv3/blockv3.go:141-178 | Blocks that decode to the same header have the same header bytes. |
| BlockHeaders.FieldsExact | blockv3/blockv3.go:141-178 | Equal fields are equal bytes, both ways. |
| BlockHeaders.Seal | blockv3/blockv3.go:473-475 | Resealing changes only the checksum and makes it match. |
| BlockHeaders.Rewrite | blockv3/blockv3.go:184-193 | Exactly three fields change and the payload does not; a header that does not decode is left alone. |
| BlockHeaders.Restamp | blockv3/blockv3.go:199-214 | Identity set, transactional exactly with a nonce, not stripped, all else unchanged. |
| BlockHeaders.Strip | blockv3/blockv3.go:218-228 | Identity cleared, stripped, not transactional, all else unchanged. |
| BlockHeaders.RestampUndoesStrip | blockv3/blockv3.go:199-228 | Restamping a stripped block with its old identity restores its bytes if and only if it was unstripped and its flag matched its nonce. |
| BlockHeaders.RestampMarks | blockv3/blockv3.go:199-228 | A decodable block with a nonce and no transactional flag comes back with other bytes. |
| BlocksV3.EncodeBlock | blockv3/blockv3.go:421-442 | A block is refused exactly for no records, and otherwise is its filled-in header and packed payload. |
| BlocksV3.DecodeBlock | blockv3/blockv3.go:447-471 | Decoding is the block reader, with its checks of lengths, checksums, codec, count and last delta. |
| BlocksV3.BlockRoundTrip | blockv3/blockv3.go:421-471 | A block whose payload fits 32 bits decodes to its records and header. |
| Framing.V1RoundTrip | message.go:52-168 | A wire message reads back as its key, value, headers and attributes, headers written in any order. |
| Framing.EntriesForMessageSet | message_set.go:57-91 | The loop finds the frames the bytes hold, up to the first they cannot hold. |
| Framing.FramesTile | message_set.go:57-91 | Frames laid end to end are all found, where they are. |
| Framing.FramesExtent | commitlog.go:1374-1379 | Their sizes add up to all the bytes. |
| TwoFormats.CheckBatch | append_batch.go:23-70 | A batch is accepted exactly when it has messages, no reserved header, one timestamp, one epoch and one kind. |
| TwoFormats.SameContent | blockv3_read.go:43-92 | What a version-3 block says of a record is what version-2 stamping says of it. |
| TwoFormats.SameReading | append_batch.go:118-148 | The bytes either format stores of a record read back alike. |
| TwoFormats.IdentityRead | blockv3_read.go:135-146 | A batch's identity reads back from either, sequences wrapping at 32 bits, and a batch without one reads back with none. |
| TwoFormats.EncodeV3Block | append_batch.go:153-172 | The block appended is its filled-in header and its payload, raw below 4096 bytes or when compression does not shrink it. |
| TwoFormats.V3RoundTrip | append_batch.go:153-172 | What is appended decodes to the same header and records. |
| TwoFormats.EncodeV1Message | blockv3_read.go:99-119 | A message is refused exactly for too many headers or too long a name, and is otherwise written with its keys in order. |
| TwoFormats.SynthesizeFraming | blockv3_read.go:43-92 | The framing is one frame per record, with the block's offsets, timestamp, epoch and identity, refused exactly when some record has too many headers or too long a header name. |
| TwoFormats.FramingUnique | blockv3_read.go:26-40 | The framing is a function of the block: computed at write and at decode it is the same bytes. |
| TwoFormats.FramingTiles | append_batch.go:238-255 | Its index entries are one per record, ascending, and tile its bytes. |
| Batches.BlockMeaning | append_batch.go:84-117 | For every accepted batch the block appended decodes to its header and records, record i says what version 2 stores of message i, and its identity reads back as the batch's. |
| Batches.FramingMeaning | append_batch.go:238-255 | The framing computed at write and the one computed from the decoded block are the same bytes: one frame per message, end to end, entry i at offset base + i with the batch's time and epoch and a payload that reads back as what version 2 stores. |
| Batches.AppendBatch | append_batch.go:23-117 | A batch is refused exactly when it is not uniform or a message cannot be framed; otherwise its block and framing are those of the batch, stamped with its own time or the clock's. |
| Framing.FramesPlaced | message_set.go:57-85 | Each frame's payload lies where its entry says, entries follow each other, and the last ends with the bytes. |
| PrefixSpec.PrefixUpperBound | prefix_read.go:339-350 | The loop finds the first key past a prefix. |
| PrefixSpec.BeyondExact | prefix_read.go:336-350 | The keys before that bound are exactly those before the prefix and those with it. |
| PrefixScan.ScanSegmentFiltered | prefix_source.go:196-284 | The scan returns exactly the records the read wants, in order, unless a candidate fails its checksum. |
| PrefixDigest.DigestHits | prefix_source.go:288-349 | The digest plans exactly the offsets of the records the read wants, ascending. |
| PrefixDigest.KeyHits | prefix_source.go:318-340 | A key's offsets in the window, or the last of them. |
| PrefixFetch.PlanRuns | prefix_read.go:141-181 | Runs partition the hits in order, split exactly at the gaps that are too wide. |
| PrefixFetch.CollectRun | prefix_read.go:235-334 | One pass finds every wanted record, and fails exactly when one is missing or fails its checksum. |
| PrefixFetch.Fetch | prefix_source.go:352-381 | The planned records in offset order. |
| PrefixFetch.ServeSegment | prefix_source.go:168-181 | Either route returns exactly what the read wants; they differ only in which failed checksums they notice. |
| PrefixFetch.RoutesAgree | prefix_source.go:161-167 | The routes always answer alike unless superseded records are skipped; then the plan serves what the scan refuses exactly when some superseded candidate and no other fails its checksum. |
| PrefixFetch.RoutesDiffer | prefix_source.go:161-167 | Two records of one key, the earlier damaged: the plan serves, the scan refuses. |
| PrefixSources.FromAscends | prefix_source.go:98-113 | Over all sealed segments the read returns records in offset order, each once. |
| PrefixSources.FromAll | prefix_source.go:117-159 | It misses none that is wanted. |
| PrefixSources.PrefixSource.constructor | prefix_source.go:80-82 | Over any valid log with accurate digests, everything the read wants is still to come. |
| PrefixSources.PrefixSource.FillFromNextSegment | prefix_source.go:117-159 | Searching the segments changes nothing about what is still to come. |
| PrefixSources.PrefixSource.Pop | prefix_source.go:98-113 | Each pop returns the next record still to come, ends only when none is, and fails only on damage. |
| Retention.DropOldestPrefix | delete_cleaner.go:35-46 | A clamped prefix goes, or the part before the first failure: what is left is a suffix. |
| Retention.DeletablePrefix | delete_cleaner.go:62-75 | The largest prefix with nothing at or above the floor. |
| Retention.ApplyTotalLimit | delete_cleaner.go:451-462 | Unclamped, the longest suffix that fits or is within what must be kept; never less than that. |
| Retention.ApplyAgeLimit | delete_cleaner.go:464-490 | What is too old goes, the active segment stays. |
| Retention.TierRuns | delete_cleaner.go:267-280 | Maximal one-tier runs that make up the tiered half. |
| Retention.CleanTier | delete_cleaner.go:381-421 | All of a tier's limits are met with the least deletion, within the allowance. |
| Retention.CleanTiers | delete_cleaner.go:295-323 | The survivors are a suffix: older runs wholly deleted on their tiers' demand, and one run whose tier may not be written to or whose limits are met, unless the allowance ran out. |
| Retention.CleanLocal | delete_cleaner.go:159-219 | The local limits are met with the least deletion unless the floor forbids it, and the active segment stays. |
| Retention.Clean | delete_cleaner.go:123-155 | Whatever fails, each half keeps a suffix, the active segment stays, nothing at or above the floor goes, and no tier that may not be written to is touched; without failure, both halves' limits are met with the least deletion unless the floor or a tier forbids it. |
| RetentionSuffix.OneSuffix | delete_cleaner.go:123-155 | What a clean without failures keeps is one suffix of the log if and only if nothing is tiered, the local half already meets its limits or is held by the floor, or every tiered run is in a configured, writable tier whose limits reject each of its suffixes and the floor is past them all. |
| RetentionSuffix.RunsUnique | delete_cleaner.go:267-280 | The tiered half has exactly one list of maximal one-tier runs. |
| RetentionSuffix.HoleInTheMiddle | delete_cleaner.go:123-155 | A concrete log, tier and limits whose only outcome without failures deletes from the middle. |

## Left out

- The on-disk encoding of key digests, and reading a digest whose sidecar is missing, corrupt or stale.
- The checkpoint file of the leader-epoch history and its parsing.
- Checksums and compression: a record carries a flag saying whether its checksum matches, and blocks take checksum and codec functions as parameters, with decompression undoing compression as the only fact about them.
- Block layout inside a segment: sizes, consolidation and the choice of block boundaries; a rewrite knows only which blocks it carries whole.
- The contents a failed segment rewrite may leave under a temporary name, and the reclaim queue of superseded store objects.
- A digest sidecar left over from an earlier version of a segment with the same base and size, which the staleness comparison accepts.
- CompactRuns.EveryRun: runs hold `Aborted` fixed and write times in order, which the code leaves to its callers.
- EpochLog.CheckAppendedSet: does not compare the frames' extent with the set's length; FramingTiles states that the frames written tile their bytes.
- EpochLog.TenuredLog.Roll: when a segment rolls (size and age) is not modelled, only what a roll does.
- TierManifests.MergeTierManifests: a manifest names each segment once, as every manifest this code writes does; a foreign manifest that repeats a base is not modelled.
- TieredLogs.TieredLog.Put: store writes are atomic, and upload ids never repeat.
- Offloading the first time, adopting a manifest into an empty directory, and deleting unreferenced objects.
- CrashRecovery.TruncateBefore: appends and rolls during the call are taken as already in the list.
- GroupCommit.EveryRun: `Truncate`, which does not lower the published mark, and segments closed by a concurrent clean.
- GroupCommit.SyncGuarantee: the window a leader waits before its flush, which only delays it.
- IndexCache.RemoteIndexCache.Release: a caller releases once per acquire; shutdown is not modelled.
- IndexCache.RemoteIndexCache.Create: file names of different keys are taken to differ (they are 64-bit hashes), and files behave as on POSIX systems, where an unlinked file lives on for whoever maps it.
- PrefixFetch.PlanRuns: whether a gap is too wide is a function of the two records' positions, standing for both ways the code measures it.
- Reading the active segment of a prefix read, and a bound that moves while a read is under way.
- Framing.V1RoundTrip: header values are present; a message with an absent header value cannot be read back by the code.
- TwoFormats.SynthesizeFraming: offsets stay within 63 bits and fields within 31.
- Batches.AppendBatch: the same bounds, and batches of at most 2^32 messages; the read-only and split checks and the write itself are not modelled.
- Batches.FramingMeaning: payloads under 2^32 bytes and framings under 2^31, beyond which the length fields wrap.
- TwoFormats.SameContent: attributes other than control and tombstone, and the timestamps version 2 gives messages of one batch.
- Blocks appended preframed, and the comparison of their transactional flag with their nonce.
- Retention.CleanTier: an age limit is given as the oldest write time to keep, not computed from a clock.
- Directory locks, mmap handling, retries of renames, background tickers, logging, option validation, `CopyTier`, `inspect.go` and the committed and uncommitted readers.
