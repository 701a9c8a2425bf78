# Verified model of the manga library server

The server shares a manga library over WebDAV, keeps the listings of its folders in a compressed cache,
runs OCR over volumes with configured engines ("generations"), and shows the work on a queue page. This
project models the parts of it whose correctness is not visible in any one function, and proves them.
`dafny verify dfyconfig.toml` checks everything.

## What is modelled

| file | subject |
|---|---|
| `Recency.dfy`, `PropfindTable.dfy`, `RecencyHistory.dfy` | The PROPFIND cache's table: a class over a map with use counters, refining a plain recency list, and that list told from the history of calls |
| `PropfindProtocol.dfy` | Requests, background refreshes, DAV writes and invalidations interleaving over that table and a changing file tree |
| `Listing.dfy` | Compressing a listing with a sync flush, and answering it as gzip or inflated |
| `Paths.dfy`, `Locks.dfy`, `LockHistory.dfy` | Path keys and the WebDAV lock table (sections 6.2, 7.4 and 9.10.5 of RFC 4918) |
| `Conditional.dfy`, `ConditionalTheorems.dfy`, `ConditionalMeaning.dfy`, `Range.dfy` | The `If:` header (section 10.4 of RFC 4918) and the `Range` header (section 14.2 of RFC 9110) |
| `Json.dfy`, `Engines.dfy`, `Naming.dfy`, `Generations.dfy`, `GenerationRows.dfy`, `GenerationTheorems.dfy`, `GenerationReading.dfy`, `GenerationMigration.dfy` | The generation list: reading, migrating, minting ids, seeding names, repairing the primary row, printing back, reporting migrations |
| `Reconcile.dfy`, `Lanes.dfy` | The queue page: keyed lists in place, lane placement, row assignment, machine order |
| `Activity.dfy` | What a machine is reading and has read |
| `Text.dfy`, `Sequences.dfy`, `Sorting.dfy`, `Sets.dfy` | String, sequence and set operations the others are written in, with their laws |

Each component has a specification function for every call and, where the source works in place or in a
loop, a class or method proved to do exactly what that function says. The theorems are about the
functions, over every input or every run, and say what a call does in terms of its arguments and of the calls
before it.

The cache protocol is a step system. A step is one section run under the cache's mutex, one commit of a
DAV write, or the start or end of a generation. A generation is not atomic: what it shows of a path is
what some tree version between its start and its end had. No single flight is assumed for requests.

## Where the code differs from what one would expect

- `ParsedGenerations::migrated` is documented as "a save would change the list"
  (`crates/bunko-core/src/generations.rs:254-255`). `MigratesIff` proves what the flag says: some row is on
  a removed engine, or names a removed detector, or sets a pool for a stage it does not have.
  `ReportIsRightIff` proves for which lists that agrees with its documentation: a list a save wrote must
  have no row on a removed engine, any other must have a row that migrates. `SavedListIsReported` is a list
  that is reported although a save leaves it alone, `ChangedListIsNot` one that is not reported although a
  save changes it.
- The entity tags in an `If:` header (section 10.4 of RFC 4918) are quoted strings, which may hold spaces,
  brackets and parentheses. The reader ends a list at the first `)`, splits it at spaces, and trims quotes
  and brackets off a tag. `ReadsBackIff` proves that a written header gives every resource its lists if and
  only if each condition in it is `Readable`: no space or `)` in it, and nothing at its ends that is trimmed. The example tag of section
  10.4.6 is not readable, and a condition on it that holds is found not to (`SpacedTagIsMisread`).
- Minting an id adds 1 to a 64-bit number. `MintedIff` proves exactly when that overflows: when the rows
  without an id are more than the numbers left after the highest one given; `LastNumbersOverflow` gives
  the smallest cases. The model returns an `Overflow` error there (the release build wraps).
- The counter of a seeded name has 32 bits. `SeedingFailsIff` proves that it overflows exactly when every
  name it can count is taken, and `SeedingSucceeds` that fewer taken names than that always leave one.
- Retiring the primary row can need a default row. `AcceptedIff` is exact about it: such a list is accepted
  if and only if an id number and a name are left. This counts an
  overflow as a refusal. The release build wraps instead: past the last id number it goes on with `g-0` and
  accepts the list.
- Keyed reconciliation gives every item a node of its own if and only if no repeated raw key gets, by its
  duplicate mark, a raw key from before (`DistinctIffSeparate`, `Reconcile`). Raw keys without the marker
  always meet the condition; `MarkedKeysMayCollide` is a list that does not. A key that every JavaScript
  object has (such as `constructor`) counts as repeated.
- The same lookup on a plain object lets the queue page's row assignment keep a row whose layer is not
  known any more. `AssignRows` proves exactly when: the row showed that layer before, and every object has
  its name. `constructor` is an acceptable generation name; see `BuiltInNameStays`.
- The page rate counts an increment longer than a minute if and only if it has expired behind one that is
  still fresh (`RateCountsLastMinute`); two events that read the clock in one order and take the lock in
  the other do that (`RateMayCountMore`). It never counts less than the last minute.
- A shared lock strictly below a new depth-infinity lock is in its way even when both are shared:
  `AcquireGrantedIff`, and `SharedBelowBlocksDeep` for an input.
- When deflating the tail of a gzip answer fails, the source sends none of it; `RespondGzip` proves that
  the body is unreadable in exactly that case.

## Model

| member | source | states |
|---|---|---|
| PropfindTables.PropfindTable.constructor | crates/bunko-dav/src/cache.rs:207-217 | A new cache stands for the empty recency list |
| PropfindTables.PropfindTable.Insert | crates/bunko-dav/src/cache.rs:249-280 | Refines the list's insert: refused when stopped, raced by an invalidation or over budget; otherwise only the least recently used entries go, until the new one fits; counters stay distinct and `bytes` stays the sum of the sizes |
| PropfindTables.PropfindTable.EvictOne | crates/bunko-dav/src/cache.rs:264-274 | The entry with the smallest use counter is the front of the recency list, and exactly it goes |
| PropfindTables.PropfindTable.MakeRoom | crates/bunko-dav/src/cache.rs:261-275 | Evicting until the size fits is dropping from the old end of the list until it fits |
| PropfindTables.PropfindTable.LookupFresh | crates/bunko-dav/src/cache.rs:315-332 | Serves exactly an entry younger than `stale_ttl`, moves it to the recent end, and starts a refresh exactly when it is past `ttl` and none runs for the key |
| PropfindTables.PropfindTable.InvalidatePaths | crates/bunko-dav/src/cache.rs:357-375 | Drops exactly the entries whose key is equal to, above or below a written path, and opens a new epoch |
| PropfindTables.PropfindTable.Invalidate | crates/bunko-dav/src/cache.rs:378-383 | Empties the table and opens a new epoch |
| PropfindTables.PropfindTable.RefreshAll | crates/bunko-dav/src/cache.rs:386-403 | Marks and returns exactly the cached keys not being refreshed |
| PropfindTables.PropfindTable.RefreshDone | crates/bunko-dav/src/cache.rs:351 | The key is no longer being refreshed |
| PropfindTables.PropfindTable.Stop | crates/bunko-dav/src/cache.rs:451-457 | Only the stop flag changes |
| Recency.ShrinkDropsShortestPrefix | crates/bunko-dav/src/cache.rs:261-275 | Eviction drops a prefix of the recency list, the shortest one that makes room |
| Recency.InsertBounded | crates/bunko-dav/src/cache.rs:249-280 | An insert keeps one entry per key, the byte budget and the entry limit (at least 1) |
| Recency.LookupBounded | crates/bunko-dav/src/cache.rs:315-332 | A lookup keeps one entry per key, the byte budget and the entry limit |
| Recency.MoveUp | crates/bunko-dav/src/cache.rs:324 | Moving an entry to the recent end keeps the bytes, the number of entries and distinct keys |
| Recency.InvalidateBounded | crates/bunko-dav/src/cache.rs:357-383 | Invalidation keeps one entry per key, the byte budget and the entry limit |
| RecencyHistory.HitIff | crates/bunko-dav/src/cache.rs:315-332 | A lookup hits exactly when an entry of the key is younger than `stale_ttl`, and starts a refresh exactly when it is not younger than `ttl` and none runs for the key |
| RecencyHistory.LookupMoves | crates/bunko-dav/src/cache.rs:315-332 | After a hit the entry served is the most recently used, the entries are the same and any two others keep their order; a miss changes nothing |
| RecencyHistory.OrderIsLastUse | crates/bunko-dav/src/cache.rs:249-332 | After any calls the entries stand in the order of the last call that stored or was answered with their key, and each holds the listing stored last for it |
| RecencyHistory.EvictedIsOldest | crates/bunko-dav/src/cache.rs:261-275 | What a store evicts was used before everything it leaves, over any history, and there was no room with it |
| RecencyHistory.StoredIsFound | crates/bunko-dav/src/cache.rs:249-280 | A store is taken exactly when not stopped, of the current epoch and within the budget; it is then found, and so is every entry that stays, unchanged |
| RecencyHistory.WriteTakesOutIff | crates/bunko-dav/src/cache.rs:357-375 | A write takes out exactly the entries of related keys; the others stay in order |
| RecencyHistory.RefreshEachSays | crates/bunko-dav/src/cache.rs:386-403 | A refresh is started for exactly the keys held that none runs for |
| Paths.TouchedBelowIsRelated | crates/bunko-dav/src/paths.rs:135-139 | A write related to something listed under a key is related to the key |
| Paths.NormalizeIdempotent | crates/bunko-dav/src/paths.rs:38-44 | Normalising a normalised path changes nothing |
| Paths.NormalizeStrips | crates/bunko-dav/src/paths.rs:38-44 | Whatever slashes stand around a path, its normal form is one slash and the path |
| Paths.NormalizeIsNormal | crates/bunko-dav/src/paths.rs:38-44 | A normal form starts with a slash and ends in none, the root apart |
| Paths.IsEqualOrChildIff | crates/bunko-dav/src/paths.rs:135-139 | Of normal paths: equal, or below with a slash in between, or below the root |
| PropfindProtocol.NextKeeps | crates/bunko-dav/src/cache.rs:249-403 | Every step of every task keeps the protocol's invariant: epochs, starts, faithful listings, the refresh set and the bounds |
| PropfindProtocol.ReadYourWrites | crates/bunko-dav/src/cache.rs:249-312 | In every interleaving, once a write is committed and invalidated, every stored listing that shows a touched path, and every answer of a `get` begun after that, comes from a generation started after the commit |
| PropfindProtocol.QuiescentTableIsCurrent | crates/bunko-dav/src/cache.rs:249-375 | With no write waiting for its invalidation, every stored listing shows exactly the current tree below its key |
| PropfindProtocol.AnswerIsCurrent | crates/bunko-dav/src/cache.rs:284-312 | A `get` begun after every write so far was invalidated answers the current tree below its key |
| PropfindProtocol.TableAlwaysBounded | crates/bunko-dav/src/cache.rs:249-403 | In every interleaving the table is within its bounds, and the keys being refreshed are exactly those of the refresh tasks alive, at most one per key |
| PropfindProtocol.StaleNeverServed | crates/bunko-dav/src/cache.rs:315-332 | In every run, whatever a task holds as its answer was, at the step that gave it, an entry of its key in the table younger than `stale_ttl`, or had just been generated for it |
| PropfindProtocol.NothingStoredAfterStop | crates/bunko-dav/src/cache.rs:249-253 | After `stop`, whatever still runs, the table only loses entries |
| Listing.DeflateCall | crates/bunko-dav/src/cache.rs:105-114 | A compressor with a queue and held-back input meets the contract the flush loop relies on |
| Listing.TwoRoomyCallsFlush | crates/bunko-dav/src/cache.rs:147-166 | After two sync calls in a row that leave room nothing is held back, and what was handed out is an open stream that decodes to all the input |
| Listing.OneRoomyCallMayHoldBack | crates/bunko-dav/src/cache.rs:147-151 | One such call is not enough, whatever room of more than one code it is given: a state in which input is still held back after it |
| Listing.SyncDeflate.Write | crates/bunko-dav/src/cache.rs:131-145 | Ends; on success the whole input is taken, in order |
| Listing.SyncDeflate.FinishSync | crates/bunko-dav/src/cache.rs:152-166 | Ends; the stream handed back has no final block and decodes to everything fed, nothing held back |
| Listing.Feed | crates/bunko-dav/src/cache.rs:176-182 | Hash, length and compressor advance over the same bytes |
| Listing.Compress | crates/bunko-dav/src/cache.rs:171-199 | An entry holds the opening tag and every chunk: gzip header, open deflate stream, hash state and length of that text, whatever the hash |
| Listing.FoldAppend | crates/bunko-dav/src/cache.rs:478-479 | Hashing on from a stored state is hashing the whole, for any hash |
| Listing.GzipAnswerReads | crates/bunko-dav/src/cache.rs:472-494 | Prefix, any separately deflated tail and the trailer read as one gzip member: the hash continued from the stored state and the size match, and the text is listing, tail and close tag |
| Listing.RespondGzip | crates/bunko-dav/src/cache.rs:472-494 | The body reads as listing, tail and close tag whatever stream the tail is deflated to, and is unreadable exactly when deflating the tail gave none; its last eight bytes are the CRC of the three and then their length modulo 2^32, lowest byte first; Content-Length is the length of the body, for any byte length that adds up over its parts |
| Listing.TrailerCertifies | crates/bunko-dav/src/cache.rs:480-482 | The trailer, read as two numbers of four bytes, is the finished hash and the length modulo 2^32 |
| Listing.CrcCheck | crates/bunko-dav/src/cache.rs:478-479 | The hash is CRC-32: its check value is 0xCBF43926 |
| Listing.NoTailIsUnreadable | crates/bunko-dav/src/cache.rs:474-477 | Without the tail the member never ends |
| Listing.RespondPlain | crates/bunko-dav/src/cache.rs:495-505 | Unless inflating fails the chunks are listing, tail and close tag; if it does, they are a front part of the listing; Content-Length is that of the whole text either way |
| Listing.InflateStream | crates/bunko-dav/src/cache.rs:516-571 | The chunks sent are the whole inflated prefix, then the tail; when the decompressor fails, a front part of the inflated prefix |
| Locks.AncestorsNest | crates/bunko-dav/src/locks.rs:102-107 | Two keys above one key are equal or one is above the other, with both separators |
| Locks.OverlapIffNested | crates/bunko-dav/src/locks.rs:202-214 | The test made on acquiring is exactly "the two regions share a key" |
| Locks.LockManager.Purge | crates/bunko-dav/src/locks.rs:124-127 | A lock stays if and only if it has not expired, and stays as it was |
| Locks.LockManager.CheckWrite | crates/bunko-dav/src/locks.rs:154-183 | The conflicting roots, sorted and each once, are those of live locks in the way that are not the caller's with the token presented |
| Locks.LockManager.BlockingWrite | crates/bunko-dav/src/locks.rs:163-182 | The roots of exactly the locks in the way of the write, sorted and each once |
| Locks.LockManager.BlockingAcquire | crates/bunko-dav/src/locks.rs:201-214 | The roots of exactly the locks in the way of the new one, sorted and each once |
| Locks.LockManager.Acquire | crates/bunko-dav/src/locks.rs:186-239 | Refused when full or in conflict, with the sorted roots in the way; otherwise the new lock is added under its token with its date |
| Locks.LockManager.IndirectTokens | crates/bunko-dav/src/locks.rs:140-150 | The tokens of live locks of the principal that protect the key |
| Locks.LockManager.LocksOn | crates/bunko-dav/src/locks.rs:130-136 | A lock is listed if and only if it is live and rooted on the key; the list is in token order |
| Locks.LockManager.Refresh | crates/bunko-dav/src/locks.rs:241-248 | Finds a lock if and only if it is live and changes only its dates; every other live lock stays as it was |
| Locks.LockManager.Get | crates/bunko-dav/src/locks.rs:250-254 | Gives a lock if and only if it is the live one under the token |
| Locks.LockManager.Release | crates/bunko-dav/src/locks.rs:262-264 | A lock stays if and only if its token is another one |
| Locks.LockManager.RemoveTree | crates/bunko-dav/src/locks.rs:267-271 | A lock stays if and only if it is neither on the key nor below |
| Locks.NoConflictIff | crates/bunko-dav/src/locks.rs:176-182 | No root is reported exactly when no lock is in the way |
| Locks.AcquireGrantedIff | crates/bunko-dav/src/locks.rs:198-238 | Granted exactly when there is room and every live lock sharing a key covers the new root and both are shared; a grant adds exactly the new lock |
| Locks.SharedBelowBlocksDeep | crates/bunko-dav/src/locks.rs:205-213 | A shared lock on `/a/b` refuses a shared depth-infinity lock on `/a` |
| Locks.ApplyConsistent | crates/bunko-dav/src/locks.rs:186-271 | Every call keeps "distinct locks that share a key are both shared" |
| Locks.MutualExclusion | crates/bunko-dav/src/locks.rs:186-239 | In every reachable table, two distinct locks that both cover a key are both shared |
| Locks.CoveredWriteNeedsToken | crates/bunko-dav/src/locks.rs:154-183 | A key a live lock covers is written only by its principal with its token |
| Locks.WriteAllowedIff | crates/bunko-dav/src/locks.rs:154-183 | A write is allowed exactly when every live covering lock is the caller's with its token presented and, at depth infinity, no other live lock is below |
| Locks.DeepWriteNeedsEmptyTree | crates/bunko-dav/src/locks.rs:167-174 | A depth-infinity write over normalised keys succeeds only with no live lock strictly below |
| Locks.LockSurvives | crates/bunko-dav/src/locks.rs:154-271 | Through any calls that neither end it nor find it expired, a lock keeps region, scope and owner |
| Locks.ExclusiveLockExcludes | crates/bunko-dav/src/locks.rs:154-239 | From the grant of an exclusive lock until it ends or expires, writes in its region need its owner and token and no lock sharing a key is granted |
| LockHistory.GrantedIsHeld | crates/bunko-dav/src/locks.rs:220-238 | A granted lock says what its call asked for, field by field, and lives until the seconds asked for are over |
| LockHistory.RefreshSays | crates/bunko-dav/src/locks.rs:241-248 | A refresh finds a lock while it lives, and sets its seconds and its time and nothing else |
| LockHistory.GrantGuards | crates/bunko-dav/src/locks.rs:154-188 | Over runs, in the calls' own arguments: while a lock stays, a write in its region by another principal or without its token is refused, and the root the lock was asked for is named |
| LockHistory.GrantLetsThrough | crates/bunko-dav/src/locks.rs:154-188 | Over runs: the grantee of an exclusive lock writes in its region with the token; at depth infinity on a lock of depth zero, exactly when no other lock lives below |
| LockHistory.GrantExcludes | crates/bunko-dav/src/locks.rs:190-239 | Over runs: while an exclusive lock stays, no lock is granted whose region meets its own, and a conflict names its root |
| LockHistory.GrantIsListed | crates/bunko-dav/src/locks.rs:129-152 | Over runs: while a lock stays it is found by its token as it was asked for, listed on its key alone, and its token is its grantee's in its region alone |
| LockHistory.GrantFoundIff | crates/bunko-dav/src/locks.rs:66-68 | A lock left alone is found exactly until its seconds are over, for ever when they are negative |
| LockHistory.RefreshFoundIff | crates/bunko-dav/src/locks.rs:241-248 | So it is from a refresh that found it, by the seconds asked for then |
| Locks.ExpiredLocksAreInvisible | crates/bunko-dav/src/locks.rs:66-68 | Striking the expired locks changes no answer of any later sequence of calls: they never block, grant or come back |
| Sorting.SortDedupKeeps | crates/bunko-dav/src/locks.rs:179-180 | Sorting and dropping duplicates gives an increasing list of the same elements |
| Sorting.SortedIsUnique | crates/bunko-dav/src/locks.rs:179-180 | A set has only one increasing list, so the sorted roots are determined |
| Locks.UserKeysApart | crates/bunko-dav/src/locks.rs:40-41 | Per-user keys of NUL-free paths and plain user names are equal only for the same path and user, and never nested |
| Locks.UsersDoNotBlockEachOther | crates/bunko-dav/src/locks.rs:161-214 | Other users' file locks add no conflict to an acquire or write on one's own file, at any depth and scope, nor at depth zero on a shared path |
| Locks.OthersAreInvisible | crates/bunko-dav/src/locks.rs:154-271 | Over runs: while the table is not full, calls about own files and about shared paths (but not about what is below one) get, among any calls of others about their files, the answers of the run without those calls and without those locks |
| Locks.FolderLockCoversAllUsers | crates/bunko-dav/src/locks.rs:102-107 | A depth-infinity lock on a folder covers every user's file in it |
| Conditional.ReadList | crates/bunko-dav/src/conditional.rs:139-161 | The conditions and tokens of one list, in order, each under its own `Not` |
| Conditional.ReadNext | crates/bunko-dav/src/conditional.rs:121-169 | One step over the text consumes exactly a tag, a list or a character and keeps what remains to be read |
| Conditional.ParseHeader | crates/bunko-dav/src/conditional.rs:111-171 | The one-pass loop computes the recursive reading of the whole header |
| ConditionalTheorems.CondReadsBackIff | crates/bunko-dav/src/conditional.rs:145-158 | A token, or an entity tag in the strong or the weak frame, that is one word is read as itself if and only if its ends are not trimmed with the frame |
| ConditionalTheorems.ReadsBackIff | crates/bunko-dav/src/conditional.rs:111-171 | A written header gives every resource its lists in order if and only if every condition in it is readable: no space and no `)` in it, and its ends kept |
| ConditionalTheorems.OneConditionIff | crates/bunko-dav/src/conditional.rs:111-171 | A header of one condition is read as that condition if and only if it is readable |
| ConditionalMeaning.SpacedTagIsMisread | crates/bunko-dav/src/conditional.rs:139-158 | A tag with spaces is read as a tag and three tokens, and a condition that holds is found not to |
| ConditionalTheorems.RoundTrip | crates/bunko-dav/src/conditional.rs:111-171 | Reading a readable header gives every resource its lists in order and every token in order |
| ConditionalMeaning.TestIsMeaning | crates/bunko-dav/src/conditional.rs:175-199 | Evaluating a parsed readable header is what it says as written: some list about the resource (or about `*` when it has none) holds in all its conditions, each a token held or not, a tag equal or not |
| ConditionalMeaning.TokenTest | crates/bunko-dav/src/conditional.rs:192-195 | `(<t>)` holds exactly when `t` is among the lock tokens, `(Not <t>)` exactly when it is not |
| ConditionalMeaning.EtagTest | crates/bunko-dav/src/conditional.rs:188-191 | `(["e"])` holds exactly when the resource has the tag `e`, `(Not ["e"])` exactly when it has not |
| ConditionalMeaning.TagNamesPath | crates/bunko-dav/src/conditional.rs:203-215 | A full address names the decoded, normalised path behind its host, or the root |
| ConditionalMeaning.PlainTagIsPath | crates/bunko-dav/src/conditional.rs:202-215 | A tag without a scheme is the path, decoded and normalised |
| ConditionalTheorems.ParsedIsTidy | crates/bunko-dav/src/conditional.rs:111-171 | Any text gives entries with distinct resources, each with a list, whose conditions are readable in the weak frame |
| ConditionalTheorems.CanonicalRoundTrip | crates/bunko-dav/src/conditional.rs:103-171 | Writing entries canonically and reading them gives the same entries, and their tokens in order |
| ConditionalTheorems.ParsedIsWritable | crates/bunko-dav/src/conditional.rs:111-171 | The entries read from any text can be written exactly when its tags name resources that read as they are spelled, and then come back unchanged |
| Range.SatisfiableSelects | crates/bunko-dav/src/conditional.rs:250-272 | The range kept for a spec holds exactly the bytes the spec asks for |
| Range.SatisfiableRanges | crates/bunko-dav/src/conditional.rs:243-273 | The ranges gathered are within the file and hold exactly the bytes some spec asks for |
| Range.Hull | crates/bunko-dav/src/conditional.rs:277-278 | Smallest start and largest end: both in some range, and every range between them |
| Range.ParseRange | crates/bunko-dav/src/conditional.rs:231-280 | Full exactly without the `bytes` unit; refused exactly when no spec asks for a byte of the file; else the hull: in the file, both ends asked for, nothing asked for outside |
| Range.OneRangeAsks | crates/bunko-dav/src/conditional.rs:243-272 | `m-n` asks for the bytes from `m` to `n`, `m-` for those from `m` on, `-n` for the last `n`; in numbers, within the file |
| Range.HeaderAsks | crates/bunko-dav/src/conditional.rs:231-273 | A written header of such ranges asks for exactly the bytes its ranges say |
| JsonValues.GetAfterPut | crates/bunko-core/src/generations.rs:197-202 | Setting a key changes that key only |
| JsonValues.PutAgain | crates/bunko-core/src/generations.rs:197-202 | Setting a key to what it holds changes nothing, not even the order of keys |
| JsonValues.ValueStrTwice | crates/bunko-core/src/generations.rs:359-365 | A setting read as text and written as a string reads as the same text |
| Naming.SeedGenerationName | crates/bunko-core/src/generations.rs:309-330 | The loop returns the first candidate that is free and acceptable |
| Naming.CandidateAccepted | crates/bunko-core/src/generations.rs:270-330 | Every candidate of an engine's stem passes the name rules, after truncation and dash trimming |
| Naming.StemIs | crates/bunko-core/src/generations.rs:270-320 | A name starts from the engine, with the detector behind a dash for an engine without its own |
| Naming.CandidateForm | crates/bunko-core/src/generations.rs:323-328 | A counted name is as much of the stem as fits, without dashes at its end, a dash and the counter |
| Naming.CandidatesDistinct | crates/bunko-core/src/generations.rs:323-328 | Distinct counters give distinct candidates, whatever truncation and dash trimming do |
| Naming.SeedFindsFree | crates/bunko-core/src/generations.rs:323-328 | Pigeonhole: the search ends after no more steps than there are taken names |
| Naming.SeedingSucceeds | crates/bunko-core/src/generations.rs:309-330 | For every known engine and any taken names a 32-bit counter outnumbers, seeding ends with a fresh name that passes the rules, at the first free counter |
| Naming.SeedingFailsIff | crates/bunko-core/src/generations.rs:322-328 | For every known engine, the 32-bit counter overflows if and only if every name it can count is taken |
| Naming.MintGenerationId | crates/bunko-core/src/generations.rs:341-355 | The loops return the specified id, or none on overflow |
| Naming.MintIsNext | crates/bunko-core/src/generations.rs:341-355 | The minted id is the successor of the highest number, fresh and valid; none exactly when that number is the last |
| Naming.HighestIsThere | crates/bunko-core/src/generations.rs:341-349 | The highest number is one of the ids' own, or 0 |
| Generations.AssignIds | crates/bunko-core/src/generations.rs:504-544 | The two loops compute the specified ids or the first refusal |
| Generations.ReadWidths | crates/bunko-core/src/generations.rs:804-851 | The loop over a size table computes the specified sizes, in order, or refuses |
| Generations.ReadDevices | crates/bunko-core/src/generations.rs:862-892 | The loop over the device table computes the specified devices, or refuses |
| Generations.ParsePools | crates/bunko-core/src/generations.rs:758-895 | The pools of a row, whether a setting was dropped, or a refusal |
| Generations.RowDetector | crates/bunko-core/src/generations.rs:626-652 | An engine with its own detector has none; every other accepted row ends up on the remaining detector |
| Generations.RowName | crates/bunko-core/src/generations.rs:654-674 | An accepted name passes the rules and is not taken by an earlier row, given or seeded |
| Generations.RowBudget | crates/bunko-core/src/generations.rs:685-713 | An accepted patch budget is one of the known ones |
| Generations.RowPrecision | crates/bunko-core/src/generations.rs:715-730 | An accepted precision is a known mode, the default where the engine has none |
| Generations.EnsureRunnablePrimary | crates/bunko-core/src/generations.rs:915-957 | Does the specified repair: promotes the first default-engine row or puts a default row in front |
| Generations.ParseRows | crates/bunko-core/src/generations.rs:452-458 | The loop reads every row under the names of the rows before it, or gives the first refusal |
| Generations.ParseGenerationList | crates/bunko-core/src/generations.rs:426-462 | The whole reading, with its first refusal, is the specified one |
| GenerationRows.DeviceStable | crates/bunko-core/src/generations.rs:898-912 | An accepted device name is accepted again unchanged |
| GenerationRows.PoolsReread | crates/bunko-core/src/generations.rs:81-87 | Pools survive printing and reading, and nothing is dropped |
| GenerationRows.RowShape | crates/bunko-core/src/generations.rs:546-756 | Every accepted row is well formed, keeps its id, takes a new name; it is a runnable primary exactly when the raw row was an enabled primary on a live engine |
| GenerationRows.AbsentSettings | crates/bunko-core/src/generations.rs:626-730 | What a row gets for each setting it does not have |
| GenerationReading.RowIsCalled | crates/bunko-core/src/generations.rs:546-674 | A row keeps id, engine and given name; without one a retired row is called after its engine, a live one by the first free name |
| GenerationReading.RowKeeps | crates/bunko-core/src/generations.rs:565-612 | A retired row is neither primary nor enabled and keeps every field of the file, marked if it was the enabled primary; a live one is both as the file says |
| GenerationReading.DeviceSpellings | crates/bunko-core/src/generations.rs:898-912 | The spellings of a device and what each stands for |
| GenerationReading.TruncateIsTowardZero | crates/bunko-core/src/generations.rs:817-820 | A fraction given as a size is cut off toward zero |
| GenerationReading.IdsRefusedIff | crates/bunko-core/src/generations.rs:504-531 | Ids are refused exactly when one cannot be used or repeats; the refusal names the first such row |
| GenerationReading.RowsRefusedFirst | crates/bunko-core/src/generations.rs:452-458 | The first row refused, under the names of the rows before it, gives the refusal |
| GenerationReading.PrimaryRefusals | crates/bunko-core/src/generations.rs:959-987 | Without a primary no row is named; of several the second is |
| GenerationRows.PrintedShows | crates/bunko-core/src/generations.rs:195-223 | What a printed live row holds under every key |
| GenerationRows.RetiredReread | crates/bunko-core/src/generations.rs:565-612 | A printed retired row is read as retired again, with its name and its remembered past |
| GenerationRows.RereadIsSame | crates/bunko-core/src/generations.rs:153-203 | A row saved and loaded prints the same and has the same past and files |
| GenerationRows.RowReread | crates/bunko-core/src/generations.rs:195-223 | Reading a printed row gives the row back; only a retired one is migrated again |
| GenerationTheorems.MintedIff | crates/bunko-core/src/generations.rs:532-544 | Minting succeeds exactly when the rows without an id are no more than the numbers left |
| GenerationTheorems.LastNumbersOverflow | crates/bunko-core/src/generations.rs:346-349 | One row without an id overflows after the last number, two do after the one before it and one does not |
| GenerationTheorems.IdsAreDistinct | crates/bunko-core/src/generations.rs:504-544 | Every row gets its own valid id, pairwise distinct, the one it came with if it came with one |
| GenerationTheorems.ValidateIff | crates/bunko-core/src/generations.rs:959-987 | A list passes exactly when, if any row runs, exactly one runnable row is primary |
| GenerationTheorems.RepairIsSound | crates/bunko-core/src/generations.rs:915-957 | The repair keeps ids and names distinct, the added row's included, and leaves exactly one runnable primary; where there is nothing to repair it changes nothing |
| GenerationTheorems.RepairChangesLeast | crates/bunko-core/src/generations.rs:931-956 | When a row that runs is on the default engine, the first such row becomes primary and no other row or field changes; only otherwise one new enabled primary default row goes in front of the old rows |
| GenerationTheorems.AcceptedIsSettled | crates/bunko-core/src/generations.rs:426-462 | Every accepted list has pairwise distinct valid ids, pairwise distinct names, and exactly one runnable primary if a row runs |
| GenerationTheorems.AcceptedIff | crates/bunko-core/src/generations.rs:451-461 | For every list whose rows parse: accepted if and only if one raw row on a live engine is an enabled primary; or none is, but one on a removed engine was and a default row can be named and numbered; or no raw row is one and no row runs |
| GenerationTheorems.RepairSucceedsIff | crates/bunko-core/src/generations.rs:915-957 | The repair fails if and only if there is something to repair and no id number or name left for a default row |
| GenerationTheorems.UsuallyHasRoom | crates/bunko-core/src/generations.rs:931-934 | There is room whenever no id has the last number and a 32-bit counter outnumbers the rows |
| GenerationTheorems.OnePrimaryStaysOne | crates/bunko-core/src/generations.rs:368-370 | With exactly one raw enabled primary, on any engine, and rows that parse, the list is accepted and exactly one runnable row is primary (when the primary is on a removed engine, a default row must be nameable) |
| GenerationTheorems.OldPrimaryIsReplaced | crates/bunko-core/src/generations.rs:1016-1026 | A 0.5 configuration whose only row is a `mokuro` primary is accepted and ends up with exactly one runnable primary |
| GenerationTheorems.SidecarsAreDistinct | crates/bunko-core/src/generations.rs:153-159 | Runnable rows of an accepted list write pairwise different sidecars |
| GenerationTheorems.SaveAndLoad | crates/bunko-core/src/generations.rs:195-223 | Fixed point: for every accepted setting the printed rows are accepted and print the same, with the same ids, names, flags, past and files, retired rows included |
| GenerationMigration.RowMigratesIff | crates/bunko-core/src/generations.rs:546-872 | A row is reported as migrated exactly when it is on a removed engine, or names a removed detector where its engine has none, or sets a pool for a stage the engine does not have |
| GenerationMigration.MigratesIff | crates/bunko-core/src/generations.rs:254-255 | An accepted list is reported as migrated exactly when one of its raw rows migrates; the repair adds no other case |
| GenerationMigration.UnchangedIff | crates/bunko-core/src/generations.rs:195-223 | Saving an accepted list writes back the same rows exactly when they are what a save writes |
| GenerationMigration.ReportIsRightIff | crates/bunko-core/src/generations.rs:254-255 | The flag agrees with "a save would change the list" if and only if: for a list a save wrote, no row is on a removed engine; for any other, some row migrates |
| GenerationMigration.SavedListIsReported | crates/bunko-core/src/generations.rs:596 | What a save writes for a 0.5 installation is reported as migrated on every load, and a save leaves it alone |
| GenerationMigration.ChangedListIsNot | crates/bunko-core/src/generations.rs:254-255 | A row with an engine and a primary flag alone is accepted and not reported, and a save changes it |
| Reconcile.DistinctIffSeparate | web/queue/queue.js:188-195 | The items' keys are pairwise distinct if and only if no repeated raw key gets, by its mark, a raw key from before |
| Reconcile.UnmarkedKeysDistinct | web/queue/queue.js:188-189 | Raw keys without the duplicate marker always meet the condition, duplicates and built-in names included |
| Reconcile.MarkedKeysMayCollide | web/queue/queue.js:189 | A list that does not meet it: two items get one key |
| Reconcile.Container.InsertBefore | web/queue/queue.js:200 | The node leaves its place and stands before the cursor, or last |
| Reconcile.Container.Place | web/queue/queue.js:197-201 | The node leaves its place and follows those placed before, and the cursor stands at the first child not placed |
| Reconcile.Container.IndexChildren | web/queue/queue.js:180-184 | The index finds exactly the child carrying each key |
| Reconcile.Container.RemoveStale | web/queue/queue.js:203-205 | Exactly the children whose key was not kept go |
| Reconcile.Container.Reconcile | web/queue/queue.js:179-206 | For all items: every key has a node, a key present before keeps its node, every other node is new and no other child stays. One child for each item, under distinct keys, if and only if the raw keys are separate; then the children are the items' nodes in item order |
| Lanes.KeepKeeps | web/queue/queue.js:435-439 | The first pass conserves the jobs, puts a job only in its home lane and leaves no free home lane |
| Lanes.FillFills | web/queue/queue.js:440-445 | The second pass conserves the jobs, disturbs no filled lane, and leaves extra jobs only once every lane is taken, in order |
| Lanes.KeepShown | web/queue/queue.js:431-439 | The loop does the specified first pass from empty lanes |
| Lanes.FillFree | web/queue/queue.js:440-445 | The loop does the specified second pass |
| Lanes.PassesPlace | web/queue/queue.js:430-445 | From empty lanes the two passes place every job exactly once, keep shown jobs with distinct keys in their lanes, and overflow only when every lane is taken |
| Lanes.PlaceJobs | web/queue/queue.js:430-452 | Every job lands exactly once; a job with a distinct key shown in a valid lane stays there; jobs overflow only when all lanes are full; on deck is the overflow in order, then `next` |
| Lanes.WhichLane | web/queue/queue.js:430-445 | A lane that shows jobs of the list gets the first of them; the free lanes get the waiting jobs from the first on, in order |
| Lanes.AssignRows | web/queue/queue.js:807-817 | No layer has two rows, a layer still known keeps its row, and one goes without only when every row is taken; a row shows an unknown layer if and only if it showed it before and every object has its name |
| Lanes.RowsFillFromTop | web/queue/queue.js:812-816 | Layers without a row take the free rows from the top, in their order |
| Lanes.BuiltInNameStays | web/queue/queue.js:810 | A layer called `constructor` keeps its row though nothing knows it |
| Lanes.MachineList.InPlace | web/queue/queue.js:399-408 | The new order is the old one without those gone, then the newcomers |
| Lanes.OrderShowsPayload | web/queue/queue.js:399-408 | Exactly the machines of the payload are shown, each once |
| Lanes.NewcomersBehind | web/queue/queue.js:399-408 | A newcomer stands behind every machine shown before |
| Lanes.NewcomersAsNamed | web/queue/queue.js:399-408 | Newcomers stand in the order in which the payload first names them |
| Lanes.MachinesStayInOrder | web/queue/queue.js:392-408 | Over any sequence of payloads, two machines that stay keep their relative order |
| Activities.Tracker.Forget | crates/bunko-control/src/activity.rs:337-339 | Every claim with the id goes, the others stay in order |
| Activities.Tracker.OnPage | crates/bunko-control/src/activity.rs:194-210 | The claim's highest page and total, and the increment pushed |
| Activities.Tracker.OnVolumeDone | crates/bunko-control/src/activity.rs:211-235 | The claim goes and the day's and total counts advance, starting over on a new day |
| Activities.Tracker.OnReleased | crates/bunko-control/src/activity.rs:240-245 | Every claim named goes |
| Activities.Tracker.On | crates/bunko-control/src/activity.rs:122-266 | Every op, event and device list, and the end of the link, does what the specification says to the whole state, down to a volume's display name and a session's device |
| Activities.FirstGpu | crates/bunko-control/src/activity.rs:347-350 | The first GPU of the stages, or none when no stage has one |
| Activities.Tracker.PagesLastMinute | crates/bunko-control/src/activity.rs:318-330 | Drops the expired front of the increments and returns the sum of the rest |
| Activities.FollowsStep | crates/bunko-control/src/activity.rs:131-257 | One step of the claim list agrees with what the history says of a claim, and pushes exactly the rise of its highest page |
| Activities.PagesConserved | crates/bunko-control/src/activity.rs:181-245 | Over every history, a claim is held exactly while the history says so, with its title, highest page, last length and the time of its first report, and the increments pushed for it sum to that highest page |
| Activities.SessionsAreTold | crates/bunko-control/src/activity.rs:131-180 | Over every history, exactly the open sessions are held, each with the engine it was opened with and the precision and device it was last ready with |
| Activities.HeldIsRecentLog | crates/bunko-control/src/activity.rs:318-327 | The increments held are all ever pushed but a front part no later reading could count |
| Activities.RateCountsLastMinute | crates/bunko-control/src/activity.rs:318-330 | The page rate never counts less than the last minute, and counts exactly that if and only if no expired increment stands behind a fresh one (so always when increments are in time order) |
| Activities.RateMayCountMore | crates/bunko-control/src/activity.rs:169-170 | Two page reports of one claim, the second with a clock reading one second older, after which 2 pages are counted and 1 is of the last minute |
| Activities.CountsConserved | crates/bunko-control/src/activity.rs:211-229 | Over every history, from stored counts with a carry in [0,1), busy seconds plus carry are the day's summed non-negative seconds, the carry is in [0,1), and the day's and total counts are the history's |

## Left out

- Clock readings, random tokens and percent-decoding are parameters. Tokens are not assumed fresh: an
  acquire that repeats a token replaces that lock, and `ExclusiveLockExcludes` counts it as ending it.
- Locks.LockManager.IndirectTokens: a set of tokens; the source lists them in no particular order.
- Locks.OthersAreInvisible: while the table is not full; its limit of 10000 locks is shared by all users. A
  depth-infinity acquire or write check on a shared folder is outside: it does see the file locks below.
- `parse_timeout`, `timeout_text` and `is_locked_by_token` of the lock table: easy.
- The flight locks, generation slots, debounce timer and start-up warming of the cache only remove
  interleavings or decide when a step happens. A cache made outside an async runtime (no background
  refresh at all) is not modelled.
- PropfindTables.PropfindTable.EvictOne: use counters, epoch and byte count are unbounded; the source's
  are machine integers.
- Listing.DeflateCall: the deflate bit format and its compression are abstract. A stream is a sequence of
  literals, sync marks and a final mark under the stated contract; the reader's half is the gzip header,
  CRC-32 and size trailer in full (section 2.3 of RFC 1952).
- Listing.RespondGzip: the length of a code is not fixed; byte lengths are any measure that adds up over
  the parts of a body, and the hash is any hash (`CRC_32` spells out the one in use).
- Listing.RespondPlain: which errors a decompressor can have; it may fail at any call.
- Listing.Compress: when it fails there is no entry; that failures are rare is not stated.
- `propfind::walk`, root lookup and which folders a listing shows: a listing is any map that agrees, path
  by path below its key, with tree versions since its start.
- `evaluate_http`, `parse_etag_list`, `if_range_holds` and HTTP dates: short early-exit tests.
- Conditional.ParseHeader: the header is a string of ASCII characters, as the source's header access
  ensures; byte and character positions coincide.
- ConditionalTheorems.ParsedIsWritable: resources must read as they are spelled; decoding a path twice can
  change it, and percent-decoding is a parameter.
- ConditionalTheorems.ReadsBackIff: a resource tag is closed by its own `>`, which no URI has in it.
- JSON text: reading text as JSON is a parameter that never yields a string longer than its text; a float
  carries its text; floats are reals.
- Warnings and messages of the generation list; an error keeps its row and field.
- `parse_bench_spec`, `output_affecting`, `effective_detector` and the other one-line readings of a row.
- Reconcile.Container.Reconcile: starts from children under distinct keys, as a reconciliation of separate
  items leaves them; the `create` and `update` callbacks do not touch the list, as on the page.
- Lanes.MachineList.InPlace: works on machine names; of two machines of one name the page shows the last.
- Lanes.AssignRows: the layers known are the input; which are known depends on the page's display level.
- Drawing, banners, ages, bars and everything else of the queue page.
- Activities.Tracker.On: page counts and seconds are unbounded, seconds are reals; the devices of a
  session's stages come in the order of the stages' names.
- `current`, `counts`, `held` and storing the counts in a file.
- The configuration field by field, the control server's pause timer, the admin panel, the catalog, HTTP
  plumbing, OCR itself and packaging.
