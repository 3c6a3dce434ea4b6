# Verification of Lantern's catch-up, limits, previews and transfers

A Dafny 4.11 model of the parts of Lantern whose behaviour spans many calls: what an operation
keeps, what a run of operations adds up to, what two programs reading the same bytes must agree
on. `dafny verify dfyconfig.toml` checks the whole project.

Each file models one source file or one part of it. Code that the source writes as a class with
changing fields is a class here, code that it writes as a loop is a method with that loop, and both
are proved equal to a specification function; the properties are lemmas about those functions and
about runs of them. Every induction is written out: wherever Dafny would try one by itself,
`{:induction false}` keeps it from doing so.

Safety alone would hold of code that does nothing, so each operation also has its other half: what
it must do, said without the functions it is specified by.

- **Channel catch-up.** `ChannelHistory` and `Utf8` (signed records), `Snapshots` (framed, canonical
  snapshots), `ReadingOrder` (the byte order records are read in), `Ranking` (keeping the greatest k
  of a growing set, stable sorting), `HistoryStore`, `HistoryTies`, `HistoryLosses` and
  `HistoryTable` (the table under three limits, and all it may lose), `ChatBook`, `ChatConvergence`
  and `ChatMerging` (the merged view of signed records, and of any mixture), `Proto`, `LiveRooms`,
  `LiveDelivery` and `ChannelRecord` (records inside packets, the receive path, the second parser).
- **Per-peer limits.** `RateLimit` compares the bounded limiter with one that never forgets,
  `RateRefusals` says when a call is refused in frames and times alone; `Notices` is the throttle of
  its warnings.
- **Image admission.** `Png`, `Jpeg` and `ImagePreview`, with `Preview` for the common bounds;
  `PngImages` and `JpegImages` say which files are admitted.
- **File transfer.** `FileOffers`, `FileOfferLimits` and `FileAdmission` (the list, what it keeps and
  what it takes in), `Downloads` and `DownloadOutcomes` (clicks, preparations, native events and
  restarts, interleaved), `FileJobs` and `FileCancels` (the native side's threads and locks).
- **Smaller machines.** `Messages` and `MessageLosses` (one-to-one texts over a bad network),
  `NostrInbox` and `InviteOutcomes` (admission windows, dismissals), `Poll` (two queues by turns),
  `Release` and `ReleaseProgress` (version numbering).

## What is taken as given

- Ed25519 is a record of uninterpreted functions (`ChannelHistory.Crypto`). The one law used of it,
  that an honest signature has 64 bytes and verifies (`Sound`), is a hypothesis of the lemmas that
  need it. Where records are deduplicated by signature, that equal verified signatures mean equal
  bytes is a hypothesis too (`Identifying`, `SignaturesIdentify`, `Consistent`).
- postcard is a record of functions with the law that reading what was written gives the value back
  and leaves the tail untouched (`Proto.Lawful`). Inflating (RFC 1950), parsing JSON, finding a
  ticket and hashing an invitation are parameters.
- A SQLite table is a set of rows, or a map by primary key. ORDER BY a unique order is the listing
  in that order.
- Tokens and seconds of the limiter are real numbers. Successive calls see times that do not run
  backwards (`ValidRun`); the source reads the clock before it takes the lock. Which entry a full
  hash map gives up is part of each call.
- Receipt times of the history table do not run backwards within a run (`Timely`).
- Strings of the managed side are UTF-16 units.
- Native blob handles are fresh within one node, a fetch's file name is a fresh GUID, and a
  message id has not been recorded or sent before.
- In `FileJobs`, what a thread does under a mutex or a write lock is one step; read locks are held
  over several.

## Where the code and what is said of it differ

- `channel_history_insert` answers that a row was inserted even where the same call prunes it on a
  receipt-time tie (`HistoryTies.ReportedInsertionCanBePruned`); when it does not is
  `HistoryTies.InsertedRowIsKept`.
- The managed list orders by claimed time and signature, the native one by claimed time, author, id
  and signature. Each is canonical, but they are different orders.
- A record received again after its row has expired, but before that row is pruned, is ignored as
  present and its row pruned in the same call (`HistoryLosses.RepeatDoesNotRenew`).

## Model

| member | source | states |
|---|---|---|
| `ChannelHistory.VerifyExactly` | crates/lantern-core/src/channel_history.rs:123-160 | `verify` accepts a byte string with a record exactly when the record is genuine (32-byte author and room, 16-byte id, nonnegative time, admissible text, signature by the author over the domain and body) and the bytes spell its fields in order |
| `ChannelHistory.VerifyInvertsSign` | crates/lantern-core/src/channel_history.rs:98-114 | what `sign` writes, `verify` reads back field by field; bad text or a negative time is refused |
| `ChannelHistory.VerifyIsGenuine` | crates/lantern-core/src/channel_history.rs:123-160 | every accepted byte string is the layout of its parsed fields, signed by its author |
| `ChannelHistory.GenuineVerifies` | crates/lantern-core/src/channel_history.rs:123-160 | every genuine record is accepted and parsed to itself |
| `Utf8.EncodeOfDecode` | crates/lantern-core/src/channel_history.rs:139-139 | the strict UTF-8 decoder (section 3 of RFC 3629) accepts nothing but the encoder's output, so text and bytes determine each other |
| `Utf8.DecodeOfEncode` | crates/lantern-core/src/channel_history.rs:111-111 | decoding inverts encoding for every text |
| `Snapshots.PushUnique` | crates/lantern-core/src/channel_history.rs:220-224 | one record joins the list if it verifies and its signature is new |
| `Snapshots.Collect` | crates/lantern-core/src/channel_history.rs:177-182 | the filter loop yields the verifying records with each signature once, the first of each |
| `Snapshots.WriteFrames` | crates/lantern-core/src/channel_history.rs:188-191 | the write loop emits every record behind its two-byte length, in order |
| `Snapshots.Snapshot` | crates/lantern-core/src/channel_history.rs:173-193 | at most 256 inputs; the snapshot is header, count and frames of the kept records |
| `Snapshots.ReadEntries` | crates/lantern-core/src/channel_history.rs:212-228 | the cursor loop accepts exactly complete framing that ends at the last byte, dropping junk entries singly |
| `Snapshots.ReadSnapshot` | crates/lantern-core/src/channel_history.rs:197-231 | reading checks magic, room, count and framing and returns the verified, deduplicated, sorted records |
| `Snapshots.SnapshotRoundTrip` | crates/lantern-core/src/channel_history.rs:173-231 | for at most 256 inputs, reading the snapshot always succeeds within the size limit and gives the kept records |
| `Snapshots.SnapshotIsCanonical` | crates/lantern-core/src/channel_history.rs:162-193 | inputs with the same set of byte strings, in any order and with any repeats, give byte-identical snapshots |
| `Snapshots.KeptIsCanonical` | crates/lantern-core/src/channel_history.rs:162-193 | the kept records are strictly ascending and have different signatures |
| `Snapshots.KeptElements` | crates/lantern-core/src/channel_history.rs:177-183 | a record is kept exactly when its bytes are among the inputs and verify to it |
| `ReadingOrder.OrderIsByteOrder` | crates/lantern-core/src/channel_history.rs:162-170 | the comparison is the byte order of the big-endian time, author, id and signature written one after the other |
| `ReadingOrder.ReadInOrder` | crates/lantern-core/src/channel_history.rs:162-170 | what is read is strictly ascending in that byte order, oldest first |
| `ReadingOrder.FirstIsKept` | crates/lantern-core/src/channel_history.rs:177-182 | of records with one signature the first is kept |
| `Ranking.TopStreams` | crates/lantern-core/src/store.rs:286-296 | the greatest k of a set are the same whether it is cut before or after a newcomer arrives |
| `Ranking.TopStable` | crates/lantern-core/src/store.rs:286-296 | any subset that contains the greatest k has the same greatest k |
| `Ranking.TailIsTop` | src/XivLantern.Core/ChatBook.cs:83-87 | the tail of an ascending list holds its greatest elements |
| `Ranking.SortAscending` | crates/lantern-core/src/channel_history.rs:162-170 | the stable insertion sort of distinct, comparable elements is strictly ascending |
| `Ranking.SortInOrder` | src/XivLantern.Core/ChatBook.cs:84-86 | with ties, the sorted sequence is in order |
| `Ranking.SortIsStable` | src/XivLantern.Core/ChatBook.cs:84-86 | elements that tie keep the order they had |
| `Ranking.AscendingIsUnique` | crates/lantern-core/src/channel_history.rs:162-170 | a set has only one strictly ascending listing |
| `HistoryStore.CutStreams` | crates/lantern-core/src/store.rs:284-296 | under both caps at once, pruning before an insertion loses nothing that pruning after it would keep |
| `HistoryStore.CutStable` | crates/lantern-core/src/store.rs:286-296 | any table between the one-shot cut and the whole log cuts to the same rows |
| `HistoryStore.CutExpires` | crates/lantern-core/src/store.rs:284-296 | expiry commutes with both caps |
| `HistoryStore.InsertIsOneShot` | crates/lantern-core/src/store.rs:274-299 | inserting into a pruned table gives the one-shot cut of the log with the new row, at the new time |
| `HistoryStore.RunIsOneShot` | crates/lantern-core/src/store.rs:274-337 | after any run of inserts, prunes and clears with nondecreasing times the table is the one-shot cut (24 h, 256 per room, 8192 overall) of the log: the latest insertion of each record since the last clear of any room, which restarts the log at the rows it leaves; no hypothesis on records coming back |
| `HistoryStore.RunKeepsFirstInsertions` | crates/lantern-core/src/store.rs:272-299 | if no record returns after being pruned, that log is exactly the first insertions |
| `HistoryStore.LogIsFirstRows` | crates/lantern-core/src/store.rs:272-299 | the log of latest insertions and the log of first insertions are then the same |
| `HistoryTies.InsertedRowIsKept` | crates/lantern-core/src/store.rs:274-299 | in every timely run, a row reported as inserted survives its own call if and only if fewer than 256 of its room and 8192 overall win its receipt-time tie |
| `HistoryTies.TiesDecide` | crates/lantern-core/src/store.rs:284-296 | the same for one insertion into any pruned table |
| `HistoryTies.ReportedInsertionCanBePruned` | crates/lantern-core/src/store.rs:279-298 | of up to 257 verified records of one room received at once, least signature last, the last is reported as inserted, and the same call prunes it if and only if it is the 257th |
| `HistoryTies.BurstIsAdmissible` | crates/lantern-core/src/store.rs:274-299 | such a run has nondecreasing times and signatures that identify, so the run theorems speak of it |
| `HistoryTies.TiesExist` | crates/lantern-core/src/channel_history.rs:123-160 | 257 such records exist: 32-byte room, 64-byte signatures, accepted bytes, under a sound signature scheme |
| `HistoryLosses.ClearTakesTheRoom` | crates/lantern-core/src/store.rs:326-329 | clearing takes a row exactly if it is of the room |
| `HistoryLosses.ClearedRoomStartsAnew` | crates/lantern-core/src/store.rs:326-329 | in every run, what is in a room after it was cleared was put there later |
| `HistoryLosses.TableIsBounded` | crates/lantern-core/src/store.rs:284-296 | after every timely run at most 256 rows of a room, 8192 in all, none older than 86400000 ms |
| `HistoryLosses.LostRowWasOvertaken` | crates/lantern-core/src/store.rs:284-296 | a logged row younger than that is missing only if 256 logged rows of its room, or the 8192 rows of a full table, were received no earlier |
| `HistoryLosses.NewRecordIsStored` | crates/lantern-core/src/store.rs:274-299 | a verified record that is not there, received later than all others, is in the table after its call |
| `HistoryLosses.RepeatDoesNotRenew` | crates/lantern-core/src/store.rs:278-285 | a record that is there already keeps its receipt time: its row stays while younger than a day and goes with the repeat otherwise |
| `HistoryTables.Table.Insert` | crates/lantern-core/src/store.rs:274-299 | the method makes the table the specified one and says whether the row was new; a negative time or bytes that do not verify change nothing |
| `HistoryTables.Table.InsertRow` | crates/lantern-core/src/store.rs:278-298 | the transaction: insert unless present, expire, cap the room, cap everything |
| `HistoryTables.Table.PruneExpired` | crates/lantern-core/src/store.rs:333-337 | removes exactly the expired rows and counts them |
| `HistoryTables.Table.ClearRoom` | crates/lantern-core/src/store.rs:326-329 | removes exactly the room's rows |
| `HistoryTables.Table.Query` | crates/lantern-core/src/store.rs:305-312 | the listing is the newest 256 admissible rows of the room, newest first |
| `HistoryTables.Table.Read` | crates/lantern-core/src/store.rs:303-323 | reading reverifies every listed row, drops what no longer verifies and repeats of a signature, and sorts |
| `HistoryTables.RunIsAuthentic` | crates/lantern-core/src/store.rs:276-283 | in every run each row carries the signature its bytes verify with, and keys are unique |
| `HistoryTables.QueryIsOneShot` | crates/lantern-core/src/store.rs:305-312 | the query's own limit loses nothing of a pruned table |
| `HistoryTables.ReadIsOneShot` | crates/lantern-core/src/store.rs:303-323 | what is read after any timely run is, ascending and without repeats, exactly the records of the one-shot cut at the time of reading |
| `ChatBook.Conversation.Add` | src/XivLantern.Core/ChatBook.cs:35-50 | a repeated signed record or friend text changes nothing; otherwise the line is appended, the list cut to its last 500, and unread and version follow |
| `ChatBook.Conversation.Mark` | src/XivLantern.Core/ChatBook.cs:53-61 | exactly the last outgoing line with the id changes state |
| `ChatBook.Conversation.Clear` | src/XivLantern.Core/ChatBook.cs:65-70 | the list is emptied, nothing is unread and the version moves |
| `ChatBook.Conversation.LoadHistory` | src/XivLantern.Core/ChatBook.cs:73-89 | the list becomes the specified merge of the loaded and the surviving lines |
| `ChatBook.WithoutRepeats` | src/XivLantern.Core/ChatBook.cs:75-76 | the loop keeps the first line of each signature and every unsigned line |
| `ChatBook.Surviving` | src/XivLantern.Core/ChatBook.cs:77-80 | the lines the history does not bring again survive |
| `ChatConvergence.LoadSettles` | src/XivLantern.Core/ChatBook.cs:73-89 | one load takes a settled view of a set of records to a settled view of the larger set |
| `ChatConvergence.LoadsSettle` | src/XivLantern.Core/ChatBook.cs:73-89 | after any loads the list shows the greatest 500 by claimed time and signature of the distinct records seen, ascending |
| `ChatConvergence.Convergence` | src/XivLantern.Plugin/LanternService.cs:515-522 | loads in any order, grouping and repetition that bring the same records leave the same signatures, times and texts in the same order |
| `ChatConvergence.NothingIsLostWithinCapacity` | src/XivLantern.Core/ChatBook.cs:35-89 | while at most 500 distinct records have arrived, live or by catch-up, all of them are shown, and sorted after a catch-up |
| `ChatMerging.LoadShowsExactly` | src/XivLantern.Core/ChatBook.cs:73-89 | for any mixture of lines whose merge fits 500, a load shows exactly the first line of each signature and every unsigned line of the history, and each listed line for which the history has neither its signature nor, unsigned, its id and direction; unsigned lines with id 0 always stay |
| `ChatMerging.UnsignedKeepTheirOrder` | src/XivLantern.Core/ChatBook.cs:81-86 | where nothing is signed the history comes first as it is, and surviving lines after it in their order |
| `ChatMerging.SignedAreInOrder` | src/XivLantern.Core/ChatBook.cs:81-86 | where something is signed the merge is in order of claimed or else local time, unsigned before signed, then signature, and ties keep their order |
| `ChatMerging.LastLinesExactly` | src/XivLantern.Core/ChatBook.cs:87-87 | beyond 500 lines a conversation is cut at the front only |
| `ChatMerging.AddedOnce` | src/XivLantern.Core/ChatBook.cs:35-50 | a record or friend message is added once, own, system and numberless lines always, at the end |
| `ChatMerging.LastOutgoingIsLast` | src/XivLantern.Core/ChatBook.cs:53-61 | no outgoing line with the number comes after the one found |
| `RateLimit.Limiter.Allow` | crates/lantern-core/src/ratelimit.rs:44-62 | the method decides and updates as specified, giving up an entry exactly when forgetting refilled buckets leaves the table full |
| `RateLimit.Limiter.ForgetFull` | crates/lantern-core/src/ratelimit.rs:64-76 | only refilled buckets go, and one arbitrary entry if that is not enough |
| `RateLimit.CallLevels` | crates/lantern-core/src/ratelimit.rs:44-76 | one call costs its caller one token if allowed, refills the evicted peer and changes nobody else's level |
| `RateLimit.TrackedIsBounded` | crates/lantern-core/src/ratelimit.rs:44-76 | on every run at most 4096 peers are tracked |
| `RateLimit.SameDecisionUntilEviction` | crates/lantern-core/src/ratelimit.rs:44-76 | up to and including the call of the first arbitrary eviction every decision is the unbounded limiter's |
| `RateLimit.InStepUntilEviction` | crates/lantern-core/src/ratelimit.rs:64-69 | until then every peer's count and level are the unbounded limiter's: forgetting refilled buckets costs nothing |
| `RateLimit.NeverBehind` | crates/lantern-core/src/ratelimit.rs:44-76 | even after evictions no peer's count of allowed frames is below the unbounded limiter's |
| `RateLimit.SpentAndLeft` | crates/lantern-core/src/ratelimit.rs:44-76 | what was allowed since t1 plus what is left never exceeds what was granted since t1 |
| `RateLimit.RateBound` | crates/lantern-core/src/ratelimit.rs:44-76 | a peer gets at most (1 + evictions) * burst + rate * (t2 - t1) frames in any [t1, t2] |
| `RateRefusals.RefusedIsUsedUp` | crates/lantern-core/src/ratelimit.rs:44-62 | in every valid run a call is refused only if some stretch of time up to it would, with it, see more than a burst and what the rate adds |
| `RateRefusals.AllowedExactly` | crates/lantern-core/src/ratelimit.rs:44-62 | a call of a peer that was never evicted is allowed if and only if no stretch of time up to it would see more than that |
| `RateRefusals.EvictionIsForced` | crates/lantern-core/src/ratelimit.rs:64-76 | somebody is evicted only for a new peer while 4096 tracked peers are short of a burst, and is one of them |
| `Notices.Throttle.ShouldWarn` | crates/lantern-core/src/ratelimit.rs:113-124 | warns unless the peer's last notice is under 30 seconds old, and remembers it |
| `Notices.NoticesAreSpaced` | crates/lantern-core/src/ratelimit.rs:113-124 | over any run, a notice is due if and only if the peer's last one is at least 30 seconds old, however often the table was pruned |
| `Png.CheckRows` | src/XivLantern.Core/ImagePreview.cs:57-64 | the row loop accepts exactly pixel data of the right length with filter types of at most 4 |
| `Png.Admit` | src/XivLantern.Core/ImagePreview.cs:26-75 | the one-pass loop gives what cutting into chunks, checking the list and keeping the listed kinds gives |
| `Png.ChunksOfFlatten` | src/XivLantern.Core/ImagePreview.cs:32-37 | a concatenation of framed chunks is cut back into exactly those chunks |
| `Png.FlattenOfChunks` | src/XivLantern.Core/ImagePreview.cs:32-37 | the chunks of an input spell the input |
| `Png.KeptIsFilter` | src/XivLantern.Core/ImagePreview.cs:66-72 | every chunk of the output is an IHDR, PLTE, tRNS, IDAT or IEND chunk of the input, with as many of these before it there as here |
| `Png.NothingKeptIsLost` | src/XivLantern.Core/ImagePreview.cs:66-72 | and every such chunk of the input is in the output, in that place |
| `Png.AdmissionKeepsMeaning` | src/XivLantern.Core/ImagePreview.cs:26-75 | the output's chunk list is the input's list without ancillary chunks, with the same concatenated image data |
| `Png.AdmissionIsFixedPoint` | src/XivLantern.Core/ImagePreview.cs:26-75 | admitting the output again returns it unchanged |
| `PngImages.AdmittedExactly` | src/XivLantern.Core/ImagePreview.cs:26-75 | an input is admitted if and only if it is an image: an 8-bit header of a known colour type within bounds, palettes, transparency and skippable chunks, adjacent data chunks that inflate to its rows of pixels of that type, skippable chunks, and the end |
| `PngImages.ImagesAreAdmitted` | src/XivLantern.Core/ImagePreview.cs:26-75 | and comes out as its header, palettes, transparency, data and end, in order |
| `Jpeg.ReadSegment` | src/XivLantern.Core/ImagePreview.cs:82-88 | reads one segment, fill bytes included, or fails on truncated or unmarked input |
| `Jpeg.Scan` | src/XivLantern.Core/ImagePreview.cs:101-110 | the inner loop stays in bounds, ends on every input and accepts exactly the sound scans |
| `Jpeg.Admit` | src/XivLantern.Core/ImagePreview.cs:76-119 | the one-pass loop gives what cutting into segments, checking the list and the scan and dropping metadata gives |
| `Jpeg.ScanIsItemsThenEnd` | src/XivLantern.Core/ImagePreview.cs:102-110 | accepted scans are exactly data bytes, stuffed zeros and restart markers, ended by the end-of-image marker as last byte |
| `Jpeg.SegmentsSpell` | src/XivLantern.Core/ImagePreview.cs:80-88 | the segments and the scan spell the input |
| `Jpeg.KeptIsFilter` | src/XivLantern.Core/ImagePreview.cs:113-115 | every segment kept is a segment of the input that is not E0..EF or FE, with as many of these before it there as here |
| `Jpeg.OnlyMetadataGoes` | src/XivLantern.Core/ImagePreview.cs:113-115 | and every such segment of the input is kept, in that place |
| `Jpeg.KeptTwice` | src/XivLantern.Core/ImagePreview.cs:113-115 | keeping again changes nothing, and nothing grows |
| `Jpeg.AdmissionKeepsMeaning` | src/XivLantern.Core/ImagePreview.cs:76-119 | the output is cut into exactly the input's segments that are not application data or comments, followed by the same scan |
| `Jpeg.AdmittedHasOneFrame` | src/XivLantern.Core/ImagePreview.cs:89-96 | the output has exactly one frame header, baseline and in bounds, before its only start of scan over the whole spectrum, and otherwise only tables |
| `Jpeg.AdmissionIsFixedPoint` | src/XivLantern.Core/ImagePreview.cs:76-119 | admitting the output again returns it unchanged |
| `JpegImages.AdmittedExactly` | src/XivLantern.Core/ImagePreview.cs:76-119 | an input is admitted if and only if it is an image: notes and tables around one baseline frame of one or three components within bounds, a scan header over the whole spectrum, and entropy-coded data ended by the end of image |
| `JpegImages.ImagesAreAdmitted` | src/XivLantern.Core/ImagePreview.cs:76-119 | and comes out without its application data and comments, all else in order |
| `ImagePreview.Admit` | src/XivLantern.Core/ImagePreview.cs:18-24 | chooses by the signature within 16 MiB, and rejects everything else |
| `ImagePreview.AdmissionIsFixedPoint` | src/XivLantern.Core/ImagePreview.cs:18-24 | what is returned is no longer, of the same format, admitted, and returned unchanged |
| `ImagePreview.PreviewsAreImages` | src/XivLantern.Core/ImagePreview.cs:13-24 | what is admitted is exactly those PNG and JPEG images of at most 16777216 bytes |
| `FileOffers.OfferList.Withdraw` | src/XivLantern.Core/FileOffers.cs:22-38 | a running row is canceled and marked, a canceling or saved row marked, any other row removed |
| `FileOffers.OfferList.Add` | src/XivLantern.Core/FileOffers.cs:43-75 | adds the specified row or, where any check fails, nothing |
| `FileOffers.OfferList.BeginFetch` | src/XivLantern.Core/FileOffers.cs:79-89 | starts exactly an allowed offered, failed or canceled row while a slot is free |
| `FileOffers.OfferList.Progress` | src/XivLantern.Core/FileOffers.cs:91-99 | moves only a running row, forwards and within its size |
| `FileOffers.OfferList.Complete` | src/XivLantern.Core/FileOffers.cs:103-111 | ends a running or canceling row; a withdrawn one that failed goes |
| `FileOffers.OfferList.CancelRequested` | src/XivLantern.Core/FileOffers.cs:115-121 | only a running row becomes canceling |
| `FileOffers.OfferList.RemoveWhere` | src/XivLantern.Core/FileOffers.cs:123-123 | exactly the rows asked for go |
| `FileOfferLimits.ReachableIsValid` | src/XivLantern.Core/FileOffers.cs:13-125 | every reachable list has at most 128 rows, 8 per peer and 2 busy, distinct handles and files, done within size within 16 MiB, plain names, and withdrawn rows only canceling or saved |
| `FileOfferLimits.StepKeepsValid` | src/XivLantern.Core/FileOffers.cs:22-123 | every single operation keeps all of that |
| `FileOfferLimits.StepActsOnRows` | src/XivLantern.Core/FileOffers.cs:22-123 | what each operation makes of each row, said about that row alone: no operation touches another handle's row |
| `FileOfferLimits.WithdrawalIsFinal` | src/XivLantern.Core/FileOffers.cs:22-38 | unless its handle is offered anew, a withdrawn offer stays withdrawn or goes, and never runs again |
| `FileAdmission.OfferIsListed` | src/XivLantern.Core/FileOffers.cs:42-75 | an offer is listed exactly if its fields are in bounds, peer and room are allowed, fewer than 128 rows and 8 of the peer are listed and none with its handle or file, and then with lower-case hashes and its last name component |
| `FileAdmission.BeginsExactly` | src/XivLantern.Core/FileOffers.cs:79-89 | a fetch begins exactly for a listed, allowed row that is offered, failed or canceled while fewer than two rows are busy |
| `Downloads.Service.DownloadFile` | src/XivLantern.Plugin/LanternService.cs:1058-1107 | reserves a slot and leaves one pending preparation, or nothing |
| `Downloads.Service.PreparationDone` | src/XivLantern.Plugin/LanternService.cs:1086-1104 | the callback acts only in its generation and on the row still at its own destination; it ends the row or queues it with its native fetch |
| `Downloads.Service.CancelFileDownload` | src/XivLantern.Plugin/LanternService.cs:1109-1126 | before the native fetch the row ends at once; afterwards it waits for the native result |
| `Downloads.Service.DownloadEnded` | src/XivLantern.Plugin/LanternService.cs:469-478 | a queued handle leaves the queue and its row ends; any other event is not about a download |
| `Downloads.Service.BlobOffered` | src/XivLantern.Plugin/LanternService.cs:456-462 | an offer event adds at most one row |
| `Downloads.Service.BlobWithdrawn` | src/XivLantern.Plugin/LanternService.cs:466-468 | a withdrawal event withdraws the row |
| `Downloads.Service.ForgetFileOffers` | src/XivLantern.Plugin/LanternService.cs:1128-1134 | the rows go, native fetches among them stay queued until they end |
| `Downloads.Service.Stop` | src/XivLantern.Plugin/LanternService.cs:246-272 | stopping clears rows and queue and makes every pending preparation stale |
| `Downloads.StepKeepsInv` | src/XivLantern.Plugin/LanternService.cs:455-478 | each of the ten kinds of step keeps the obligations of every row |
| `Downloads.OneObligationEach` | src/XivLantern.Plugin/LanternService.cs:1058-1126 | in every interleaving, a listed running or canceling row has exactly one obligation, its own pending callback or its place in the queue, and every other row has none |
| `Downloads.FetchesAreDistinct` | src/XivLantern.Plugin/LanternService.cs:1086-1104 | each reservation starts at most one native fetch |
| `Downloads.DrainingFreesSlots` | src/XivLantern.Plugin/LanternService.cs:1058-1126 | from every reachable state, once pending preparations have reported and running fetches have ended, with any outcomes, both slots are free |
| `DownloadOutcomes.ClickReserves` | src/XivLantern.Plugin/LanternService.cs:1058-1066 | a click on such a row makes it running with its new destination and one pending preparation; any other click changes nothing |
| `DownloadOutcomes.PreparedStarts` | src/XivLantern.Plugin/LanternService.cs:1090-1101 | a preparation that succeeded, for its own running and allowed row, starts the fetch and queues the handle |
| `DownloadOutcomes.PreparedFails` | src/XivLantern.Plugin/LanternService.cs:1093-1102 | one that failed, is no longer allowed or was canceled starts nothing and ends the row |
| `DownloadOutcomes.StrangersChangeNothing` | src/XivLantern.Plugin/LanternService.cs:1089-1092 | a callback of another generation, or whose row is gone, at rest or has another destination, starts and ends nothing |
| `DownloadOutcomes.EndShows` | src/XivLantern.Plugin/LanternService.cs:469-478 | a fetch that ends is saved if verified, gone if withdrawn, canceled if asked to stop and failed otherwise |
| `DownloadOutcomes.OfferShows` | src/XivLantern.Plugin/LanternService.cs:456-461 | an offer event lists its row exactly if the offer is well formed and has a place |
| `DownloadOutcomes.CancelShows` | src/XivLantern.Plugin/LanternService.cs:1109-1126 | a cancel ends a row that is not yet fetched, makes a fetched one wait, and does nothing where the fetch has just ended |
| `DownloadOutcomes.ProgressShows` | src/XivLantern.Core/FileOffers.cs:91-99 | progress within the size and forwards shows, any other does not |
| `DownloadOutcomes.WithdrawalShows` | src/XivLantern.Core/FileOffers.cs:22-38 | a withdrawn row goes unless it is busy or saved |
| `DownloadOutcomes.ClickedFileIsSaved` | src/XivLantern.Plugin/LanternService.cs:1058-1103 | from every reachable state a click on a row that can start, its preparation, progress and verified end leave the file saved where the click said |
| `DownloadOutcomes.PreparedAndEndedIsSaved` | src/XivLantern.Plugin/LanternService.cs:1090-1101 | in every run a successful preparation followed by a verified end leaves its row saved |
| `DownloadOutcomes.EveryFetchIsWanted` | src/XivLantern.Plugin/LanternService.cs:1086-1101 | in every run each native fetch was started by a preparation that succeeded, of a click before it |
| `DownloadOutcomes.StoppedIsStale` | src/XivLantern.Plugin/LanternService.cs:246-272 | in every run a preparation pending at a stop changes nothing whenever it reports |
| `FileJobs.Shared.ForgetRemoves` | crates/lantern-core/src/node.rs:199-205 | the removal loop takes exactly the matching remote offers out, under the write lock |
| `FileJobs.Shared.ForgetSignals` | crates/lantern-core/src/node.rs:206-211 | every removed blob's registered job is signalled |
| `FileJobs.Shared.FetchReads` | crates/lantern-core/src/node.rs:1887-1901 | a fetch goes on exactly with a hashed remote offer in bounds from an unblocked peer |
| `FileJobs.Shared.FetchRegisters` | crates/lantern-core/src/node.rs:1902-1910 | a blob without a job gets a fresh one, otherwise the fetch fails |
| `FileJobs.Shared.Drop` | crates/lantern-core/src/node.rs:126-128 | dropping a job removes the entry under its blob |
| `FileJobs.Shared.BlobCancelBounded` | crates/lantern-core/src/node.rs:1916-1921 | a registered job is signalled, an unknown one reported |
| `FileJobs.Shared.BlockSweeps` | crates/lantern-core/src/node/friends.rs:1329-1331 | every job of the blocked sender is signalled |
| `FileJobs.StepKeepsInv` | crates/lantern-core/src/node.rs:199-211 | every lock section of every thread keeps the invariant |
| `FileJobs.ForgottenStaysStopped` | crates/lantern-core/src/node.rs:199-211 | for a call to forget, from taking offers out to returning and on, in every interleaving: once it has returned, a job still registered for a blob it matched has its cancel flag and nothing registers that blob again |
| `FileJobs.DropRemovesOwnEntry` | crates/lantern-core/src/node.rs:126-128 | a dropped job removes its own entry and no other |
| `FileJobs.CancelReachesItsJob` | crates/lantern-core/src/node.rs:1916-1921 | a registered job's receiver is open, so cancelling it cannot fail |
| `FileJobs.BlockedPeerIsQuiet` | crates/lantern-core/src/node/friends.rs:1314-1332 | for a call to block, in every interleaving without an unblock of the peer: once the thread is out of the call, nothing of the peer's can be or is being fetched and all its jobs are cancelled |
| `FileJobs.RunStaysBounded` | crates/lantern-core/src/node.rs:113-120 | in every run at most 128 remote offers, 8 per peer, and no file twice from one peer in one room |
| `FileCancels.CancelIsFinal` | crates/lantern-core/src/node.rs:1916-1921 | in every run, the job registered when its cancel is taken is alive and has its flag from then on |
| `FileCancels.CancelSetsOneFlag` | crates/lantern-core/src/node.rs:1916-1921 | a cancel sets its own job's flag and changes nothing else |
| `FileCancels.FlagsExactly` | crates/lantern-core/src/node.rs:206-211 | a lock section sets exactly the flags of the registered jobs it signals and clears none |
| `FileCancels.EveryFlagWasAsked` | crates/lantern-core/src/node.rs:206-211 | in every run each flag was asked for while its job was registered |
| `FileCancels.OfferIsListed` | crates/lantern-core/src/node.rs:113-120 | an unblocked peer's offer is listed exactly if it has a name in bounds, fewer than 128 offers and 8 of the peer are listed, and not this file in this room |
| `FileCancels.FetchIsRegistered` | crates/lantern-core/src/node.rs:1887-1912 | what can be fetched is registered with its flag clear, unless it already is or the permits are out |
| `FileCancels.OfferedFileCanBeFetched` | crates/lantern-core/src/node.rs:1887-1912 | in every reachable state a file in bounds whose offer fits can be listed and fetched, not cancelled |
| `FileCancels.UnblockedPeerIsBack` | crates/lantern-core/src/node/friends.rs:1335-1342 | after an unblocking the peer's offers can be fetched again |
| `FileCancels.RemovalsExactly` | crates/lantern-core/src/node.rs:199-205 | a forget takes off exactly the remote offers it matches, a block exactly the peer's |
| `Proto.Encode` | crates/lantern-core/src/proto.rs:170-173 | the packet is the signed envelope of the frame |
| `Proto.EncodeFileOffer` | crates/lantern-core/src/proto.rs:178-185 | the same with signed trailing entropy |
| `Proto.EncodeHistory` | crates/lantern-core/src/proto.rs:157-167 | a record that is the sender's own travels behind its text; any other is refused |
| `Proto.FramesRoundTrip` | crates/lantern-core/src/proto.rs:170-224 | every frame decodes to itself and its signer, for old and new readers |
| `Proto.FileOffersRoundTrip` | crates/lantern-core/src/proto.rs:178-224 | trailing entropy changes nothing for any reader, frame and nonce |
| `Proto.LiveRecordsMeanTheSame` | crates/lantern-core/src/proto.rs:154-224 | a live record packet means the exact record to a new reader and its text to one that ignores the tail |
| `Proto.ReadersAgree` | crates/lantern-core/src/proto.rs:199-224 | on any packet, what a new reader accepts an old one accepts from the same sender; where their frames differ, the new one holds a record the sender authored and the old one its text |
| `LiveRooms.Receive` | crates/lantern-core/src/node.rs:857-871 | a packet is stored and shown only through the author check |
| `LiveRooms.EveryRowIsVouchedFor` | crates/lantern-core/src/node.rs:765-871 | in every run, each stored row's author signed one of the packets and the record in it, for that room |
| `LiveDelivery.OwnRecordIsStored` | crates/lantern-core/src/node.rs:857-871 | the packet made of a member's own record is put into the table where its signer is admitted |
| `LiveDelivery.OthersAreDropped` | crates/lantern-core/src/node.rs:857-871 | a packet of anybody else, or that is no record of the room by its signer, changes nothing |
| `ChannelRecords.ParsersAgree` | bindings/csharp/Lantern/ChannelRecord.cs:17-34 | the managed parser accepts exactly the structurally sound records of the event's peer; room, key and signature are all the native parser checks beyond it, and the fields agree |
| `ChannelRecords.AcceptedRecordsArrive` | bindings/csharp/Lantern/ChannelRecord.cs:17-34 | every natively accepted record arrives with the same author, room, id, time, text and signature |
| `ChannelRecords.HexKeepsOrder` | bindings/csharp/Lantern/ChannelRecord.cs:30-32 | hexadecimal texts compare by ordinal as the bytes do, and differ when they do |
| `Messages.Table.MessageOut` | crates/lantern-core/src/store.rs:686-695 | an outgoing message is recorded once |
| `Messages.Table.MessageIn` | crates/lantern-core/src/store.rs:699-709 | false exactly if the message was already there |
| `Messages.Table.MessageDelivered` | crates/lantern-core/src/store.rs:712-722 | true exactly once, when an ack first arrives for a waiting message |
| `Messages.Table.Outbox` | crates/lantern-core/src/store.rs:725-733 | exactly the messages still waiting for an ack, by time and then by insertion |
| `Messages.ReachableTablesAreNumbered` | crates/lantern-core/src/store.rs:686-722 | in every run row numbers are given out in turn and never twice, so that order is always defined |
| `Messages.RaisedAndReportedOnce` | include/lantern.h:151-153 | over a network that drops, repeats and reorders, and whichever ends fail to store, a message is raised at most once and its delivery reported at most once |
| `Messages.LeftOutboxIsStored` | crates/lantern-core/src/node/friends.rs:694-714 | a recorded message that no longer waits in the outbox is stored at the receiver, word for word, and has been raised there |
| `Messages.NoticesAreTrue` | crates/lantern-core/src/node/friends.rs:694-714 | what is raised was sent, word for word, even where the sender could not record it, and what is reported delivered was raised |
| `Messages.OneDeliveryEachWaySuffices` | crates/lantern-core/src/node/friends.rs:573-590 | from any reachable state, one resend, one delivery and one returned ack empty the outbox of a message |
| `MessageLosses.SendingRecords` | crates/lantern-core/src/node/friends.rs:318-337 | a text of 1 to 2048 bytes is recorded unless the store fails, and sent where there is a link |
| `MessageLosses.WaitingExactly` | crates/lantern-core/src/store.rs:725-733 | the outbox holds exactly the recorded messages without an ack |
| `MessageLosses.NoMessageIsLost` | crates/lantern-core/src/node/friends.rs:318-337 | in every run a recorded message waits in the outbox as it was sent until it is stored and raised at the receiver and reported at the sender |
| `NostrInboxes.NostrInbox.constructor` | src/XivLantern.Core/NostrInbox.cs:28-37 | remembered keys are imported lower-case, once each, the newest 256 |
| `NostrInboxes.NostrInbox.Add` | src/XivLantern.Core/NostrInbox.cs:42-66 | admits the specified invitation or only moves the clock |
| `NostrInboxes.NostrInbox.AdmitWithin` | src/XivLantern.Core/NostrInbox.cs:52-65 | the window rolls after 30 seconds and admits within both limits |
| `NostrInboxes.NostrInbox.AcceptStarted` | src/XivLantern.Core/NostrInbox.cs:70-76 | marks one open entry with a handle nobody else has |
| `NostrInboxes.NostrInbox.Complete` | src/XivLantern.Core/NostrInbox.cs:79-87 | success forgets and remembers the entry, failure reopens it |
| `NostrInboxes.NostrInbox.Ignore` | src/XivLantern.Core/NostrInbox.cs:89-96 | an open entry is forgotten and remembered |
| `NostrInboxes.AdmissionsAreBounded` | src/XivLantern.Core/NostrInbox.cs:42-66 | for any clock, any half-open 30000 ms of effective time sees at most 128 admissions and at most 16 of one sender, whatever happens to pending lines |
| `NostrInboxes.ReachableListsOk` | src/XivLantern.Core/NostrInbox.cs:42-105 | in every reachable state pending keys are disjoint from remembered keys, keys and handles are distinct, and all capacities hold |
| `InviteOutcomes.OfferAddsOrNot` | src/XivLantern.Core/NostrInbox.cs:42-66 | an offer adds its entry at the end only if it is readable and has a place, and otherwise changes neither list nor log |
| `InviteOutcomes.QuietOfferIsListed` | src/XivLantern.Core/NostrInbox.cs:42-66 | in every reachable state such an offer is listed if the last 30000 ms saw fewer than 64 admissions and 8 of its sender |
| `InviteOutcomes.DismissalShows` | src/XivLantern.Core/NostrInbox.cs:79-103 | ignoring or accepting takes exactly the entry off the list and remembers its key as the newest |
| `InviteOutcomes.DismissedStaysOut` | src/XivLantern.Core/NostrInbox.cs:79-103 | in every run a dismissed invitation is not listed again before more than 255 others were dismissed after it |
| `InviteOutcomes.AcceptanceShows` | src/XivLantern.Core/NostrInbox.cs:70-87 | starting to accept marks one entry, a failure undoes exactly that, a success dismisses it |
| `InviteOutcomes.SavedKeysComeBack` | src/XivLantern.Core/NostrInbox.cs:28-37 | importing a list of remembered keys gives that list |
| `Poll.Queues.Poll` | crates/lantern-core/src/node.rs:1316-1330 | the loop returns the specified events and leaves the rest of both queues |
| `Poll.PollTakesExactly` | crates/lantern-core/src/node.rs:1316-1330 | a poll returns exactly the smaller of its limit and what is pending, each event from one queue |
| `Poll.PollMerges` | crates/lantern-core/src/node.rs:1316-1330 | what it returns is an order-preserving merge of what it takes off the front of each queue |
| `Poll.PollIsFair` | crates/lantern-core/src/node.rs:1319-1327 | while neither queue has run dry the counts taken differ by at most one |
| `Poll.PollIsPrefix` | crates/lantern-core/src/node.rs:1319-1328 | a smaller poll takes the first events of a larger one, so that holds at every point |
| `Poll.OnesAlternate` | crates/lantern-core/src/node.rs:1318-1318 | polls of one event each return what one large poll returns: the turn carries over |
| `Release.Repository.Release` | tools/releasekit.py:417-455 | a named version, or for a test the tree's next one, is tagged and moved to the manifest if the rules permit it; anything else, a refusal and a dry run change nothing |
| `Release.PermittedExactly` | tools/releasekit.py:443-453 | the four refusals let through exactly the versions whose base is newer than every stable release and no older than the tree's, and which are newer than the tree or the tree's own |
| `Release.NewerThanEveryStable` | tools/releasekit.py:133-134 | comparing with the last of the sorted bases makes a permitted version newer than every stable release |
| `Release.ReleasedFacts` | tools/releasekit.py:432-442 | a cut's tag is new and its base unreleased; a test's build number is its tag's, and every build number is greater than all earlier tests of the base |
| `Release.CutsIncrease` | tools/releasekit.py:432-455 | from any tags and manifest, in every run in which only releases tag and move the manifest, each cut's four-part version is strictly greater than every earlier one's |
| `Release.CutsAreNewer` | tools/releasekit.py:451-453 | from any tags and manifest, after the first cut of a run every further one is strictly newer than the tree: the exception for the tree's own version is never used again |
| `Release.CheckTagAcceptsCuts` | tools/releasekit.py:263-272 | the tag check's version rules accept every cut of every run from any tags and manifest, when it is made and at any later time |
| `Release.LastTestIsGreatest` | tools/releasekit.py:128-130 | the last test number is a bound of the base's tests and one of them |
| `ReleaseProgress.NextTestBase` | tools/releasekit.py:435-440 | a test without a version is of the tree's base, or if that is released of the base that directly follows it |
| `ReleaseProgress.ChosenBuild` | tools/releasekit.py:441-445 | the build is one more than the greatest test number of the base, or 0 for a stable release without tests |
| `ReleaseProgress.NamedIsCutExactly` | tools/releasekit.py:435-455 | a named base is cut exactly if it is newer than every stable release, no older than the tree's, and its version is newer than the tree's or the same |
| `ReleaseProgress.AfterTest` | tools/releasekit.py:435-455 | after a test the next test and the stable release of its base can be cut |
| `ReleaseProgress.AfterStable` | tools/releasekit.py:435-455 | after a stable release a test without a version can be cut, of the base that directly follows |
| `ReleaseProgress.CheckTagExactly` | tools/releasekit.py:263-272 | the tag check lets a test through with its own number only, and a stable version only with a build above all tests of its base |

## Left out

- Sockets, gossip, blob streaming, timeouts and relays: messages come from anywhere in any order instead.
- Sealed rooms, sealed files and their encryption: the model would consist of assumptions about the cipher.
- Signing inside `sign` draws a random id; here the id is a parameter.
- Floating point: a limiter on f64 rounds where the model does not.
- Events that a full native queue drops: a download whose terminal event is lost keeps its slot, so `Downloads.DrainingFreesSlots` is about events that arrive.
- The two-permit semaphore of native fetches: a refusal is a possible outcome of registering, its count is not modelled.
- Leaving rooms and unfriending under locks: they use the same forget as withdrawal, and only blocking is followed to its end.
- The native history event queue's own bounds and its turns between rooms: `Poll` takes its events in the order it hands them out, and nothing arrives during a poll.
- Uploads, shared-file cache and folder budgets: file system and configuration.
- A release that fails between its commit and its push: a cut either happens or does not, and the changelog, CI and network checks are one condition.
- Decimal digits outside ASCII in version tags and arguments, which the patterns also accept.
- The managed conversation list, notifications and windows around `Conversation`: user interface.
- Snapshots.Snapshot: the room is taken as given; that it has 32 bytes is a type in the source and a hypothesis of `Snapshots.SnapshotRoundTrip`.
- Png.Admit: inflating is one step over all image data, so stopping early at a bad row is not told apart from stopping after it.
