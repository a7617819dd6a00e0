# NexTalk FileRelay in Dafny

A model of the relay's shard store and of the code around it, with machine-checked properties. The relay keeps mailboxes
with message queues, chunked file transfers, a replay cache, quotas and four interacting lifetimes behind one lock.

`dafny verify dfyconfig.toml` checks the whole project.

## What is modelled

| file | models |
|---|---|
| `Octets`, `Limits`, `Collections`, `Bits` | bytes, big-endian numbers, constants, filters, subsequences, sums over maps |
| `Geometry`, `Resume` | chunk arithmetic, the client's splitter, bitmaps and missing ranges |
| `Shard` | the store's state and, for every operation, the next state and the reply as a function |
| `MemStore` | the store itself: a class whose methods update maps and queues by loops, each proved equal to its function in `Shard` |
| `Invariant`, `Runs` | the invariant of the state, its preservation by every operation and over every run, quotas, sweeps |
| `MailAnswers`, `TransferAnswers`, `Census` | what every operation answers and leaves behind, said of the records and the request themselves; what a mailbox has, counted one by one |
| `Authority` | secrets and tickets over whole runs |
| `Quota`, `Scenarios` | when the documented quota holds, operation by operation; concrete runs that reach the bounds and the odd cases below |
| `Lifecycle`, `Upload`, `Convergence` | transfers over whole runs: phases, end-to-end fidelity, uploads that cannot fail, resuming |
| `Delivery`, `Expiry`, `ReadOnly` | messages over whole runs: conservation and order, lazy against eager expiry, erasing read-only calls |
| `Wire`, `Auth` | the batch, range, acknowledgement and resume codecs, the signed bytes, the skew check |
| `Admission`, `Limiter`, `Handler` | the gate for signed requests, the rate limiter, the receive, put, send and seal handlers over the class |
| `Crc`, `Zip`, `Package` | the packager's table-driven CRC-32 and reproducible ZIP writer |

A run is a list of operations, each with its own clock reading (`Runs.Event`). `Shard.Step` gives the effect of one
operation; `Runs.After` and `Runs.Replies` give the effect of a run. `MemStore.Perform` ties the class to `Shard.Step`, so
what is proved about runs holds of the class. The lemmas of `MailAnswers` and `TransferAnswers`, and
`Convergence.ViewAnswers`, say what `Shard.Step` means, with the hash, the clock and the counting written out.

Main results, each over every run or every input: `Upload.FileFidelity`, `Upload.ReadsArePieces` and
`Upload.UploadSucceeds` (split, put, seal, read), `Expiry.SweepsAreInvisible`, `ReadOnly.ReadsAreInvisible`,
`Runs.ReachableQuotas`, `Quota.QuotaRun`, `Runs.SweepKeepsExactlyTheLive`, `Admission.SignedBytesAtMostOnce`,
`Admission.AdmittedExactly`, `Authority.OnlyTheSecretOpens`, `Authority.OnlyTheTicketOpens`,
`Convergence.ResumeConverges`, `Convergence.OneRoundSuffices`, `Delivery.ExactlyOneFate`, `Lifecycle.RunEvolves`,
`Handler.HandleReceive`, `Handler.OnlyTheOpenerSeals`, `Auth.CanonicalInjective`, `Limiter.LimiterHolds`,
`Limiter.RefusalExact`, `Crc.ComputeCrc32`, `Package.ReadsBack` and `Package.ReproducibleExactly`.

## Assumptions

- The store's clock does not go back within a run (`Timed`); clock readings are unbounded integers, and for the skew check lie
  between 0 and 2^62.
- Identifiers and tickets are random in the source. They are parameters here, and `NeverMints` or `FreshIds` says where a
  result needs them not to repeat.
- SHA-256 is an arbitrary function passed as a parameter; collisions are named where they matter (`SameUpToHash`). A
  signature scheme is an arbitrary predicate on key, signed bytes and signature.
- A chunk is stored once: repeating a put is recognised by length and hash, so a colliding payload would be reported as stored
  although the first one is kept. The upload results speak of puts that carry the pieces themselves.
- A NanoPack body is the list of its fields; its length is counted as one byte for the count and, per field, one byte for the
  id, a ULEB128 length and the content.
- Deflate, inflate and the UTF-8 encoding of names are parameters of the packager; results name what they need of them.
- Sorting by the packager's comparator is any function that permutes its list and orders it when the names are distinct
  (`Package.Sorts`); for equal names the comparator contradicts itself, so nothing more is fixed.
- Records in the maps are values: the source never lets two map entries share a record.

## Where the code differs from its description

The model follows the code.

- The comment on the 16 MiB quota says messages and chunks together. A send only counts message bytes, and creating a transfer
  does not count its own manifest, so the documented bound fails (`Scenarios.DocumentedQuotaFails`). `Quota.QuotaStep` and
  `Quota.QuotaRun` say exactly when it holds. The bounds that always hold are those of `Runs.ReachableQuotas`, and
  `Scenarios.ChargeBoundReached` attains the 4095 extra bytes. The byte test in the send operation can never fire
  (`Runs.ByteQuotaNeverFires`).
- A sealed transfer past its lifetime is still served until a sweep (`Lifecycle.ServedPastItsTime`,
  `Scenarios.LateReadServed`).
- The first branch of the sweep does not look at transfers. That is safe because of `Invariant.ExpiredMailboxIsIdle`.
- Up to 1024 missing ranges are listed, but a body with more than 1019 of them exceeds the client decoder's 8192-byte cap.
  `Wire.RangeAckFits`, `Wire.ResumeResponseFits` and `Convergence.ResponseArrives` give both directions,
  `Scenarios.ViewLost` a reachable transfer, and `Handler.HandlePut` states the outcome. A client whose view arrives needs a
  single round (`Convergence.OneRoundSuffices`); the eight rounds of `Convergence.ResumeConverges` are those of a reader of
  the store's own answers.
- Sealing does not compare the manifest hash with the manifest (`Lifecycle.SealIgnoresManifest`, `Lifecycle.SealExact`).
- An owner's chunk read slides the mailbox's lifetime before it checks the index (`Lifecycle.RefusedReadSlides`,
  `Scenarios.RefusalSlides`).
- The skew check also passes the timestamp exactly 2^63 ms ahead (`Auth.SkewExact`).
- Sweeps are visible in two replies: registration and the bare secret check (`Expiry.RegistrationSeesSweep`,
  `Expiry.SecretCheckSeesSweep` say exactly when, `Scenarios.SweepShows` gives a run).
- A window limit of `max` allows up to `2 * max - 1` requests in 60 seconds, and no more (`Limiter.LimiterHolds`,
  `Limiter.RateBoundReached`).
- The archive is called reproducible. It is so exactly for distinct names, or for a list whose members all look the same once
  encoded (`Package.ReproducibleExactly`); with other repeated names it depends on the order of the list and on the engine's
  sort. Different names may be encoded alike: UTF-8 writes every lone surrogate in the same way.

## Model

| member | source | states |
|---|---|---|
| `Geometry.ValidateTransferCreate` | protocol/schemas.go:278-294 | the unsigned ceiling arithmetic accepts exactly the triples in which `count` chunks of `size` tile `total`, within the limits |
| `Geometry.ChunkLenBounds` | server/storage/memstore.go:409-424 | the expected length of every chunk, the last one included, lies between 1 and the chunk size: the subtraction for the last chunk never underflows |
| `Geometry.SplitOpaque` | client/adapter.go:104-120 | the splitter's pieces are the cuts of the file and join back to it; the server accepts a count for a non-empty file iff it is their number and at most 16384; refusals are exactly a bad chunk size or an oversized file |
| `Geometry.HeldBytesTile` | server/storage/memstore.go:409-457 | well-sized chunks never hold more than the file, and hold exactly the file when all are there |
| `Resume.BuildBitmap` | server/storage/memstore.go:542-551 | bit i of the bitmap is set iff chunk i is present; padding bits are clear |
| `Resume.GapsExact` | server/storage/memstore.go:552-578 | the missing runs are maximal, increasing and cover every missing chunk |
| `Resume.MissingRanges` | server/storage/memstore.go:552-578 | the one-pass scan returns the first 1024 maximal missing runs |
| `Resume.RoundAdvances` | server/storage/memstore.go:552-578 | filling what one view lists makes everything present or moves the complete prefix on by at least 2048 chunks |
| `Resume.RoundsComplete` | protocol/limits.go:9-15 | eight rounds fill any transfer, one round fills up to 256 chunks |
| `MemStore.CompactUnexpired` | server/storage/memstore.go:148-163 | the in-place compaction of a queue equals the stable filter |
| `MemStore.MemStore.constructor` | server/storage/memstore.go:58-70 | a new store is empty and satisfies the invariant |
| `MemStore.MemStore.ActiveCount` | server/storage/memstore.go:302-310 | the scan returns the number of records bound to the mailbox, in phase created or uploading and not past their deadline, counted one by one |
| `MemStore.MemStore.MailboxStoredBytes` | server/storage/memstore.go:312-324 | the scan sums queued bytes, chunk bytes and manifests of a mailbox |
| `MemStore.MemStore.CreateMailbox` | server/storage/memstore.go:92-107 | equals `Shard.Register` on the mailbox map; `MailAnswers.RegisterAnswers` says what that is |
| `MemStore.MemStore.MailboxExists` | server/storage/memstore.go:109-121 | true iff the mailbox is there and unexpired; nothing changes |
| `MemStore.MemStore.CheckReadSecret` | server/storage/memstore.go:123-135 | true iff the record is there and the secret's hash matches, whatever the clock says, as `MailAnswers.ChecksAnswer` writes out |
| `MemStore.MemStore.SendMessage` | server/storage/memstore.go:168-200 | equals `Shard.Send`: prune, quotas, append, slide; `MailAnswers.SendAnswers` says what that is |
| `MemStore.MemStore.ReceiveMessages` | server/storage/memstore.go:202-241 | equals `Shard.Receive`: prune, take or peek at the first messages, slide; `MailAnswers.ReceiveAnswers` says what that is |
| `MemStore.MemStore.AckMessages` | server/storage/memstore.go:243-298 | equals `Shard.Ack`, counts and refusals included; `MailAnswers.AckAnswers` says what that is |
| `MemStore.MemStore.CreateTransfer` | server/storage/memstore.go:326-375 | equals `Shard.CreateTransferStep`: refusals in order, then the new record and the slid mailbox; `TransferAnswers.CreateAnswers` says what that is |
| `MemStore.MemStore.GetTransferLocked` | server/storage/memstore.go:377-387 | finds a record unless it is dead, and marks a dead one |
| `MemStore.MemStore.PutChunk` | server/storage/memstore.go:390-475 | equals `Shard.PutStep` on the whole state: refusals, repeat, conflict, quota, and all fields of the updated record; `TransferAnswers.PutAnswers` says what that is |
| `MemStore.MemStore.GetChunk` | server/storage/memstore.go:483-518 | equals `Shard.GetStep`, the slide before the index check included; `TransferAnswers.GetAnswers` says what that is |
| `MemStore.MemStore.BuildResumeView` | server/storage/memstore.go:532-580 | the view is the bitmap up to 256 chunks and the listed gaps above |
| `MemStore.MemStore.Resume` | server/storage/memstore.go:583-611 | equals `Shard.ResumeStep`; `Convergence.ViewAnswers` says what that is |
| `MemStore.MemStore.Progress` | server/storage/memstore.go:613-627 | equals `Shard.ProgressStep`; `Convergence.ViewAnswers` says what that is |
| `MemStore.MemStore.GetChunkByTicket` | server/storage/memstore.go:630-652 | equals `Shard.GetByTicketStep`; `TransferAnswers.GetByTicketAnswers` says what that is |
| `MemStore.MemStore.ResumeByTicket` | server/storage/memstore.go:655-671 | equals `Shard.ResumeByTicketStep`; `Convergence.ViewAnswers` says what that is |
| `MemStore.MemStore.CompleteTransfer` | server/storage/memstore.go:674-702 | equals `Shard.CompleteStep`; `TransferAnswers.SealAnswers` says what that is |
| `MemStore.MemStore.CancelTransfer` | server/storage/memstore.go:705-729 | equals `Shard.CancelStep`; `TransferAnswers.CancelAnswers` says what that is |
| `MemStore.MemStore.GetTransfer` | server/storage/memstore.go:732-752 | equals `Shard.GetTransferStep`; `TransferAnswers.SnapshotAnswers` says what that is |
| `MemStore.MemStore.CheckAndMarkReplay` | server/storage/memstore.go:755-770 | equals `Shard.ReplayStep`: a live key is reported, any other is recorded and dead keys are pruned |
| `MemStore.MemStore.Sweep` | server/storage/memstore.go:773-817 | equals `Shard.SweepStep`, the three counts included |
| `MemStore.MemStore.Perform` | server/storage/memstore.go:92-817 | every operation keeps `Valid` and has exactly the effect and reply of `Shard.Step` |
| `Census.BytesCounted` | server/storage/memstore.go:312-324 | the counters the quota adds up are the bytes of the queued envelopes, of the chunks in the maps and of the manifests |
| `MailAnswers.RegisterAnswers` | server/storage/memstore.go:92-107 | a registration reports whether the mailbox is new, sets the secret and a year, keeps the queue and touches nothing else |
| `MailAnswers.ChecksAnswer` | server/storage/memstore.go:109-135 | the existence check is true iff the record is there and unexpired, the secret check iff it is there and 32 bytes hash to the registered value; neither changes anything |
| `MailAnswers.SendAnswers` | server/storage/memstore.go:168-200 | a well-formed message to a live mailbox with fewer than 100 live messages is queued behind them for 14 days and the answer counts the queue; every other case has its refusal and loses no live message |
| `MailAnswers.ReceiveAnswers` | server/storage/memstore.go:202-241 | iff the mailbox is live and 32 bytes hash to the registered value, the answer is the first live messages, as many as asked for up to 32, which leave the queue unless peeked at; else an error and no change |
| `MailAnswers.AckAnswers` | server/storage/memstore.go:243-298 | iff the request is well formed and the secret right, the answer counts the live messages named and those left, and only consuming removes them; a refusal loses no live message |
| `TransferAnswers.CreateAnswers` | server/storage/memstore.go:326-375 | the transfer is opened, with identifier, ticket and a day, iff the request is well formed and, for a mailbox, that is live, has fewer than 16 open transfers counted one by one, and room for the file counted from queues, chunks and manifests; in a live mailbox the quota error is given iff one of the two fails |
| `TransferAnswers.PutAnswers` | server/storage/memstore.go:390-475 | a chunk with the right index, offset, length and hash is stored once, equal bytes again are reported as stored, other bytes for a held index as a conflict, and without room it is refused; the answer counts the chunks held |
| `TransferAnswers.GetAnswers` | server/storage/memstore.go:483-518 | the owner, and nobody else, reads every chunk held as it was stored, with its hash; a missing index and one beyond the count have their own errors |
| `TransferAnswers.GetByTicketAnswers` | server/storage/memstore.go:630-652 | so does whoever has 32 bytes that hash like the ticket; anything else is an authentication error |
| `TransferAnswers.SnapshotAnswers` | server/storage/memstore.go:732-752 | the snapshot tells what was declared, the number of chunks held and the length of the complete prefix |
| `TransferAnswers.SealAnswers` | server/storage/memstore.go:674-702 | a seal succeeds iff every chunk is held and gives 14 days, once; otherwise the answer counts the chunks held and those expected |
| `TransferAnswers.CancelAnswers` | server/storage/memstore.go:705-729 | the owner removes that record and no other; anybody else gets an error and changes nothing |
| `Authority.OnlyTheSecretOpens` | server/storage/memstore.go:81-87 | after a registration and until the next, over any run, a receive, ack, owner read, resume or cancel that names the mailbox without 32 bytes hashing to the registered value gets an error, takes nothing from the queue and removes no transfer |
| `Authority.OnlyTheTicketOpens` | server/storage/memstore.go:520-529 | over any run after the opening, a chunk or a view by ticket is given only for 32 bytes that hash like the ticket the opening handed out |
| `Invariant.WithChunkConsistent` | server/storage/memstore.go:409-468 | storing a chunk keeps presence, chunk map, hash map, counts, prefix, byte total and every chunk's geometric size in agreement |
| `Invariant.PutWithinQuota` | server/storage/memstore.go:440-454 | an accepted put keeps chunk bytes and chunk-plus-manifest bytes of the mailbox within their real bounds |
| `Invariant.ExpiredMailboxIsIdle` | server/storage/memstore.go:773-797 | an expired mailbox has no live message and no live transfer, so removing it without looking at transfers is safe |
| `Invariant.StepKeeps` | server/storage/memstore.go:92-817 | the invariant (record consistency, lifetimes, ownership, quotas) survives every operation at any later clock |
| `Runs.RunKeeps` | server/storage/memstore.go:92-817 | the invariant holds after every run with a nondecreasing clock |
| `Runs.ReachableQuotas` | server/storage/memstore.go:182-187 | in every reachable state, per mailbox, counted from the records: chunk bytes at most 16 MiB, chunk plus manifest bytes at most 16 MiB + 4095, at most 100 messages and 100 x 32768 bytes queued, and at any later moment at most 16 records that are bound to it, unsealed and unexpired |
| `Runs.ByteQuotaNeverFires` | server/storage/memstore.go:178-199 | a well-formed send to a live mailbox is refused exactly when 100 unexpired messages are queued; the byte test is dead |
| `Runs.MailboxOutlives` | server/storage/memstore.go:352-373 | every message and every bound transfer ends no later than its mailbox, a transfer at most 21 days after creation |
| `Runs.SweepKeepsExactlyTheLive` | server/storage/memstore.go:773-817 | a sweep keeps exactly the live mailboxes, messages, transfers and replay keys, unchanged |
| `Runs.SweepCountsExact` | server/storage/memstore.go:773-817 | the three counts are the numbers of messages, transfers and mailboxes that disappear |
| `Runs.SweepLeavesNothingExpired` | server/storage/memstore.go:773-817 | after a sweep nothing expired is left |
| `Runs.SweepAgain` | server/storage/memstore.go:773-817 | a second sweep at the same time changes nothing and reports zeros |
| `Quota.SendCharge` | server/storage/memstore.go:178-199 | an accepted send adds its envelope to what the mailbox stores, whatever that total is; a refused one adds nothing |
| `Quota.QuotaStep` | server/storage/memstore.go:182-187 | from a state within 16 MiB of messages, chunks and manifests, an operation leaves it iff it is an accepted send, or an accepted creation, whose bytes do not fit; the condition is on the state before the call |
| `Quota.QuotaRun` | server/storage/memstore.go:168-475 | a run stays within the documented quota throughout iff none of its operations overfills the mailbox |
| `Scenarios.DocumentedQuotaFails` | protocol/limits.go:12-12 | a concrete run from the empty store after which a mailbox stores 16 MiB + 1 byte |
| `Scenarios.ChargeBoundReached` | server/storage/memstore.go:340-346 | a concrete run after which chunks and manifests are charged 16 MiB + 4095, so the bound of `Runs.ReachableQuotas` is reached |
| `Lifecycle.StepMoves` | server/storage/memstore.go:377-475 | an operation leaves a record alone, marks it dead, stores one chunk in it, seals it, or removes it, and nothing else |
| `Lifecycle.RunEvolves` | server/storage/memstore.go:377-475 | over any run the declaration and every stored chunk and hash are fixed, the phase only advances, the deadline of an open record never moves back, and a sealed or expired record is frozen |
| `Lifecycle.SealedIsWhole` | server/storage/memstore.go:690-701 | a sealed transfer has every chunk and stores exactly its declared size |
| `Lifecycle.DeadForGood` | server/storage/memstore.go:377-387 | once gone or past its deadline unsealed, no put, read or seal of a transfer ever succeeds again |
| `Lifecycle.PutKeepsAlive` | server/storage/memstore.go:458-462 | any put leaves a live transfer alive, its deadline no earlier than before and at most seven days after creation |
| `Lifecycle.ServedPastItsTime` | server/storage/memstore.go:377-387 | past its lifetime a record still answers a ticket read or an owner read with a chunk iff it is sealed, 32 bytes hash to the stored value, the mailbox is live for the owner, and the index exists |
| `Lifecycle.SealExact` | server/storage/memstore.go:674-702 | a well-formed seal succeeds iff the record is found and no chunk is missing |
| `Lifecycle.SealIgnoresManifest` | server/storage/memstore.go:674-702 | any manifest hash in the seal gives the same state and reply |
| `Lifecycle.RefusedReadSlides` | server/storage/memstore.go:483-518 | an owner's read refused for its index changes the state iff the transfer has a mailbox whose lifetime is not already a full one from now |
| `Scenarios.LateReadServed` | server/storage/memstore.go:630-652 | a concrete run from the empty store after which a ticket read is served at the end of the lifetime |
| `Scenarios.RefusalSlides` | server/storage/memstore.go:483-518 | a concrete run from the empty store after which a read refused for its index changes the store |
| `ReadOnly.StepAlike` | server/storage/memstore.go:377-387 | states that differ only by marks on dead transfers give the same replies and stay that way |
| `ReadOnly.ReadsAreInvisible` | server/storage/memstore.go:613-671 | erasing any of the six read-only calls from any run changes no reply of the rest |
| `Expiry.SweepsAreInvisible` | server/storage/memstore.go:773-817 | inserting or dropping sweeps anywhere in a message-plane run changes no reply to send, receive, ack, existence or replay check |
| `Expiry.LazyIsEager` | server/storage/memstore.go:137-163 | lazy expiry answers like the run that drops everything expired before each operation |
| `Expiry.RegistrationSeesSweep` | server/storage/memstore.go:92-107 | the reply to a registration depends on a sweep exactly when an expired record was still there |
| `Expiry.SecretCheckSeesSweep` | server/storage/memstore.go:123-135 | the bare secret check depends on a sweep exactly when it opens an expired mailbox |
| `Scenarios.SweepShows` | server/storage/memstore.go:92-135 | a concrete run from the empty store after which a registration and a secret check tell whether a sweep took place |
| `Delivery.RunLedger` | server/storage/memstore.go:189-297 | over any run, sent = queued + drained + consumed + expired with multiplicity, and drained followed by queued is a subsequence of the order of sending |
| `Delivery.ExactlyOneFate` | server/storage/memstore.go:189-297 | each accepted message has exactly one of the four fates, is drained at most once, and is still queued if neither expired, drained nor consumed |
| `Delivery.NeverReappears` | server/storage/memstore.go:216-297 | the identifier of a drained or consumed message is never queued again |
| `Delivery.AcksAddUp` | server/storage/memstore.go:243-298 | over any run the counts reported to consuming acknowledgements add up to the messages consumed |
| `Upload.FileFidelity` | client/adapter.go:104-120 | if the puts accepted for a transfer are the file's pieces, in any order, repeated, among any other operations, and it is sealed, then its chunks join to the file, and over any later run, as long as it exists, every read with the ticket the opening handed out and every read by the owner is answered with the piece of that number and its hash |
| `Upload.ReadsArePieces` | server/storage/memstore.go:483-518 | in any run after a transfer is opened for a file whose accepted puts are its pieces, every chunk any read returns, by owner or ticket, sealed or not, is the file's piece of that number with its hash |
| `Upload.UploadCannotFail` | server/storage/memstore.go:390-475 | with room in the mailbox, nothing else stored there, nothing late, and no cancel or successful seal (refused early seals are allowed), every put of a piece is accepted and the record holds exactly the chunks that were put |
| `Upload.SealSucceeds` | server/storage/memstore.go:674-702 | once every chunk is there, a seal in time succeeds |
| `Upload.UploadSucceeds` | server/storage/memstore.go:326-475 | open, put every piece, seal: if bytes and manifest fit, nothing else is stored meanwhile, nothing is late, and there is no cancel or successful seal meanwhile (refused early seals are allowed), all of it succeeds |
| `Convergence.ResumeViewExact` | server/storage/memstore.go:532-580 | the view of a consistent record is exact: bits match chunks, ranges are maximal missing runs, complete up to 1024 of them, empty iff nothing is missing |
| `Convergence.ViewAnswers` | server/storage/memstore.go:583-671 | the owner, the holder of the ticket and the uploader asking for progress are answered with the exact view and a true description; anybody else with an error |
| `Convergence.ResumeConverges` | server/storage/memstore.go:542-578 | repeatedly asking for the view and putting what the answer shows as missing, with any other traffic in between, completes any reachable transfer in at most eight rounds, in one up to 256 chunks |
| `Convergence.ResponseArrives` | protocol/transfers.go:502-557 | the server always encodes the view of a consistent record; the client decodes it to itself iff it has at most 256 chunks or 1019 missing runs, and otherwise reports an oversized body |
| `Convergence.ToldExactly` | protocol/transfers.go:517-557 | a response that arrives tells the client exactly the missing chunks |
| `Convergence.OneRoundSuffices` | protocol/transfers.go:517-557 | if the answer to a request for the view decodes at the client, then once every chunk it names was put and accepted, with any other traffic in between, the transfer is complete |
| `Scenarios.ViewLost` | protocol/transfers.go:517-520 | a concrete run from the empty store that leaves a transfer with 1021 missing runs, whose response the client refuses |
| `Wire.MarshalReceiveMessagesResponse` | protocol/messages.go:130-163 | refuses exactly the batches that are too long or have an ill-sized entry, with the first fault's code, and else emits the four fields |
| `Wire.UnmarshalReceiveMessagesResponse` | protocol/messages.go:166-227 | the field loop and the cursor loop, 32-bit comparison included, equal the decoder specification |
| `Wire.BatchRoundTrip` | protocol/messages.go:130-227 | every batch the encoder accepts fits the decoder's cap and decodes to itself |
| `Wire.BatchReEncodes` | protocol/messages.go:166-227 | whatever the decoder accepts re-encodes to the same ids and payload fields |
| `Wire.EncodeRanges` | protocol/transfers.go:241-249 | the loop emits eight bytes per range, start then count |
| `Wire.DecodeRanges` | protocol/transfers.go:251-262 | a blob decodes iff its length is a multiple of eight, and then to the one list of ranges that encodes to it |
| `Wire.RangeAckFits` | protocol/transfers.go:181-238 | an acknowledgement that lists ranges is never refused by the encoder and decodes to itself iff it lists at most 1019 |
| `Wire.BitmapAckFits` | protocol/transfers.go:181-238 | a bitmap acknowledgement always decodes to itself |
| `Wire.ResumeResponseFits` | protocol/transfers.go:502-557 | a resume response decodes to itself iff it lists at most 1019 ranges, and else is refused as too large |
| `Handler.Permit` | server/shard/handler.go:82-98 | windows are charged one by one until one refuses; the answer is yes iff each would allow the request on its own; on yes every window is charged once, and no other window changes |
| `Handler.BatchEncodable` | server/shard/handler.go:379-393 | whatever a drain hands out in a reachable store is accepted by the encoder and decoded by the client |
| `Handler.HandleReceive` | server/shard/handler.go:353-394 | an answer decodes to the drained messages in order; on any error the store is untouched; success iff the limiter allows it, the mailbox is there and unexpired, and 32 bytes hash to the registered value |
| `Handler.HandlePut` | server/shard/handler.go:489-536 | a malformed request is refused first; a well-formed one is answered with the rate limit, the store untouched, iff some window refuses; else, whatever other requests do between the put and the progress read, a chunk the store took is acknowledged from that progress, which shows it, and a refusal of the store is passed on |
| `Handler.HandleSend` | server/shard/handler.go:291-350 | the gate refuses with the code of the first failed check; an admitted request is answered with the rate limit iff some window refuses; only an admitted request within its limits reaches a mailbox, as other requests have left it meanwhile, and any other leaves mailboxes and transfers unchanged |
| `Handler.RefusalExplained` | server/shard/handler.go:317-325 | a well-formed request that the gate refuses is refused for its signature, its time or as a replay, in this order |
| `Handler.HandleComplete` | server/shard/handler.go:628-692 | gate, lookup, comparison of senders, seal, with any run of other requests before and after the lookup: the store and the reply are those of `CompleteOutcome` |
| `Handler.SealOutcomeExact` | server/shard/handler.go:666-681 | past the gate a seal succeeds iff the transfer is found and has the same sender at the lookup, and is found and whole at the seal, whatever runs between; what it seals has that sender |
| `Handler.OnlyTheOpenerSeals` | server/shard/handler.go:658-681 | over any run from the opening on, a seal through the handler succeeds only for a well-signed, timely request under the key that opened the transfer |
| `Auth.DomainsPrefixFree` | protocol/auth.go:16-25 | no NUL-terminated domain is a prefix of another |
| `Auth.CanonicalInjective` | protocol/auth.go:55-200 | equal signed bytes mean the same operation with the same fields, up to a hash collision |
| `Auth.ShardBytesExact` | protocol/auth.go:203-217 | the hashed shard list tells all lists with entries below a limit apart iff the limit is at most 64 KiB |
| `Auth.LongShardAmbiguous` | protocol/auth.go:203-217 | a concrete longer entry is hashed like a different list |
| `Auth.ReplayPreimageInjective` | server/shard/handler.go:225-237 | the bytes under a replay key determine operation, sender and nonce |
| `Auth.SkewExact` | protocol/auth.go:219-228 | the check accepts exactly 30 seconds either way, plus the one timestamp 2^63 ahead |
| `Admission.AtMostOnce` | server/shard/handler.go:296-329 | over any run, of all well-formed requests with one replay key and one time at most one is admitted, if the store's clock trails the handler's by less than 30 s |
| `Admission.SignedBytesAtMostOnce` | protocol/auth.go:55-182 | under any signature scheme one set of signed bytes is admitted at most once, however the copies differ in the signature, the mailbox of a seal, or an absent mailbox written as zeros |
| `Admission.AdmittedExactly` | server/shard/handler.go:225-329 | over any run from the empty store an attempt is admitted iff it is well formed, well signed, within 30 s (or exactly 2^63 ms ahead), and no attempt admitted less than 90 s before has the same operation, sender and nonce, provided the hash tells the run's preimages apart |
| `Admission.SignatureCovers` | protocol/auth.go:55-182 | two well-formed requests have the same signed bytes iff they agree in every field but the signature and the mailbox of a seal, envelopes and manifests by hash, an absent mailbox as zeros |
| `Admission.LateStoreAdmitsTwice` | server/storage/memstore.go:755-770 | at a lag of exactly 30 s every well-formed, well-signed request can be admitted twice |
| `Limiter.RateLimiter.Allow` | server/shard/handler.go:82-98 | charges the window of its key and no other |
| `Limiter.KeysIndependent` | server/shard/handler.go:69-98 | the window of a key depends on its own requests only |
| `Limiter.LimiterHolds` | server/shard/handler.go:69-98 | over any run of any keys: at most `max` per window and at most `2 * max - 1` in any 60 000 ms interval |
| `Limiter.RateBoundReached` | server/shard/handler.go:69-98 | that bound is reached for every `max` |
| `Limiter.LetThroughAlone` | server/shard/handler.go:69-98 | what a key is let through in a run of many keys is what it is let through alone |
| `Limiter.RefusalExact` | server/shard/handler.go:82-98 | in a run of many keys a request is refused iff the window of its key contains it and has let exactly `max` through |
| `Crc.FillTable` | transports/tools/ntx.mjs:30-30 | entry n of the table is the remainder of n after the given number of division steps |
| `Crc.ComputeCrc32` | transports/tools/ntx.mjs:31-31 | the table-driven loop computes the bitwise CRC of section 8 of RFC 1952 |
| `Zip.ArchiveReads` | transports/tools/ntx.mjs:34-56 | following the end record, the central directory and the local headers, all cross-checked, gives back every name, content, time stamp and mode |
| `Package.WriteArchive` | transports/tools/ntx.mjs:34-56 | for any sorting the comparator allows, the loop with its running offset produces the specified archive of the sorted files, or fails exactly when some number does not fit its field |
| `Package.ReadsBack` | transports/tools/ntx.mjs:34-56 | for any sorting the comparator allows, the archive reads back as the listed files, each as often as listed, ordered by name if the names differ |
| `Package.SameArchive` | transports/tools/ntx.mjs:34-56 | with distinct names two lists give the same archive, in any two engines, iff they look the same once sorted and encoded, and, where the encoding tells their names apart, iff they hold the same files |
| `Package.ReproducibleExactly` | transports/tools/ntx.mjs:33-56 | for any encoding of names: a list gives the same result for every order of it and every engine iff its names are distinct, or its members all look the same once encoded, or it is too large to have an archive in any order |

## Left out

- HTTP plumbing: headers, status codes, body limits, client addresses.
- NanoPack's byte-level encoder and decoder; bodies are field lists.
- Ed25519, SHA-256, HMAC and random numbers; they are parameters.
- The fixed-shape codecs (hello, register, resolve, cancel and similar): one field after another, easy members.
- The ack, get, resume and cancel handlers: each decodes a request and performs one store operation modelled here. The create handler: the gate, the limiter and one store operation, in the order of the send handler.
- The router's handlers and routing table wiring; only the signed table bytes are modelled.
- The legacy server wrapper around the store, the bridge process, key files, the disk store, the WASM tools.
- `validateManifest` and file writing in the packager.
- The TTL hint and the burn flag of a send, which the store never reads.
- Locking: every store operation is one atomic step, as under the store's mutex; other requests run between the steps of a handler, never inside one.
- 64-bit wrap-around of clock arithmetic in the store; clock readings are unbounded.
- Aliasing between slices handed out and kept: messages, chunks and records are values, so the copies the source makes are not visible here.
- Expiry.SweepsAreInvisible: covers the message plane; a sweep is visible on the transfer plane, where it ends the serving of sealed transfers past their lifetime.
- Zip.ArchiveReads: the disk numbers, the internal attributes and the version-made-by field are written but not read back.
- Handler.Permit: the windows of one request are charged without those of another request in between; the source releases the limiter's lock after each.
- Admission.AdmittedExactly: assumes that only the gate consults the replay cache, as in the source, and that the hash has no collision among the requests of the run.
