# A model of aurora-core

This project models the parts of aurora-core whose guarantees span whole runs, and proves them for every run, every
input and every interleaving. `dafny verify dfyconfig.toml` checks all of it.

Each part has the same shape. Pure functions say what an operation does to a value; an invariant and a lemma per
operation lead to theorems about runs; and where the Go code updates an object in place, a class with the same fields
and loops is proved, method by method, to compute those functions.

**Spent-credential caches** (`admission`). The retention file is a directory shared by any number of handles: a data
file, a generation counter, incremental loads, compactions and torn appends. `RetentionRecord`, `RetentionLog` and
`RetentionMachine` are the text format, the reading and the steps; `RetentionSafety` proves that an acknowledged key
is admitted at most once before its deadline, in every run in which a crash cuts only unsynced data.
`RetentionDurability` and `RetentionExhausted` add crashes that undo an unsynced rename and give the exact condition
under which a key stays spent; `RetentionRevert` and `RetentionStray` hold the cases that go wrong. `RetentionCache`
is the object. `MemoryCache` is the lazily expiring sibling, `Admission` the spending of hints and tokens on top of
it, and `DurableAdmission` the same on the file.

**Packet adapter** (`client/packet_adapter.go`). `Checksum` and `IpPacket` build and parse packets octet by octet.
`Segments` cuts stream data into packets. `Reassembly`, `Fragments`, `FragmentRuns`, `FragmentPackets`,
`FragmentPacketsV6`, `FragmentTable` and `FragmentArrivals` put fragmented packets together. `TcpFlow` is one TCP flow
of the tunnel, `FlowTable` the bounded tables, `Relay` the frames from the relay, `RelayStream` what clients hear of
them, `Preflight` the check of a whole batch, `AdapterRuns` the runs of all of these together, `RefusedBatch` a batch
that is stopped half-way, and `PacketAdapterState` the object.

**Receiver and key update** (`packet`). `ReplayWindow` is the ring bitmap, `Receiver` the prepare and commit of
packets, `Protectors` the pinning of key material, `KeyUpdate` one direction of the key-phase protocol and
`KeyAgreement` its two parties.

**Scheduler, sealing, fake addresses.** `Scheduler` has the waiting bounds and shows that they are reached. `Sealing`
proves the single-buffer form of sealing equal to the simple one. `FakeIp` is the linear-probing allocator. `Wire`,
`Bytes` and `Arith` are the encodings and arithmetic shared by the rest.

## What turned out not to hold as promised

For each of these the code is modelled as it is, the failing case is a lemma, and a second lemma gives the exact
condition.

- A compaction whose final directory sync fails leaves a rename that a crash can undo, while later inserts are already
  acknowledged on top of it: `RetentionRevert.AcknowledgedKeyIsReadmitted`. A key stays spent exactly when its insert
  leaves no such rename, or when no file that the rename replaced can be opened without it, which takes a generation
  counter that is used up: `RetentionExhausted.DurableIff`, `RetentionDurability.LeavesRenameIff`.
- A read error in the middle of a scan makes the handle read the line it cut as if it were whole, and it may then
  refuse a key that nobody has inserted: `RetentionStray.UnwrittenKeyIsRefused`,
  `RetentionStray.RefusedAfterReadErrorIff`.
- The spent key of an access hint does not cover its expiry, and a presentation without a time is not compared with
  the clock: `Admission.ReadmittedAfterRetention`, `Admission.ReadmittedWithoutClock`, `Admission.ReadmittedIff`.
- A fake-address mapping canonicalises its name a second time, so a name that ends in two dots or a dot and a space is
  not the name its address answers with: `FakeIp.TwoDots`, `FakeIp.InverseIff`.
- Two prepared opens of one packet with a forget between their commits deliver it twice:
  `Receiver.ForgetBetweenCommitsDeliversTwice`; exactly when, for every run, is `Receiver.DeliveredAgainIff`. The
  session opens sequentially, and then it cannot happen: `Receiver.NeverDeliveredTwice`.
- A protector never repeats a packet number, but the session takes the number of a sealed packet back when it drops
  the packet: `Sealing.DroppedNumberIsReused`, `Sealing.NumberSharedIff`. No two packets that it queues share a number:
  `Sealing.QueuedNoncesAreUnique`.
- A local TCP packet from a whole number of turns of the sequence space away is taken for the next one:
  `TcpFlow.OldPacketGarbles`, `TcpFlow.StaleByTurns`.
- A reassembled IPv4 header writes a checksum of 65535 as the equivalent 0:
  `FragmentPackets.OddPacketComesBackChanged`, `FragmentPackets.RewriteSelfIff`.
- A relay batch that the proxy refuses half-way has already moved sequence numbers for packets that are then
  discarded: `RefusedBatch.UnsentOctetMovesNumber`, `Preflight.SentIff`, `RelayStream.RefusalMovesNumbers`.

## How the world outside is modelled

- Times are integers and clocks are parameters; the caches assume that a clock does not go back.
- A locked region is one atomic step. Between the two locked halves of a local packet anything but another local
  packet may happen.
- Hashes used as keys, the AEAD, key derivation and the fake-address hash are parameters. Where a theorem needs a hash
  to be injective, or the AEAD to add 16 octets, it says so in its `requires`.
- Every call that can fail in the original (file reads, writes and syncs, queueing, the local proxy) has its result as
  a parameter, so the theorems hold whichever of them fails.

## Model

| member | source | states |
|---|---|---|
| `RetentionRecord.RecordRoundTrip` | admission/replay_cache_retention.go:266-283 | a record written as hex, tab and decimal parses back to the same key and deadline |
| `RetentionRecord.RecordTextIsCanonical` | admission/replay_cache_retention.go:266-283 | a parsed record is the canonical text of its key and deadline, or a legacy line that never expires; no other text is accepted |
| `RetentionRecord.TornRecord` | admission/replay_cache_retention.go:266-283 | any prefix of a record reads as nothing, as the same key, or as an entry that never expires, so a torn append cannot shorten the retention of another key |
| `RetentionRecord.HexRoundTrip` | admission/replay_cache_retention.go:266-283 | hexadecimal decoding undoes encoding |
| `RetentionRecord.FormatUintDigits` | admission/replay_cache_retention.go:317 | the decimal form of a deadline has the value of the deadline |
| `RetentionLog.ReadResumes` | admission/replay_cache_retention.go:228-264 | reading may stop after any terminated prefix and resume: an incremental load reads what a full load reads |
| `RetentionLog.ReadMerges` | admission/replay_cache_retention.go:228-264 | reading onto a resident map merges the file's own records into it, and fails exactly when the file is corrupt |
| `RetentionLog.RecordsConcat` | admission/replay_cache_retention.go:228-264 | records of a terminated prefix and of what follows are merged in file order |
| `RetentionLog.BodyDecides` | admission/replay_cache_retention.go:228-264 | a torn tail never makes a load fail |
| `RetentionLog.ReadKeepsLowerBound` | admission/replay_cache_retention.go:228-264 | the tracked deadline stays at or below every resident deadline |
| `RetentionLog.ReadIsWritable` | admission/replay_cache_retention.go:228-283 | only records with a key and a positive deadline become resident |
| `RetentionLog.AppendedLine` | admission/replay_cache_retention.go:392-415 | a whole line appended to a clean file adds exactly its record |
| `RetentionLog.TornAppend` | admission/replay_cache_retention.go:392-415 | any part of a line appended to a clean file leaves it readable and every other key retained at least as long |
| `RetentionLog.TailRecords` | admission/replay_cache_retention.go:228-264 | a file that is only a torn tail holds at most the record the tail parses to |
| `RetentionLog.CompactedRoundTrip` | admission/replay_cache_retention.go:311-327 | reading a compacted file gives back exactly the map it was written from |
| `RetentionMachine.GenerationRoundTrip` | admission/replay_cache_retention.go:197-222 | a generation counter written on eight octets reads back unchanged |
| `RetentionSafety.ReadAgrees` | admission/replay_cache_retention.go:154-195 | an incremental load reads the resident map a full load would, outside the handle's own failed inserts |
| `RetentionSafety.LoadIsExact` | admission/replay_cache_retention.go:154-195 | after a load the resident map is the live part of the whole file plus at most keys of this handle's failed inserts, and the consumed size is the terminated body |
| `RetentionSafety.AppendKeepsFile` | admission/replay_cache_retention.go:392-415 | wherever a crash cuts an append, every acknowledged live record stays readable |
| `RetentionSafety.CompactKeeps` | admission/replay_cache_retention.go:301-390 | whatever step of a compaction fails, acknowledged live records are kept |
| `RetentionSafety.CompactKeepsHandle` | admission/replay_cache_retention.go:301-390 | and the handle stays in step with the directory, whatever its own failed inserts once the compaction is complete |
| `RetentionSafety.InsertKeepsOwn` | admission/replay_cache_retention.go:74-109 | an insert keeps the invariant of its handle and file, and inserts an acknowledged key only after its deadline |
| `RetentionSafety.InsertKeepsOthers` | admission/replay_cache_retention.go:74-109 | an insert through one handle keeps every other handle in step with the file |
| `RetentionSafety.OpenKeepsInv` | admission/replay_cache_retention.go:39-66 | opening a handle, with its repair of torn or expired files, keeps the invariant |
| `RetentionSafety.CrashKeepsInv` | admission/replay_cache_retention.go:392-415 | a crash that cuts the unsynced tail keeps the invariant |
| `RetentionSafety.RunKeepsInv` | admission/replay_cache_retention.go:74-109 | the invariant holds in every run of any number of handles |
| `RetentionSafety.AcknowledgementLasts` | admission/replay_cache_retention.go:74-109 | while a deadline lies ahead nothing takes the acknowledgement of its key away |
| `RetentionSafety.AtMostOnce` | admission/replay_cache_retention.go:74-109 | over every run of opens, inserts, failures, compactions and crashes: after an insert of a key returned (true, nil), no handle's insert of it before the deadline returns true |
| `RetentionSafety.TornTailIsNeverExtended` | admission/replay_cache_retention.go:74-109 | an insert that meets an unterminated tail leaves the data file as it is, or replaces it by a whole, synced compaction of what the handle holds; nothing is written after the tail |
| `RetentionDurability.ReachableLoadIsExact` | admission/replay_cache_retention.go:154-195 | in every reachable state, after crashes of either kind too, a load leaves exactly the live records of a from-scratch parse plus the handle's own failed inserts |
| `RetentionDurability.ReachableTailIsNeverExtended` | admission/replay_cache_retention.go:74-109 | and no insert extends an unterminated tail |
| `RetentionDurability.LeavesRenameIff` | admission/replay_cache_retention.go:301-390 | seen from before the insert: it leaves such a rename exactly when one was there and the load finds neither an expired record nor a torn tail |
| `RetentionDurability.StepKeepsDirectory` | admission/replay_cache_retention.go:301-390 | in every step, also a crash that undoes a rename, each handle stays in step, the current file keeps the live records of the one that a crash could bring back, and every generation a crash could bring back lies below the current one |
| `RetentionDurability.NeverReadmitted` | admission/replay_cache_retention.go:74-109 | nothing readmits the key of an insert that leaves no such rename |
| `RetentionDurability.RevertReadmits` | admission/replay_cache_retention.go:335-347 | the crash that brings the older file back, with a generation file that it may leave, readmits and acknowledges the key of any other acknowledged insert at once, as long as that generation is not the last |
| `RetentionExhausted.DurableIff` | admission/replay_cache_retention.go:74-109 | in every run, crashes that undo renames included: the key of an acknowledged insert is never admitted again before its deadline, whatever follows, if and only if the insert leaves no rename that a crash could undo, or the generations are used up and no piece of the older file opens without the key; otherwise some run admits and acknowledges it |
| `RetentionExhausted.RunStaysShut` | admission/replay_cache_retention.go:349-352 | with the generations used up, a run keeps the key in the file or ends in a directory that no handle can open |
| `RetentionExhausted.RecoverableReadmits` | admission/replay_cache_retention.go:349-352 | a piece of the older file that opens as it is and does not retain the key for long enough readmits it, at once or when its record expires |
| `RetentionRevert.ReadmittedIff` | admission/replay_cache_retention.go:74-109 | after a crash a live key is admitted again exactly when the surviving file does not record it as live |
| `RetentionRevert.OpenReads` | admission/replay_cache_retention.go:39-66 | a fresh handle on a readable directory holds exactly the live records |
| `RetentionRevert.AcknowledgedKeyIsReadmitted` | admission/replay_cache_retention.go:335-347 | a concrete run in which such a crash, with the synced generation in place, readmits an acknowledged key before its deadline |
| `RetentionSafety.PartialLoadKeeps` | admission/replay_cache_retention.go:228-264 | a read error in mid-scan adds to what the handle holds at most one key, that of the line it cut, and keeps the handle in step |
| `RetentionStray.RefusedAfterReadErrorIff` | admission/replay_cache_retention.go:228-264 | for every handle: after such an error a healthy insert is answered as without it, except that a key is refused if the cut line read as the key and the rest of the file says nothing of it |
| `RetentionStray.RefusedByFileOrErrorIff` | admission/replay_cache_retention.go:228-264 | in a handle without failed inserts it is refused exactly then, or when the file records the key as live |
| `RetentionStray.UnwrittenKeyIsRefused` | admission/replay_cache_retention.go:228-264 | a read error after two octets of a line makes the handle refuse a key that nobody has inserted and that it would have admitted |
| `RetentionCache.RetentionFileReplayCache.Consume` | admission/replay_cache_retention.go:228-264 | the reading loop computes the reading of the rest of the file, stops at the first corrupt line, and reports the offset past the last newline |
| `RetentionCache.RetentionFileReplayCache.ConsumeLines` | admission/replay_cache_retention.go:228-264 | the loop over terminated lines stops before a torn tail |
| `RetentionCache.RetentionFileReplayCache.ExpireLoaded` | admission/replay_cache_retention.go:287-299 | keeps exactly the unexpired records and the exact minimum of their deadlines |
| `RetentionCache.RetentionFileReplayCache.Load` | admission/replay_cache_retention.go:154-195 | incremental or full load, as the machine's load; a read error after any octet leaves what the machine's partial load leaves |
| `RetentionCache.RetentionFileReplayCache.WriteLines` | admission/replay_cache_retention.go:311-327 | writes the resident map as the compacted file, in key order |
| `RetentionCache.RetentionFileReplayCache.Rewrite` | admission/replay_cache_retention.go:301-390 | compaction behind a new durable generation, with a failure possible at each step |
| `RetentionCache.RetentionFileReplayCache.Append` | admission/replay_cache_retention.go:392-415 | appends one line, whole or torn |
| `RetentionCache.RetentionFileReplayCache.InsertIfAbsentUntil` | admission/replay_cache_retention.go:74-109 | the insert changes handle and directory exactly as the machine's insert; a closed cache changes nothing |
| `RetentionCache.OpenCache` | admission/replay_cache_retention.go:39-66 | opening loads, repairs and reports exactly as the machine's open |
| `MemoryCache.SweepIsValid` | admission/replay_cache.go:113-128 | the lazy sweep keeps exactly the unexpired records and the exact minimum deadline |
| `MemoryCache.DeleteBranchUnreachable` | admission/replay_cache.go:84-111 | after the sweep no resident record has expired, so the branch that deletes one key is never taken |
| `MemoryCache.InsertUntilIsValid` | admission/replay_cache.go:84-111 | a timed insert keeps the tracked deadline the exact minimum |
| `MemoryCache.InsertIsValid` | admission/replay_cache.go:70-82 | so does a permanent insert |
| `MemoryCache.RunKeepsInv` | admission/replay_cache.go:70-128 | the invariant that relates the cache to a log that never forgets holds in every run |
| `MemoryCache.AnswersLikeTheLog` | admission/replay_cache.go:84-111 | in every run under a clock that does not go back, a timed insert is answered exactly as the never-forgetting log answers it |
| `MemoryCache.MemoryReplayCache.ExpireLocked` | admission/replay_cache.go:113-128 | the loop over the map leaves the unexpired records and their minimum deadline |
| `MemoryCache.MemoryReplayCache.InsertIfAbsentUntil` | admission/replay_cache.go:84-111 | the object's timed insert is the specified one |
| `MemoryCache.MemoryReplayCache.InsertIfAbsent` | admission/replay_cache.go:70-82 | the object's permanent insert is the specified one |
| `Admission.MaximumRetentionDeadline` | admission/replay_cache.go:42-53 | the result outlasts the latest of the given times by the grace period; it fails exactly when a time is unset, none is given or the sum overflows |
| `Admission.SpentKeyIdentifies` | admission/access_hint.go:74-89 | two credentials share a spent key exactly when issuer, bucket, epoch and selector agree; the expiry is not part of it |
| `Admission.VerifyAndSpendAccessHintAt` | admission/access_hint.go:95-133 | checks and spends the hint as specified, over the real cache |
| `Admission.TwiceAdmitted` | admission/access_hint.go:95-133 | if one spent key is admitted twice in a run, the first presentation carried a time, and the second carried none or came after the retention of the first, so that its expiry is later |
| `Admission.HintAdmittedOnce` | admission/access_hint.go:95-133 | a hint whose expiry is fixed is admitted at most once, ever, by callers that pass the time |
| `Admission.ReadmittedIff` | admission/access_hint.go:95-133 | after an admission and any presentations that do not admit the key again, a presentation is admitted if and only if the first carried a time and its retention has passed; one without a time is judged at the latest time presented |
| `Admission.ReadmittedAfterRetention` | admission/access_hint.go:95-133 | a hint shown again with a later expiry is admitted a second time |
| `Admission.ReadmittedWithoutClock` | admission/access_hint.go:91-133 | so is one without a time, once another presentation has swept the expired record |
| `Admission.TokenKeyIdentifies` | admission/replay.go:90-116 | two proofs share a spent key exactly when they are the same proof |
| `Admission.DedupKeyIdentifies` | admission/replay.go:118-145 | two attempts that pass the hash checks share a bootstrap key exactly when they agree on the token, the replay proof and the hop |
| `Admission.VerifyAndSpendReplay` | admission/replay.go:162-223 | checks that the attempt names its own token and context, spends the token first, then the bootstrap key, and admits only if both were fresh |
| `Admission.TokenSpentOnce` | admission/replay.go:162-223 | a token is spent at most once, ever, although the cache forgets expired records |
| `Admission.FreshTokenIsAdmitted` | admission/replay.go:206-222 | in every run the two caches agree: an attempt whose token is fresh finds its bootstrap key fresh too |
| `DurableAdmission.HintAdmittedOnce` | admission/access_hint.go:95-133 | over every run of the cache file, with failures, crashes and restarts: a hint admitted without a time is never admitted again, one admitted with a time not again with the same expiry |
| `DurableAdmission.TokenSpentOnce` | admission/replay.go:162-213 | and a token is spent at most once |
| `Scheduler.EnqueueKeepsInv` | flow/scheduler.go:36-62 | enqueueing keeps byte count, limit and pass counters consistent |
| `Scheduler.ServeKeepsInv` | flow/scheduler.go:64-81 | so does serving the chosen class |
| `Scheduler.ServeUsesPatience` | flow/scheduler.go:64-105 | serving another class strictly uses up the patience of a class that holds data |
| `Scheduler.PatienceBounded` | flow/scheduler.go:83-105 | patience never exceeds the bound of its class |
| `Scheduler.BoundedWaiting` | flow/scheduler.go:36-120 | under any mix of enqueues and takes a class with data is passed over at most 4 (bulk), 6 (interactive) or 2 (realtime) times in a row; the byte count is exact and within the limit; each class is first in, first out, with nothing lost or duplicated |
| `Scheduler.BoundsAttained` | flow/scheduler.go:64-105 | runs exist in which each bound is reached |
| `Scheduler.StreamScheduler.Enqueue` | flow/scheduler.go:36-62 | accepts or refuses by the byte limit and appends to the class's queue |
| `Scheduler.StreamScheduler.NextQueueIndex` | flow/scheduler.go:83-105 | the loop picks the class that priority and pass counters choose |
| `Scheduler.StreamScheduler.Next` | flow/scheduler.go:64-81 | serves the head of the chosen class and updates the counters in place |
| `Scheduler.StreamScheduler.PopChunk` | flow/scheduler.go:107-120 | removes the head of one queue and leaves the others |
| `FakeIp.CanonicalTwice` | flow/flow.go:508-514 | canonicalising twice changes nothing exactly when the name ends in neither dot nor space |
| `FakeIp.CandidateUsable` | flow/flow.go:477-502 | every probed address is usable and inside the network |
| `FakeIp.ProbesCover` | flow/flow.go:477-502 | the probes visit every usable address |
| `FakeIp.AssignKeepsInv` | flow/flow.go:435-461 | an assignment keeps the tables in step and changes no earlier address |
| `FakeIp.AssignFailsIff` | flow/flow.go:435-502 | a new name is refused exactly when every usable address is taken |
| `FakeIp.AssignmentsAreStable` | flow/flow.go:435-461 | after any assignments the tables correspond and a name keeps its address |
| `FakeIp.InverseIff` | flow/flow.go:435-475 | after any requests the tables are inverse exactly when every accepted name ends in neither dot nor space |
| `FakeIp.RoundTrip` | flow/flow.go:435-475 | the address of an accepted name answers with that name exactly when it ends in neither dot nor space, and no two names share an address |
| `FakeIp.AnswersAreLatest` | flow/flow.go:435-475 | an address keeps the answers of the last request for its name |
| `FakeIp.TwoDots` | flow/flow.go:531-536 | a name with two trailing dots is assigned, but its address answers for a different name |
| `FakeIp.FakeIPAllocator.NextAvailableIP` | flow/flow.go:477-502 | the probing loop finds the first free address |
| `FakeIp.FakeIPAllocator.AssignIP` | flow/flow.go:435-461 | the object assigns as specified |
| `FakeIp.FakeIPAllocator.MappingForFakeIP` | flow/flow.go:463-475 | an address has a mapping exactly when a name owns it; the mapping names that one owner, canonicalised once more |
| `Sealing.XorCancels` | crypto/aead.go:155-164 | exclusive or with the same operand is undone |
| `Sealing.NonceInjective` | crypto/aead.go:155-164 | under one IV different packet numbers have different nonces |
| `Sealing.AppendXORNonce96` | crypto/aead.go:155-164 | the loop that folds the number into the IV from the right computes the nonce |
| `Sealing.LengthExact` | protocol/frames.go:20-83 | the predicted length of a frame block is the length of its encoding |
| `Sealing.EncodedWhenReady` | packet/packet.go:193-258 | sealing and then encoding gives the header followed by the sealed block |
| `Sealing.NothingSealed` | packet/packet.go:193-258 | a block that cannot be sealed uses no packet number |
| `Sealing.SealInPlace` | packet/packet.go:260-325 | sealing inside the output buffer gives header and sealed text |
| `Sealing.PacketProtector.CachedAEAD` | packet/packet.go:460-476 | the cached AEAD is always that of the current suite and key, both of which decide what sealing gives |
| `Sealing.PacketProtector.SealEncoded` | packet/packet.go:260-325 | the single-buffer form returns, octet for octet, what sealing and then encoding returns, and moves the packet number the same way |
| `Sealing.NumbersGrow` | packet/packet.go:193-258 | sealing changes a protector only by raising its packet number |
| `Sealing.NoncesAreUnique` | packet/packet.go:193-258 | no two packets that a protector seals under one key in any run of it share a packet number or nonce |
| `Sealing.QueuedNoncesAreUnique` | session/application.go:522-547 | no two packets that a session queues under one key share a packet number or nonce, whatever sealed packets it drops in between |
| `Sealing.DroppedNumberIsReused` | session/application.go:530-543 | a sealed packet that the session drops shares its number with the next one it seals |
| `Sealing.NumberSharedIff` | session/application.go:522-547 | two packets sealed by a session share their number exactly when none is queued from the first of them on |
| `Sealing.PacketRoundTrip` | packet/packet.go:43-97 | every packet that can be encoded decodes to itself |
| `Wire.VarintRoundTrip` | wire/varint.go:14-89 | every varint is read back whatever follows it |
| `Wire.VarintPrefixFree` | wire/varint.go:14-89 | no varint encoding is a prefix of another |
| `Wire.Opaque16PrefixFree` | wire/encoder.go:171-178 | length-prefixed octets split a text in one way only |
| `ReplayWindow.ContainsIff` | packet/receiver.go:434-444 | within the window a slot is set exactly when its number was accepted |
| `ReplayWindow.SetHolds` | packet/receiver.go:434-444 | setting a slot records exactly one number |
| `ReplayWindow.AdvanceHolds` | packet/receiver.go:446-460 | clearing the entered slots keeps the bitmap meaning when the window moves up |
| `ReplayWindow.ClearedHolds` | packet/receiver.go:446-460 | so does clearing everything on a long jump |
| `ReplayWindow.CountIsExact` | packet/receiver.go:462-468 | the bit count is the number of accepted packets still inside the window |
| `ReplayWindow.Window.Contains` | packet/receiver.go:434-437 | answers whether the number was accepted |
| `ReplayWindow.Window.Check` | packet/receiver.go:394-410 | accepts exactly numbers above the highest or unseen within the window |
| `ReplayWindow.Window.Advance` | packet/receiver.go:446-460 | moves the window up in place without changing what is remembered |
| `ReplayWindow.Window.Mark` | packet/receiver.go:412-432 | adds one number and raises the highest |
| `ReplayWindow.Window.Count` | packet/receiver.go:462-468 | the loop over words counts accepted numbers still in the window |
| `Receiver.CommitsOnceBetweenForgets` | packet/receiver.go:376-432 | between two forgets of a space, for every interleaving of prepares and commits, a packet number is delivered at most once |
| `Receiver.RefusedIff` | packet/receiver.go:376-432 | after any run of prepares, commits, forgets and destroys a number is refused if and only if the run blocks it (a destroy, or a delivery of it or of a number more than a window above with no forget of its space since), or it was refused at the start and its window has not been forgotten |
| `Receiver.DeliveredAgainIff` | packet/receiver.go:376-432 | a second commit of a delivered packet delivers it again if and only if its space has been forgotten in between and nothing blocks it since |
| `Receiver.ForgetBetweenCommitsDeliversTwice` | packet/receiver.go:167-180 | a forget between two commits of twice-prepared packets delivers twice |
| `Receiver.RunKeepsLinkInv` | session/key_update.go:300-383 | opens, received updates and drain expiries keep the relation between windows and phases |
| `Receiver.NeverDeliveredTwice` | packet/receiver.go:196-213 | in every sequential run of opens, received updates and drain expiries no packet number of a space is delivered twice, although windows of drained phases are forgotten |
| `Receiver.PacketReceiver.constructor` | packet/receiver.go:99-122 | a zero window size means the default, and larger sizes are clamped |
| `Receiver.PacketReceiver.CheckPacketNumber` | packet/receiver.go:394-410 | accepts exactly fresh numbers |
| `Receiver.PacketReceiver.CommitPreparedOpen` | packet/receiver.go:376-388 | checks again and marks; a refused commit changes nothing |
| `Receiver.PacketReceiver.ForgetPacketNumberSpace` | packet/receiver.go:167-180 | forgets one space and no other |
| `Receiver.PacketReceiver.DestroyReceiver` | packet/receiver.go:150-163 | forgets everything and refuses from then on |
| `Protectors.ReleaseKeepsInv` | packet/receiver.go:342-360 | the last release of retired material zeroes it |
| `Protectors.AcquireKeepsInv` | packet/receiver.go:302-326 | what an open acquires is pinned, neither retired nor zeroed, and built from the material asked for |
| `Protectors.DropKeepsInv` | packet/receiver.go:167-180 | forgetting a space retires its material |
| `Protectors.DestroyKeepsInv` | packet/receiver.go:150-163 | destroying retires all material |
| `Protectors.RunKeepsInv` | packet/receiver.go:302-374 | the pin accounting holds in every interleaving |
| `Protectors.PinnedMaterialIsSafe` | packet/receiver.go:302-374 | in every interleaving pinned material is not zeroed, acquired material is neither retired nor zeroed, and retired material is zeroed exactly when unpinned |
| `Protectors.RetiredIsFinal` | packet/receiver.go:328-374 | retired or zeroed material is never handed out again |
| `Protectors.ProtectorCache.AcquireProtector` | packet/receiver.go:328-340 | pins one protector |
| `Protectors.ProtectorCache.ReleaseProtector` | packet/receiver.go:342-360 | unpins, and zeroes on the last release |
| `Protectors.ProtectorCache.RetireProtector` | packet/receiver.go:362-374 | zeroes now or marks for the last release |
| `Protectors.ProtectorCache.DirectionProtector` | packet/receiver.go:302-326 | reuses a cached protector of the same material or replaces it |
| `Protectors.ProtectorCache.ForgetPacketNumberSpace` | packet/receiver.go:167-180 | drops the cached protector of a space |
| `Protectors.ProtectorCache.DestroyAll` | packet/receiver.go:150-163 | the loop retires every protector |
| `KeyUpdate.EncodeUpdateInjective` | packet/key_update.go:131-159 | different update frames have different encodings |
| `KeyUpdate.DrainInvHolds` | packet/key_update.go:413-443 | in every reachable state previous material, a pending update and a remembered update exist only under a drain deadline, and the phase never decreases |
| `KeyUpdate.RedeliveryIsIdempotent` | packet/key_update.go:366-401 | redelivering an applied update, whatever happened in between, changes nothing; it returns the first result if and only if no later update has been applied and the drain is still on |
| `KeyUpdate.OnlyTheSameFrameIsRedelivered` | packet/key_update.go:366-401 | as long as no later update has been applied, whatever else happened, only the very same frame within the drain is taken for a redelivery, and it gets the first result |
| `KeyUpdate.AtMostOneCommits` | packet/key_update.go:233-268 | of all updates prepared at one phase at most one commits |
| `KeyUpdate.DirectionState.ClearDrainState` | packet/key_update.go:426-433 | clears the drain fields |
| `KeyUpdate.DirectionState.ExpireDrainAt` | packet/key_update.go:300-303 | clears them once the deadline has passed |
| `KeyUpdate.DirectionState.PrepareUpdate` | packet/key_update.go:201-231 | prepares from the current phase and changes nothing |
| `KeyUpdate.DirectionState.CommitPreparedUpdate` | packet/key_update.go:233-268 | commits a preparation of the current phase, or changes nothing |
| `KeyUpdate.DirectionState.ApplyKeyUpdateACK` | packet/key_update.go:336-358 | applies the acknowledgement of the pending update only |
| `KeyUpdate.DirectionState.ApplyReceivedUpdateAt` | packet/key_update.go:366-401 | applies the next update or replays the remembered result |
| `KeyAgreement.RunKeepsInv` | packet/key_update.go:201-443 | the relation between writer, reader and committed frames holds in every run |
| `KeyAgreement.Agreement` | packet/key_update.go:201-268 | with committed frames delivered in any order and number, the reader is never ahead, and each side's material is one function of its phase |
| `KeyAgreement.SamePacketMaterial` | packet/key_update.go:280-298 | for a phase both sides still hold, both use the same material |
| `KeyAgreement.AcknowledgementsAreHeard` | packet/key_update.go:325-358 | every acknowledgement issued for the writer's current phase is applied or recognised as redundant |
| `Checksum.FoldMeaning` | client/packet_adapter.go:2122-2144 | folding carries keeps the sum modulo 65535, ends below 65536, and is zero for zero only |
| `Checksum.VerifiesIff` | client/packet_adapter.go:2122-2144 | a text verifies exactly when its word sum is a positive multiple of 65535 |
| `Checksum.InsertedChecksumVerifies` | client/packet_adapter.go:2102-2144 | a checksum computed over a zeroed field and written into it makes the text verify |
| `Checksum.InsertedOnesVerify` | client/packet_adapter.go:2042-2057 | so does 65535 in place of a computed zero |
| `Checksum.PacketAdapterChecksum` | client/packet_adapter.go:2122-2144 | the loop over parts, with its pending odd octet and 32-bit accumulator, computes the checksum of the concatenated parts |
| `Checksum.AddPart` | client/packet_adapter.go:2122-2144 | the accumulator never wraps for texts up to 131070 octets |
| `Checksum.FoldCarries` | client/packet_adapter.go:2122-2144 | the folding loop computes the fold |
| `IpPacket.TcpVerifies` | client/packet_adapter.go:2028-2040 | a built TCP segment verifies |
| `IpPacket.UdpVerifies` | client/packet_adapter.go:2042-2057 | a built UDP datagram verifies, including the 65535 case |
| `IpPacket.TcpParsesBack` | client/packet_adapter.go:1990-2040 | a built TCP segment parses back field for field |
| `IpPacket.UdpParsesBack` | client/packet_adapter.go:1990-2057 | a built UDP datagram parses back field for field |
| `IpPacket.V4ParsesTo` | client/packet_adapter.go:1507-1530 | an IPv4 packet built around a segment is parsed as that segment between those addresses |
| `IpPacket.V6ParsesTo` | client/packet_adapter.go:1876-1894 | so is an IPv6 packet |
| `IpPacket.BuildParsesBack` | client/packet_adapter.go:1493-1505 | every packet the adapter builds is accepted by its own parser and gives back the packet it was built from |
| `IpPacket.ParseHeaders` | client/packet_adapter.go:1896-1935 | the extension-header walk ends inside the packet |
| `Segments.RelayTcpLayout` | client/packet_adapter.go:1105-1124 | the number of segments is the least that covers the payload |
| `Segments.PieceBuilds` | client/packet_adapter.go:1231-1241 | every piece builds and fits the packet limit |
| `Segments.PiecesAreHeard` | client/packet_adapter.go:1130-1152 | the first packets of a cut are heard as the first pieces of the stream and nothing else |
| `Segments.CutDelivers` | client/packet_adapter.go:1130-1152 | a complete cut fits the limit, fills all but the last packet, and a receiver that insists on contiguous sequence numbers modulo 2^32 hears exactly the payload |
| `Segments.RelayWriter.MakeTcpPacket` | client/packet_adapter.go:1231-1241 | builds one packet and counts its identifier |
| `Segments.RelayWriter.CutPayload` | client/packet_adapter.go:1130-1152 | the loop cuts the payload at the segment size with consecutive identifiers |
| `Segments.RelayWriter.MakeRelayTcpPackets` | client/packet_adapter.go:1105-1152 | refuses exactly when the layout does, changing nothing; otherwise delivers the payload and moves the relay sequence past it |
| `Reassembly.CoversIff` | client/packet_adapter.go:1643-1653 | disjoint pieces inside a total cover it exactly when their lengths add up to it |
| `Reassembly.CoveringPiece` | client/packet_adapter.go:1643-1653 | in a cover every octet belongs to exactly one piece |
| `Reassembly.OverlayHolds` | client/packet_adapter.go:1660-1662 | copying disjoint pieces in any order leaves each in its place |
| `Reassembly.CoverDetermines` | client/packet_adapter.go:1654-1662 | a payload is determined by any cover of it |
| `Fragments.AdmitKeepsInv` | client/packet_adapter.go:1596-1639 | an accepted fragment keeps the set disjoint, within its total, within the limits and correctly counted |
| `Fragments.IngressKeepsInv` | client/packet_adapter.go:1580-1665 | a fragment keeps every set sound and the number of sets within its limit |
| `Fragments.WholeMeans` | client/packet_adapter.go:1654-1664 | each octet of a joined packet comes from exactly one accepted piece at its offset, and the packet fits the limit |
| `Fragments.FinishedIffCovered` | client/packet_adapter.go:1640-1653 | a set is joined exactly when no octet is missing |
| `FragmentRuns.RunKeepsInv` | client/packet_adapter.go:1580-1673 | the table stays sound and bounded in every run |
| `FragmentRuns.WholeIsFromFragments` | client/packet_adapter.go:1580-1665 | in every run a packet is produced only from pieces received for its key that do not overlap and leave nothing out; its set is then forgotten |
| `FragmentRuns.CutStep` | client/packet_adapter.go:1580-1639 | the next part of a cut packet is always admitted, whatever the order |
| `FragmentRuns.FinishedAtLast` | client/packet_adapter.go:1640-1664 | the set is finished at the last arrival and not before |
| `FragmentRuns.EveryOrderReassembles` | client/packet_adapter.go:1580-1665 | for any cut, any arrival order and any interleaved fragments of other packets within the lifetime: every part but the last waits and the last gives the packet |
| `FragmentPackets.ParseFragmentV4` | client/packet_adapter.go:1532-1578 | an accepted fragment carries data, and its header when it is the first |
| `FragmentPackets.ChecksumIsCanonical` | client/packet_adapter.go:1655-1659 | a verifying header checksum other than 65535 is the one the adapter recomputes |
| `FragmentPackets.RewriteSelfIff` | client/packet_adapter.go:1655-1659 | rewriting a sound header with its own length and flags changes nothing exactly when its checksum is not written as 65535 |
| `FragmentPackets.CutParses` | client/packet_adapter.go:1532-1578 | a fragment cut as section 2.3 of RFC 791 describes is read as exactly the range it carries |
| `FragmentPackets.PatchRestores` | client/packet_adapter.go:1655-1659 | the rewritten first header is the original header exactly when its checksum is not written as 65535 |
| `FragmentPackets.CutPacketReturns` | client/packet_adapter.go:1532-1665 | an IPv4 packet cut anywhere the standard allows and shuffled among other fragments comes back octet for octet, except that a header checksum of 65535 becomes the equivalent 0 |
| `FragmentPackets.OddPacketComesBackChanged` | client/packet_adapter.go:1655-1659 | a concrete header with that checksum: its packet, cut in two, verifies and does not come back as it was sent |
| `FragmentArrivals.CutOctetsReturn` | client/packet_adapter.go:306-368 | the same for octets as they arrive: the fragments of a cut IPv4 packet, in any order among any other octets, give the packet back at the last of them and nothing before |
| `FragmentArrivals.CutOctetsReturnV6` | client/packet_adapter.go:306-392 | and for IPv6 |
| `FragmentPacketsV6.ParseFragmentV6` | client/packet_adapter.go:1687-1765 | an accepted IPv6 fragment carries data and its unfragmentable part |
| `FragmentPacketsV6.CutParsesV6` | client/packet_adapter.go:1687-1765 | a fragment cut as section 4.5 of RFC 8200 describes is read as exactly the range it carries |
| `FragmentPacketsV6.WalkArrives` | client/packet_adapter.go:1694-1764 | the walk over the repeated headers of a cut fragment arrives at its fragment header and remembers the octet that names it |
| `FragmentPacketsV6.PatchRestoresV6` | client/packet_adapter.go:1845-1848 | unlinking the fragment header restores the original header |
| `FragmentPacketsV6.CutPacketReturnsV6` | client/packet_adapter.go:1687-1854 | an IPv6 packet cut behind any extension headers the adapter accepts, shuffled and interleaved with other fragments, comes back octet for octet |
| `FragmentTable.GapMeansIncomplete` | client/packet_adapter.go:1643-1653 | a piece that does not start where the sorted ones before it end leaves an octet out |
| `FragmentTable.FollowOn` | client/packet_adapter.go:1644-1650 | the loop over sorted pieces finds out whether they follow on to the total |
| `FragmentTable.SortPieces` | client/packet_adapter.go:1643 | sorts by offset and keeps the same disjoint pieces |
| `FragmentTable.CopyPieces` | client/packet_adapter.go:1660-1662 | the copying loop assembles the payload |
| `FragmentTable.Accept` | client/packet_adapter.go:1596-1639 | the checks and updates of one set, with their loops, are the specified ones |
| `FragmentTable.Complete` | client/packet_adapter.go:1640-1664 | sorting, testing and joining gives the packet exactly when the set is finished |
| `FragmentTable.SameIngress` | client/packet_adapter.go:1580-1665 | the order in which a set keeps its pieces never shows in an answer |
| `FragmentTable.FragmentSets.ExpireSets` | client/packet_adapter.go:1667-1673 | drops exactly the expired sets |
| `FragmentTable.FragmentSets.IngressFragment` | client/packet_adapter.go:1580-1665 | answers and updates the table as specified |
| `TcpFlow.StepFrames` | client/packet_adapter.go:688-825 | frames are queued for in-order packets and resets only; anything else leaves the client's side as it was |
| `TcpFlow.RunAcknowledges` | client/packet_adapter.go:688-825 | in every run the acknowledged number is the initial number plus one plus the octets forwarded, plus one after a FIN, modulo 2^32 |
| `TcpFlow.RepliesAcknowledge` | client/packet_adapter.go:771-822 | every answer acknowledges exactly what has been queued |
| `TcpFlow.FinalSequenceIsAcknowledged` | client/packet_adapter.go:789-796 | the final sequence in a close frame is the number acknowledged for it |
| `TcpFlow.DropLeavesNoTrace` | client/packet_adapter.go:797-804 | a packet dropped for backpressure or refused leaves no trace |
| `TcpFlow.AcceptedIff` | client/packet_adapter.go:771-780 | a packet is taken for the next one exactly when its stream offset is right modulo 2^32 |
| `TcpFlow.NearIsExact` | client/packet_adapter.go:2146-2148 | within half the sequence space the 32-bit comparison tells earlier, expected and later apart |
| `TcpFlow.StreamIsForwardedOnce` | client/packet_adapter.go:688-825 | whatever is retransmitted, overlaps, arrives late or is dropped, short of a whole number of turns of the sequence space: the relay gets the client's octets once and in order, and with the end of the stream all of them |
| `TcpFlow.InOrderGetsThrough` | client/packet_adapter.go:781-822 | the next octets in order get through as soon as the queues have room |
| `TcpFlow.StaleByTurns` | client/packet_adapter.go:771-780 | a packet from a whole number of turns away is forwarded as the next one, and the relay then has the client's stream exactly when that stream repeats itself there |
| `TcpFlow.OldPacketGarbles` | client/packet_adapter.go:771-780 | a run of truthful packets in which a stream whose first octet differs from the one a turn later is garbled by a retransmission of its first octet |
| `TcpFlow.AnsweredIff` | client/packet_adapter.go:699-822 | a packet is answered exactly when an answer is built for it and the local queue has room |
| `FlowTable.SearchSucceeds` | client/packet_adapter.go:1266-1280 | more attempts than identifiers in use always find a free one |
| `FlowTable.AllocateNeverFails` | client/packet_adapter.go:1266-1280 | the search for a flow identifier never fails and finds one that no flow or request uses |
| `FlowTable.AddKeepsInv` | client/packet_adapter.go:746-757 | adding a flow keeps the tables inverse, disjoint and within the limit |
| `FlowTable.RemoveKeepsInv` | client/packet_adapter.go:1295-1302 | so does removing one |
| `FlowTable.BeginKeepsInv` | client/packet_adapter.go:324-342 | so does the sweep of idle associations with its pending closes |
| `FlowTable.TcpPacketKeepsInv` | client/packet_adapter.go:688-825 | so does every local TCP packet |
| `FlowTable.UdpPacketKeepsInv` | client/packet_adapter.go:827-890 | so does every local UDP packet |
| `FlowTable.DnsQueryKeepsInv` | client/packet_adapter.go:940-977 | so does every relayed DNS query |
| `Relay.HandleKeeps` | client/packet_adapter.go:979-1199 | every relay frame keeps the tables consistent |
| `Relay.ReachableIsRelayOnly` | client/packet_adapter.go:979-1199 | a relay frame moves the relay's side of a flow only |
| `Relay.CutIsStream` | client/packet_adapter.go:1130-1152 | the packets listed for a stream frame are the ones the writer cuts |
| `Preflight.FrameAgrees` | client/packet_adapter.go:527-664 | a frame that passes the check is handled with the predicted packets unless the proxy refuses it; one that fails would be refused or send too many |
| `Preflight.PassedCheckIsKept` | client/packet_adapter.go:477-521 | if the check passes, only the proxy can stop the batch, the packets are as many as predicted, and the later limit is never exceeded |
| `Preflight.CheckIsExact` | client/packet_adapter.go:527-664 | with a willing proxy the check refuses exactly the batches that handling would refuse |
| `Preflight.BatchKeeps` | client/packet_adapter.go:477-521 | whatever the batch, the tables stay consistent, also when it is stopped half-way |
| `Preflight.SentIff` | client/packet_adapter.go:506-519 | a batch that passes its check is sent if and only if the proxy accepts every frame that is put to it: the confirmation of a live association, and the first close of a flow whose client has not closed it |
| `Preflight.RefusalKeepsEarlierFrames` | client/packet_adapter.go:506-519 | otherwise it is stopped at the first frame the proxy refuses and has taken effect up to there, though none of its packets is sent |
| `RelayStream.RefusalMovesNumbers` | client/packet_adapter.go:506-519 | a flow that survives such a batch has had its number moved exactly when the frames before the refused one say something on it or end it, and by as much as they say |
| `RefusedBatch.UnsentOctetMovesNumber` | client/packet_adapter.go:506-519 | in every consistent state with a stream and an association, a batch of one octet and a confirmation that the proxy refuses passes its check, sends nothing and moves the number by one |
| `RefusedBatch.TwoFlowsAreReached` | client/packet_adapter.go:688-890 | a SYN and a datagram lead an empty adapter to such a state |
| `RelayStream.DataIsHeard` | client/packet_adapter.go:1130-1152 | a stream frame is heard by its client as its payload, contiguous with what came before |
| `RelayStream.CloseIsHeard` | client/packet_adapter.go:1154-1199 | a close is heard as the end of the stream, one number further on if the flow stays |
| `RelayStream.OthersLeaveEntry` | client/packet_adapter.go:979-1199 | frames of other flows leave a flow alone |
| `RelayStream.OwnIsMine` | client/packet_adapter.go:477-521 | the packets a batch sends for a flow's frames are exactly those of its packets that are addressed to the flow's client, in order |
| `RelayStream.BatchPhase` | client/packet_adapter.go:1154-1199 | a batch removes a flow, or ends the relay's side of it, exactly as the first close among its frames says |
| `RelayStream.BatchIsHeard` | client/packet_adapter.go:477-521 | whatever else a batch carries, those of its packets that are addressed to a flow's client are heard there as exactly what the relay said on the flow until it closed it, contiguous modulo 2^32, also when the batch removes the flow |
| `RelayStream.DatagramIsDelivered` | client/packet_adapter.go:1063-1089 | a datagram that fits reaches its client whole, from the address the client sent to, and a larger one is dropped without trace |
| `RelayStream.AnswerIsDelivered` | client/packet_adapter.go:1009-1045 | the answer to a pending query reaches the asker once |
| `AdapterRuns.StepKeeps` | client/packet_adapter.go:306-342 | every step of the adapter keeps its tables consistent |
| `AdapterRuns.TablesStayConsistent` | client/packet_adapter.go:306-342 | in every reachable state the tuple and identifier tables are inverse, flow and DNS identifiers are disjoint, flows, requests and pending closes keep to the limit, and a free identifier is found |
| `AdapterRuns.ReachableBatches` | client/packet_adapter.go:477-521 | in every reachable state a batch that passes its check is stopped by the proxy or not at all, and sends the predicted packets |
| `AdapterRuns.FlowsEvolve` | client/packet_adapter.go:688-825 | in every step a TCP flow that stays takes a step of its own |
| `AdapterRuns.OwnHistory` | client/packet_adapter.go:688-825 | a flow's entry is what its own history makes of it |
| `AdapterRuns.FlowAcknowledges` | client/packet_adapter.go:688-825 | in every run of the whole adapter the number acknowledged for a flow counts exactly what was queued for it |
| `AdapterRuns.FlowForwardsOnce` | client/packet_adapter.go:688-825 | in every run of the whole adapter a truthful client's octets are forwarded once and in order, up to and including the packet that ends its flow |
| `AdapterRuns.SynOpens` | client/packet_adapter.go:712-757 | a served SYN gives its tuple a new flow under an unused identifier with the numbers the handshake fixes, and changes no other flow |
| `AdapterRuns.ClosesAreConserved` | client/packet_adapter.go:1342-1371 | over every run the closes of idle associations and of resets met by a full queue are queued in the order they arose, each once, or are still pending |
| `PacketAdapterState.PacketAdapter.constructor` | client/packet_adapter.go:240-266 | a new adapter is empty, with a valid first identifier |
| `PacketAdapterState.PacketAdapter.AllocateFlowID` | client/packet_adapter.go:1266-1280 | the search loop finds the first free identifier |
| `PacketAdapterState.PacketAdapter.RemoveFlow` | client/packet_adapter.go:1295-1302 | removes a flow from both tables |
| `PacketAdapterState.PacketAdapter.CollectIdle` | client/packet_adapter.go:1309-1318 | lists exactly the idle UDP associations, each once |
| `PacketAdapterState.PacketAdapter.ExpireUdpFlows` | client/packet_adapter.go:1309-1335 | removes exactly those |
| `PacketAdapterState.PacketAdapter.QueuePendingFlowCloses` | client/packet_adapter.go:1342-1371 | offers the closes in ever smaller batches: a prefix is queued, in order and once each, and the rest stay only if a single close was refused |
| `PacketAdapterState.PacketAdapter.BeginIngress` | client/packet_adapter.go:324-342 | sweep, pending closes and retry; the packet goes on only when none is left |
| `PacketAdapterState.PacketAdapter.IngressSyn` | client/packet_adapter.go:695-762 | a SYN without a flow is ignored, refused or opened as specified; the reset or the answer takes a packet identifier |
| `PacketAdapterState.PacketAdapter.IngressFlow` | client/packet_adapter.go:699-825 | a packet of a flow in the tables takes the flow's own step; its answer takes a packet identifier even if the queue has no room for it |
| `PacketAdapterState.PacketAdapter.IngressTcp` | client/packet_adapter.go:688-825 | updates the tables and the packet identifier as specified for a TCP packet |
| `PacketAdapterState.PacketAdapter.IngressUdp` | client/packet_adapter.go:827-890 | updates the tables as specified for a UDP packet |
| `PacketAdapterState.PacketAdapter.ExpireDnsRequests` | client/packet_adapter.go:1373-1379 | drops exactly the expired requests |
| `PacketAdapterState.PacketAdapter.IngressRelayedDns` | client/packet_adapter.go:940-977 | remembers the query for the fixed lifetime under a free identifier, after dropping the expired ones |
| `PacketAdapterState.PacketAdapter.IngressLocalDns` | client/packet_adapter.go:892-938 | a query answered from here takes a flow identifier, and its answer a packet identifier |
| `PacketAdapterState.PacketAdapter.HandleRelayDns` | client/packet_adapter.go:1009-1045 | handles a DNS answer as specified |
| `PacketAdapterState.PacketAdapter.HandleRelayClose` | client/packet_adapter.go:1154-1199 | handles a close as specified |
| `PacketAdapterState.PacketAdapter.HandleRelayData` | client/packet_adapter.go:1047-1093 | handles stream and datagram frames as specified |
| `PacketAdapterState.PacketAdapter.HandleRelayFrame` | client/packet_adapter.go:979-1007 | dispatches a frame as specified |
| `PacketAdapterState.PacketAdapter.CheckRelayBatch` | client/packet_adapter.go:527-664 | the loop over the batch computes the check and changes nothing |
| `PacketAdapterState.PacketAdapter.HandleFrameBlocks` | client/packet_adapter.go:477-521 | a batch that fails the check changes no flow, sequence number or packet identifier; one that passes sends exactly the packets counted, unless the proxy stops it |

## Left out

- Retention cache: what a disk does with pages after a failed `fsync`, beyond the undone rename.
- `FileReplayCache`, the simpler relative of the retention cache: nothing harder to prove.
- Name canonicalisation outside ASCII: `FakeIp` folds case and trims spaces for ASCII only.
- The bodies of `FlowOpen`, `UDPTargetConfirm` and `FlowClose` frames: `Relay` takes a close as decoded, with its code or as malformed.
- The parse of DNS queries and the local DNS answers: a query enters the tables with its transaction number, and an answer built locally only takes its identifiers.
- Admission.VerifyAndSpendReplay: the checks of versions, proof types, token metadata and extensions are the flag `sound`; they touch neither cache.
- The local proxy behind the adapter: its answers are parameters, and what it stores is not modelled.
- Local packets that the adapter queues for its own tunnel: the answers of a TCP flow are values of `TcpFlow.Step`, and the queue is the parameter `room`.
- The in-place sort of fragment pieces is a sorted permutation method on sequences, not Go's library sort.
- Handshake, provisioning bundles, policies, transports, sockets, HTTP and the command-line tools.
- Zeroing of buffers that hold no key material, file permissions and the lock files themselves.
