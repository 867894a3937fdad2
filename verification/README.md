# rust-xhttp in Dafny

A model of the hard core of rust-xhttp, a server that carries VLESS over split HTTP requests, with proofs. Most of
what the program promises holds over every fragmentation, every arrival order or every interleaving, and is stated
here that way.

| file | what it models |
|---|---|
| `ChunkTree.dfy`, `Blake3.dfy`, `Blake3Reference.dfy` | the hand-written BLAKE3 key derivation, against the recursive tree of the BLAKE3 paper and against the hash written out by bytes and literal constants |
| `RecordCipher.dfy`, `HeaderXor.dfy`, `EncryptedStream.dfy` | the VLESS-Encryption data path: nonces and re-keying, header masking, concurrent senders, reassembly |
| `Reorder.dfy`, `Budget.dfy`, `SessionTable.dfy`, `SessionOperations.dfy` | the uplink reorder buffer, the global byte budget and the sharded session table, as interleaved steps and as whole operations |
| `Vision.dfy` | the padding writer and the four-state reader that switches to raw mode |
| `TlsRecord.dfy`, `TlsStream.dfy` | TLS 1.3 record protection and the stream over it |
| `ClientHello.dfy`, `HelloParser.dfy`, `ServerHello.dfy` | reassembly and parsing of a ClientHello, synthesis of a ServerHello |
| `Tickets.dfy` | the 0-RTT ticket table and its replay check |
| `Acme.dfy` | publication of a certificate generation, stopped at any point |
| `Address.dfy`, `Xudp.dfy`, `Addons.dfy` | the wire codecs |
| `Bytes.dfy`, `Sums.dfy` | bytes, big-endian fields, exclusive-or; sums over maps |

How to read it:

- Code that changes state step by step is a class or a method with a loop. Its contract equates the result with a
  function on values, and the lemmas are about that function. A byte stream has a meaning (`ReadRecords`, `ReadTls`,
  `Feed`, `XorAll`) with a lemma that splitting the stream does not matter; a reader class keeps a ghost record of what
  it handed out, and its poll method states that this is always a prefix of the meaning of the whole wire.
- A transport gives or takes any part of what it is offered, stalls, fails or ends, chosen arbitrarily at each poll. A
  `steady` one neither stalls nor fails; over it a reader or writer gets to the end of its work, and over any other it
  answers "not yet" only with nothing received left unread. Likewise `lasting`: the reader of an uplink is not dropped.
- Beside its laws over runs and streams, each operation has a law for what it does alone: which input it takes and which
  it refuses, and how, with the numbers of the wire format spelled out. A step left out or a check dropped breaks one.
- Concurrent code is a machine: a state, the atomic steps (`Enabled`, `Apply`), and runs over `seq<Action>`. Any task
  may take the next step. Atomics are sequentially consistent and a lock has one owner.
- The AEAD, the key derivation and the key stream are function-valued parameters. All that is assumed of an AEAD is that
  opening undoes sealing (`OpenUndoesSeal`), and that this can be met is a lemma.
- Randomness, clocks, the shard hash and UTF-8 validity are parameters.

- Integers are those of the release build on a 64-bit target, where `+=` wraps without a check.

Where the code and what it promises differ, the code is modelled, an input shows the difference, and the exact
condition is proved: the session limit (`LimitHoldsExactly`), the byte budget (`ConservedExactly`), Vision calls of
more than one chunk (`RoundTripExactly`), domain names (`AddressRoundTrip`), addons without the Vision flow
(`AddonsRoundTrip`), addons whose decoding does not end (`EndsExactly`), tickets issued twice (`NeverTwiceExactly`), the
generation before a certificate switch (`OldSurvivesExactly`), a hello of 16 MiB or more (`HelloLength`), a record
type of zero (`OpenUndoesSealRecord`). Two places where comments and code disagree: the comment on `open_download`
(src/session/mod.rs:138-140) says that nothing is returned for an unknown session, but the code creates one; the
comment on skipped addons fields (src/vless/addons.rs:57) calls the skipping defensive, but a skipped field of wire
type 2 may claim more bytes than the body has, which is accepted, and a length near 2^64 takes the position back to an
earlier field, after which decoding goes round for ever (`EndlessBody`).

## Model

| member | source | states |
|---|---|---|
| ChunkTree.LeftSizeIsTheSplitOfThePaper | src/vless/encryption/kdf.rs:57-89 | in the reference tree the left subtree of n chunks is the one power of two below n and at least half of it |
| ChunkTree.StackHeight | src/vless/encryption/kdf.rs:57-89 | before chunk k the stack holds one entry per set bit of k |
| ChunkTree.StackLast | src/vless/encryption/kdf.rs:57-89 | its last entry is the subtree of the lowest set bit of k |
| ChunkTree.MergeStep | src/vless/encryption/kdf.rs:75-81 | two neighbouring perfect subtrees merge into the next larger one |
| ChunkTree.PushChunk | src/vless/encryption/kdf.rs:75-81 | the merge loop on trailing zeros takes the stack of k chunks to that of k + 1, and no pop finds it empty |
| ChunkTree.FoldStackIsTree | src/vless/encryption/kdf.rs:82-88 | folding the stack onto the last chunk gives the recursive tree over all chunks |
| Blake3.ChunkOutput | src/vless/encryption/kdf.rs:91-124 | the block loop gives the chunk node: chained blocks, zero padding, start and end flags, also for an empty chunk |
| Blake3.HashMode | src/vless/encryption/kdf.rs:57-89 | for every input the incremental hash is the root of the recursive tree, with the ROOT flag on the last output only |
| Blake3.DeriveKey | src/vless/encryption/kdf.rs:51-55 | the material tree is keyed by the root of the context tree |
| Blake3.WordsRoundTrip | src/vless/encryption/kdf.rs:185-199 | eight words survive the way through little-endian bytes |
| Blake3Reference.ChunkIsReference | src/vless/encryption/kdf.rs:91-124 | a chunk is its 64-byte blocks cut off the front, chained, with zeros behind the last, flag 1 on the first and 2 on the last |
| Blake3Reference.SubtreeIsReference | src/vless/encryption/kdf.rs:57-137 | the tree over n chunks is the tree over their bytes: a parent has the key, left then right, counter 0, length 64 and flag 4 |
| Blake3Reference.TreeIsReference | src/vless/encryption/kdf.rs:45-89 | for every mode and input the hash is the reference hash, with flag 8 on the root only |
| Blake3Reference.NodeFlags | src/vless/encryption/kdf.rs:107-136 | of the flags 1, 2, 4 and 8 a chunk carries 2, and 1 if it is one block, a parent carries 4, and no node carries 8 |
| Blake3Reference.OneBlock | src/vless/encryption/kdf.rs:45-124 | an input of at most 64 bytes is one compression of its padded words with flags 1, 2 and 8 |
| Blake3Reference.StartValues | src/vless/encryption/kdf.rs:3-5 | the start values are the first 32 bits behind the point of the square roots of the first eight primes |
| Blake3Reference.DerivationIsReference | src/vless/encryption/kdf.rs:51-55 | the derivation hashes the context under flag 32 and then the material under flag 64 with that key |
| RecordCipher.IncrementNonce | src/vless/encryption/record.rs:184-191 | the in-place loop computes the counter step on the array |
| RecordCipher.IncrementIsPlusOne | src/vless/encryption/record.rs:184-191 | the counter step is +1 modulo 256^n on the big-endian value |
| RecordCipher.MaxNonceValue | src/vless/encryption/record.rs:121-155 | the value from which a re-key follows is the one with all bytes 255 |
| RecordCipher.HeaderCanonical | src/vless/encryption/record.rs:167-182 | a header that decodes is the encoding of what it decodes to |
| RecordCipher.SealableExactly | src/vless/encryption/record.rs:121-136 | exactly the plaintexts of 1 to 8192 bytes seal; a refusal changes no state |
| RecordCipher.RecordState.constructor | src/vless/encryption/record.rs:110-119 | a new state has the derived key and the zero nonce |
| RecordCipher.RecordState.SealRecord | src/vless/encryption/record.rs:121-136 | sealing in place is the value-level seal, result and new state |
| RecordCipher.RecordState.OpenRecord | src/vless/encryption/record.rs:138-155 | opening in place is the value-level open, result and new state, errors included |
| RecordCipher.LockStep | src/vless/encryption/record.rs:121-155 | opening a sealed record gives the plaintext and leaves both sides in equal states, re-key or not |
| RecordCipher.LockStepForever | src/vless/encryption/record.rs:121-155 | any list of records opened in the order they were sealed gives every plaintext and ends in equal states, across re-keys |
| RecordCipher.UsesAreStamped | src/vless/encryption/record.rs:121-136 | over any run the i-th record has epoch and nonce i + 1 steps after the start, counted across re-keys |
| RecordCipher.SealedWithUses | src/vless/encryption/record.rs:121-136 | the i-th record on the wire is sealed with the key and nonce of the i-th use |
| RecordCipher.KeysFollowEpochs | src/vless/encryption/record.rs:121-136 | within an epoch the key stays; the next epoch's key is derived from the last record sealed in the old one |
| RecordCipher.NonceNeverReused | src/vless/encryption/record.rs:121-136 | over any run, two records of one epoch are sealed under one key with different nonces |
| RecordCipher.KeyKept | src/vless/encryption/record.rs:121-136 | the key is kept for as long as the counter has not run through |
| RecordCipher.KeyReplaced | src/vless/encryption/record.rs:121-136 | the record sealed from the largest nonce goes out under the old key with nonce zero, and the new key is derived from it |
| RecordCipher.RecordLayout | src/vless/encryption/record.rs:121-136 | a record is 23, 3, 3, the length in two bytes and what the cipher gives for the next nonce with that header as associated data |
| RecordCipher.OpensExactly | src/vless/encryption/record.rs:138-155 | exactly which records open; a refused one never changes the key, and costs a nonce only if it reached the cipher |
| HeaderXor.XorSplit | src/vless/encryption/xor.rs:36-64 | transforming a + b is transforming a and then b, from any state, failed ones included |
| HeaderXor.InboundUndoesOutbound | src/vless/encryption/xor.rs:36-64 | inbound undoes outbound on every byte string and ends at the same position |
| HeaderXor.OnlyHeadersChange | src/vless/encryption/xor.rs:36-64 | on a stream of whole records only the five header bytes of each are masked; bodies are unchanged |
| HeaderXor.Transform.constructor | src/vless/encryption/xor.rs:17-34 | a new transform starts at key stream position 0 with the given bytes to skip |
| HeaderXor.Transform.ApplyKeyStream | src/vless/encryption/xor.rs:36-64 | masks exactly a stretch of the buffer and advances the key stream by its length |
| HeaderXor.Transform.ApplyHeader | src/vless/encryption/xor.rs:36-64 | the part of a header in the buffer is transformed byte for byte as specified, a bad header is an error |
| HeaderXor.Transform.Apply | src/vless/encryption/xor.rs:36-64 | the in-place loop equals the byte-wise transform on buffer and state, on errors too |
| EncryptedStream.ReadMore | src/vless/encryption/stream.rs:30-89 | reading a + x is reading a and continuing with what was left over; a failure is final |
| EncryptedStream.ReadPrefix | src/vless/encryption/stream.rs:30-89 | what was read of a wire so far is a prefix of what more of it gives |
| EncryptedStream.EncryptedReader.constructor | src/vless/encryption/stream.rs:17-28 | a new reader has handed out nothing and has the whole wire before it |
| EncryptedStream.EncryptedReader.Receive | src/vless/encryption/stream.rs:66-85 | bytes taken from the transport are unmasked and appended, keeping the reader's invariant |
| EncryptedStream.EncryptedReader.HandOut | src/vless/encryption/stream.rs:37-42 | hands out as much of the decrypted text as fits |
| EncryptedStream.EncryptedReader.OpenNext | src/vless/encryption/stream.rs:50-62 | opens the complete record at the front, or finds the wire bad |
| EncryptedStream.EncryptedReader.Fill | src/vless/encryption/stream.rs:64-85 | one transport read: a clean end, an end inside a record, a stall with everything received handed out, or more bytes |
| EncryptedStream.EncryptedReader.PollRead | src/vless/encryption/stream.rs:31-89 | data is the next part of the meaning of the wire; an empty read and an end-of-file error occur only when the wire is used up, the first exactly at a record boundary, the second exactly inside a record; decrypted text is handed out at once, and a stall or failure leaves nothing received unread |
| EncryptedStream.SendAllInStep | src/dispatcher.rs:419-439 | after a send a reader of the wire has read everything before it and its payload, with nothing left over, in the writer's state |
| EncryptedStream.ProtocolWriter.constructor | src/dispatcher.rs:408-417 | a new writer has sent nothing |
| EncryptedStream.ProtocolWriter.Send | src/dispatcher.rs:419-439 | the chunk loop sends the payload as the value-level sender does, an empty payload as nothing |
| EncryptedStream.ChunksOf8192 | src/dispatcher.rs:427-436 | a payload of up to 8192 bytes is one record, and of a longer one the first record carries exactly 8192 |
| EncryptedStream.OrderedStep | src/dispatcher.rs:419-439 | each step of concurrent sends keeps the wire equal to the payloads in lock order |
| EncryptedStream.SendAlone | src/dispatcher.rs:419-439 | a send nobody interrupts puts its whole payload on the line and frees the lock |
| EncryptedStream.SendTooLate | src/dispatcher.rs:419-439 | a send after the download has gone uses up a nonce, sends nothing and frees the lock |
| EncryptedStream.WireMeansPayloads | src/dispatcher.rs:419-439 | in every interleaving every prefix of the wire reads without error as a prefix of the payloads in lock order; the whole wire of an open line as all of them |
| EncryptedStream.ReadStream | src/vless/encryption/stream.rs:31-89 | any sequence of non-empty buffers on any prefix of the wire of any interleaving yields the payloads in lock order and never invalid data; a clean end comes exactly where these bytes end at a record boundary, an end-of-file error exactly inside a record; over a steady transport with enough buffers one of the two is reached |
| Reorder.TakeNextSound | src/session/reorder.rs:161-186 | taking out a pending packet underflows neither counter |
| Reorder.DrainSettles | src/session/reorder.rs:161-186 | after a drain every pending packet is strictly ahead |
| Reorder.PushSettles | src/session/reorder.rs:124-187 | every push outcome keeps pending strictly above the next number and the counters and bounds |
| Reorder.CountersOverRuns | src/session/reorder.rs:124-202 | over every run of pushes and closes the counters cover the pending map; without a close they are exact and within the limits |
| Reorder.StepFaithful | src/session/reorder.rs:124-187 | a push on an open sink keeps the stream equal to the accepted payloads, and accepts no number twice |
| Reorder.DeliversInOrder | src/session/reorder.rs:124-187 | for every arrival order the stream is the concatenation of the accepted payloads up to the first number not accepted |
| Reorder.SameAcceptedSameStream | src/session/reorder.rs:124-187 | the stream depends only on what was accepted |
| Reorder.AcceptedIsPackets | src/session/reorder.rs:124-187 | if every packet is accepted, the accepted map holds exactly the packets |
| Reorder.ArrivalOrderDoesNotMatter | src/session/reorder.rs:124-187 | two fully accepted orders of the same packets deliver the same stream |
| Reorder.PushOutcome | src/session/reorder.rs:124-187 | the outcome of every push on an open sink, from what was accepted before: duplicate, too many, too many bytes, no budget, or accepted, each exactly |
| Reorder.PushClosed | src/session/reorder.rs:124-187 | on a closed sink nothing is sent and the next packet with data is answered Closed |
| Reorder.EmptyCounts | src/session/reorder.rs:161-226 | a packet without data is counted even on a closed sink |
| Reorder.ClosedForever | src/session/reorder.rs:190-202 | after a close, or with the reader gone, no later event sends anything |
| Reorder.CloseDropsPending | src/session/reorder.rs:190-202 | a close drops what is pending and the sender, and nothing else |
| Reorder.RoomAccepts | src/session/reorder.rs:124-187 | with room for all of them, packets with new numbers are accepted in any order |
| Reorder.AnyOrderDelivers | src/session/reorder.rs:124-187 | with room for n packets, every arrival order of packets 0 to n - 1 is fully accepted and sends their payloads in order |
| Reorder.Uplink.constructor | src/session/reorder.rs:97-118 | a new channel is empty; a packet limit of zero counts as one |
| Reorder.Uplink.PollRead | src/session/reorder.rs:228-252 | bytes read, current chunk and channel together stay what was sent; an empty read into a buffer means closed and used up |
| Reorder.Uplink.AwaitCapacity | src/session/reorder.rs:221-226 | the channel never holds more than its depth; a send waits until a read has made room or the reader is gone |
| Reorder.Uplink.SendInOrder | src/session/reorder.rs:221-226 | appends to the stream, skipping empty payloads, however often the reader reads meanwhile |
| Reorder.Uplink.DeliverNext | src/session/reorder.rs:161-186 | one turn of the drain loop is one unfolding of the value-level drain |
| Reorder.Uplink.AdvanceAndDrain | src/session/reorder.rs:161-186 | counting and draining in place is the value-level drain; the number does not wrap at 2^64 - 1 |
| Reorder.Uplink.Close | src/session/reorder.rs:190-202 | drops the sender and what is pending, not the counters; does nothing while a push holds the lock |
| Reorder.Uplink.PushPacket | src/session/reorder.rs:124-187 | a push in place is the value-level push in state and outcome; if the reader is dropped meanwhile the answer is Closed and part of what that push sends was sent |
| Reorder.Uplink.Refill | src/session/reorder.rs:228-252 | taking the next chunk out of the channel changes nothing of what is still to be read |
| Reorder.UseUplink | src/session/reorder.rs:97-252 | over any list of pushes and reads, bytes read, current chunk and channel are the accepted payloads in order, up to the first number not accepted |
| Budget.TotalStep | src/buffer.rs:41-87 | what each atomic step does to the counter and to the sum of live reservations |
| Budget.ReserveAlone | src/buffer.rs:41-66 | a reservation is granted exactly if it fits the limit or there is none, adds exactly its bytes, and is else refused without a trace |
| Budget.RetryAlone | src/buffer.rs:41-66 | a failed compare-and-swap has only read the counter again |
| Budget.PacketGoesThrough | src/session/reorder.rs:212-252 | a reservation goes with its packet from push to channel to reader, and dropping it gives back what was reserved |
| Budget.PendingGoesOn | src/session/reorder.rs:161-226 | a pending packet is taken up with its reservation, and a lost send gives it back |
| Budget.UsedIsSumOfLive | src/buffer.rs:41-87 | in every interleaving with 0 < limit < 2^64 - 1 the counter is the sum of live reservations and within the limit |
| Budget.ThreeReservationsLoseBytes | src/buffer.rs:41-66 | with limit 0 or 2^64 - 1 three payloads of the longest possible size make the counter less than their sum |
| Budget.ConservedExactly | src/buffer.rs:41-87 | conservation over all runs holds exactly for limits strictly between 0 and 2^64 - 1 |
| Budget.UnlimitedIsModular | src/buffer.rs:41-87 | without a limit the counter is the sum of live reservations modulo 2^64 in every run |
| SessionTable.LockedStep | src/session/mod.rs:164-190 | whoever is past a shard lock owns it, at every step |
| SessionTable.LookedStep | src/session/mod.rs:200-239 | what an upsert found in the map stays true until it inserts and counts |
| SessionTable.ActiveCountsSessions | src/session/mod.rs:164-239 | in every interleaving the counter is never negative, is positive before each subtraction, and equals the map size when nothing is half done |
| SessionTable.PassedPerShard | src/session/mod.rs:200-239 | at most one upsert per shard is between its check of the limit and its count |
| SessionTable.LimitWithin | src/session/mod.rs:200-239 | with at most k such upserts at a time the limit is exceeded by less than k |
| SessionTable.LimitOverrun | src/session/mod.rs:200-239 | in every interleaving counter plus inserts in flight stay within the limit plus shards less one, and within the limit if upserts pass one at a time |
| SessionTable.LimitHoldsExactly | src/session/mod.rs:200-239 | the counter never exceeds the limit in any run if and only if the limit is zero or all ids share one shard |
| SessionTable.LimitOverrunHappens | src/session/mod.rs:200-239 | with two shards and a limit of one the limit is exceeded in some run |
| SessionTable.SessionInvStep | src/session/mod.rs:141-285 | every step keeps what tasks know of their sessions, one reader per session, and a task to abort every timer that should not sleep |
| SessionTable.OpenedExactlyOnce | src/session/mod.rs:141-158 | in every interleaving the first request for a session's reader gets it, and no other |
| SessionTable.GraceTimerSettled | src/session/mod.rs:254-284 | once the creating upsert and a concurrent open or remove are past cancelling, the timer of a connected or removed session does not sleep |
| SessionTable.ReaperSparesOpened | src/session/mod.rs:254-284 | a session whose download opened before its reaper's check is never reaped afterwards |
| SessionTable.ReaperRemovesOnlyItsOwn | src/session/mod.rs:164-190 | a reaper takes only the incarnation it was started for out of the map |
| SessionOperations.UpsertFinds | src/session/mod.rs:200-213 | an upsert that finds its id changes nothing |
| SessionOperations.UpsertRefused | src/session/mod.rs:200-216 | an upsert into a full table changes nothing |
| SessionOperations.UpsertCreates | src/session/mod.rs:200-250 | an upsert of an absent id inserts and counts one new session |
| SessionOperations.PushCreates | src/session/mod.rs:200-285 | for an uplink the new session is not connected, its timer sleeps and its handle is stored |
| SessionOperations.TimerGivenUp | src/session/mod.rs:270-284 | an upsert that finds its session opened or removed meanwhile aborts its timer and clears the handle |
| SessionOperations.OpenFinds | src/session/mod.rs:141-158 | opening marks the session connected, aborts its sleeping timer and takes its reader, if it is there |
| SessionOperations.OpenCreates | src/session/mod.rs:141-158 | opening an absent session makes it, connected, without a timer, its reader taken |
| SessionOperations.RemoveFindsNothing | src/session/mod.rs:164-190 | removing an absent id changes nothing |
| SessionOperations.RemoveTakes | src/session/mod.rs:164-190 | a removal takes the session out, aborts its timer, closes its uplink and counts it off |
| SessionOperations.ReaperSpares | src/session/mod.rs:254-284 | the reaper of a connected session leaves it in place |
| SessionOperations.ReaperTakes | src/session/mod.rs:254-284 | the reaper of a session without a download takes it out, closes it and counts it off |
| SessionOperations.ReaperFindsAnother | src/session/mod.rs:164-190 | a reaper whose session was replaced leaves the other in place |
| Vision.FeedSplit | src/vless/vision.rs:89-224 | feeding a + b is feeding a and then b |
| Vision.FeedFrame | src/vless/vision.rs:15-44 | a frame with any padding hands out its content; END and DIRECT switch to raw |
| Vision.PaddingRange | src/vless/vision.rs:27-33 | a short chunk of TLS is padded to 900 to 1399 bytes, any other by 0 to 255 within the frame, and every such length occurs |
| Vision.FrameLayout | src/vless/vision.rs:34-44 | a frame is the UUID if it is the first, the command, both lengths in two bytes, the content and zeros |
| Vision.FrameRefusedExactly | src/vless/vision.rs:15-26 | an unknown command and content over 8171 bytes are refused, exactly |
| Vision.EndChunk | src/vless/vision.rs:240-290 | a chunk is sent with END exactly if it is the eighth or later, or application data once TLS was seen |
| Vision.PaddingUntilEnd | src/vless/vision.rs:266-290 | the writer pads exactly until the first such chunk |
| Vision.VisionWriter.constructor | src/vless/vision.rs:257-264 | a new writer will send its UUID and pads |
| Vision.VisionWriter.NextFrame | src/vless/vision.rs:232-290 | one chunk is observed, gets its command and is framed, without error |
| Vision.VisionWriter.EncodeCall | src/vless/vision.rs:266-290 | a call never fails and is the value-level encoding; after END it passes data raw |
| Vision.FeedCall | src/vless/vision.rs:266-290 | a call is read back if its END chunk is its last; otherwise more is handed out than was written |
| Vision.RoundTripExactly | src/vless/vision.rs:89-290 | for all calls and paddings the reader returns exactly the data if and only if no call goes on after its END chunk |
| Vision.ShortCallsEndLast | src/vless/vision.rs:266-290 | calls of at most one chunk meet that condition |
| Vision.LongCallFails | src/vless/vision.rs:266-290 | a first call of two chunks that starts like TLS application data is not read back |
| Vision.VisionReader.constructor | src/vless/vision.rs:72-87 | a new reader has handed out nothing and has the whole wire before it |
| Vision.VisionReader.ReadPrefix | src/vless/vision.rs:89-224 | one read of the UUID prefix; a wrong UUID is invalid data, an early end an error |
| Vision.VisionReader.ReadHeader | src/vless/vision.rs:89-224 | one read of a frame header; a wire that ends here ends cleanly, an unknown command is invalid data |
| Vision.VisionReader.ReadContent | src/vless/vision.rs:89-224 | one read of content; an early end is an error |
| Vision.VisionReader.ReadPadding | src/vless/vision.rs:89-224 | one read of padding, which is dropped; an early end is an error |
| Vision.VisionReader.ReadRaw | src/vless/vision.rs:89-224 | in raw mode bytes are passed on unchanged |
| Vision.VisionReader.HandOut | src/vless/vision.rs:97-101 | hands out as much of the content as fits |
| Vision.VisionReader.ReadPart | src/vless/vision.rs:105-222 | one turn of the loop before raw mode: it reads, or moves on to the next part |
| Vision.VisionReader.PollRead | src/vless/vision.rs:90-224 | data is the next part of the meaning of the wire; how the wire may end in each state; content is handed out at once, and a stall or failure leaves none of it behind |
| Vision.ReadBack | src/vless/vision.rs:90-224 | any buffers on the wire of any calls that end last yield the data in order, never invalid data, and over a steady transport with enough buffers all of it |
| TlsRecord.ComputeNonce | src/tls/tls13/record.rs:112-119 | the loop computes the IV masked with the sequence number |
| TlsRecord.NoncesDiffer | src/tls/tls13/record.rs:112-119 | different sequence numbers give different nonces |
| TlsRecord.NonceHoldsNumber | src/tls/tls13/record.rs:112-119 | without the IV the last eight bytes of the nonce are the sequence number in network order; the first four are the IV's |
| Bytes.XorBitwise | src/tls/tls13/record.rs:112-119 | a bit of the exclusive-or is set exactly where the two bytes differ |
| TlsRecord.StripInner | src/tls/tls13/record.rs:172-196 | stripping zeros recovers type and text for every padding exactly if the type is not zero |
| TlsRecord.OpenUndoesSealRecord | src/tls/tls13/record.rs:137-196 | a record whose length fits 16 bits opens to its type and text for every padding exactly if the type is not zero, and both sides hold the same keys |
| TlsRecord.RecordLayout | src/tls/tls13/record.rs:137-163 | a record is 23, 3, 3, the length in two bytes and what the cipher gives for text, type and zeros |
| TlsRecord.NumberAdvances | src/tls/tls13/record.rs:137-163 | the sequence number goes up by one modulo 2^64 and nothing else changes |
| TlsRecord.OpensExactly | src/tls/tls13/record.rs:172-196 | exactly which records open and with what; the number advances exactly if the record authenticates |
| TlsRecord.StripExactly | src/tls/tls13/record.rs:187-195 | stripping fails on zeros only, and else splits the text as it was put together |
| TlsRecord.RecordKeys.constructor | src/tls/tls13/record.rs:104-110 | new keys start at sequence number 0 |
| TlsRecord.RecordKeys.SealWithPadding | src/tls/tls13/record.rs:125-163 | sealing is the value-level seal and advances the sequence number |
| TlsRecord.RecordKeys.OpenInPlace | src/tls/tls13/record.rs:172-196 | opening in place finds the type and the text inside the buffer as the value-level open does, failures included |
| TlsRecord.RecordKeys.StripInPlace | src/tls/tls13/record.rs:185-196 | the loop over the padding finds the type and the end of the text |
| TlsStream.ReadMore | src/tls/nginx_backend.rs:153-223 | reading a + x is reading a and continuing; after an alert or a failure nothing more is read |
| TlsStream.ReadPrefix | src/tls/nginx_backend.rs:153-223 | what was read so far is a prefix of what more bytes give |
| TlsStream.PeerReads | src/tls/nginx_backend.rs:132-259 | a peer reads exactly the data of the sealed records, and an end exactly if there is a close_notify |
| TlsStream.NumbersAdvance | src/tls/nginx_backend.rs:227-258 | each record is sealed with the next sequence number of one set of keys |
| TlsStream.NonceNeverReused | src/tls/nginx_backend.rs:227-258 | among fewer than 2^64 records of a connection no nonce is used twice |
| TlsStream.TlsWriter.constructor | src/tls/nginx_backend.rs:117-130 | a new stream has written nothing |
| TlsStream.TlsWriter.PollFlushPending | src/tls/nginx_backend.rs:133-149 | over short and stalled writes the wire stays a prefix of the sealed records; done means all of them |
| TlsStream.TlsWriter.PollWrite | src/tls/nginx_backend.rs:227-241 | accepts at most 16 KiB as one record once everything older is taken; accepted bytes are recorded once |
| TlsStream.TlsWriter.PollShutdown | src/tls/nginx_backend.rs:248-258 | adds at most one close_notify; done means it is on the wire |
| TlsStream.TlsWriter.PollFlush | src/tls/nginx_backend.rs:243-246 | done means every record is on the wire |
| TlsStream.TlsWriter.PeerSeesPrefix | src/tls/nginx_backend.rs:132-259 | at any moment a peer reads a prefix of the bytes accepted before the close_notify without error; once flushed all of them, and an end exactly if there is a close_notify; records written later stay behind it |
| TlsStream.TlsReader.constructor | src/tls/nginx_backend.rs:117-130 | a new reader has handed out nothing and has the whole wire before it |
| TlsStream.TlsReader.OpenNext | src/tls/nginx_backend.rs:153-223 | opens the record at the front: data continues, an alert ends, anything else fails |
| TlsStream.TlsReader.Fill | src/tls/nginx_backend.rs:153-223 | one transport read; an end is clean only with an empty buffer |
| TlsStream.TlsReader.PollRead | src/tls/nginx_backend.rs:153-223 | data is the next part of the meaning of the wire; an empty read is the close_notify or the end at a record boundary; after every poll the reader can be polled again, or stands behind the alert or bad record that stopped it |
| TlsStream.TlsReader.Resume | src/tls/nginx_backend.rs:153-223 | polls after an alert or a failure are those of a new reader of the rest of the wire |
| TlsStream.ReadPeer | src/tls/nginx_backend.rs:132-259 | any buffers on any prefix of the wire of any use of a writer yield a prefix of the bytes accepted before the close_notify, all of them at the end; a clean end comes only at the close_notify or a record boundary |
| Tickets.TimelyStep | src/vless/encryption/handshake.rs:203-221 | a ticket found by a handshake expires after the time its own cleanup read, at every step |
| Tickets.RememberedStep | src/vless/encryption/handshake.rs:203-221 | every accepted pair of a live ticket stays recorded, at every step |
| Tickets.GrantsAreFresh | src/vless/encryption/handshake.rs:203-293 | in every interleaving an accepted ticket expires later than the time read by that handshake's cleanup |
| Tickets.LookupOutcome | src/vless/encryption/handshake.rs:203-221 | with distinct ids, a handshake is answered expired, replayed or accepted, each exactly, from what was issued, swept and accepted before |
| Tickets.TimePasses | src/vless/encryption/handshake.rs:287-293 | time can pass by any amount at any moment |
| Tickets.AcceptedAtMostOnce | src/vless/encryption/handshake.rs:203-293 | in every interleaving in which no id is stored twice, a ticket and key are accepted at most once |
| Tickets.SpentTwice | src/vless/encryption/handshake.rs:203-293 | for every list of issues that stores an id twice there is a run that accepts one ticket and key twice |
| Tickets.NeverTwiceExactly | src/vless/encryption/handshake.rs:203-293 | no run with a given list of issues accepts a ticket and key twice, if and only if the ids issued with a non-zero lifetime are distinct |
| Tickets.ReissueAllowsReplay | src/vless/encryption/handshake.rs:263-285 | one id issued twice for a second each is such a list |
| ServerHello.FindServerKeyShare | src/tls/tls13/messages.rs:69-99 | the loop finds the key share as the recursive walk does, with the same misses and panics |
| ServerHello.WalkShift | src/tls/tls13/messages.rs:69-99 | moving the extensions moves what the walk finds by the same distance |
| ServerHello.WalkReadsBefore | src/tls/tls13/messages.rs:69-99 | the walk depends on nothing at or behind the share it finds |
| ServerHello.WalkStops | src/tls/tls13/messages.rs:81-98 | where the walk stops it misses, panics or finds, exactly by the bounds of the message and of the block |
| ServerHello.FieldsAt | src/tls/tls13/messages.rs:69-109 | where extensions and suite are behind the session id, and that shorter messages have none |
| ServerHello.GreaseExactly | src/tls/client_hello.rs:230-232 | the reserved values are the sixteen of section 2 of RFC 8701 |
| ServerHello.RewriteRandomAndSessionId | src/tls/tls13/flight.rs:180-216 | the in-place patching builds the value-level rewrite |
| ServerHello.RewriteShifts | src/tls/tls13/flight.rs:180-216 | new random, session id and length; everything behind moves as one piece |
| ServerHello.FoundAgain | src/tls/tls13/flight.rs:180-216 | the key share is found again, moved by the change of the session id's length, and the suite is the same |
| ServerHello.OverwriteKeepsLookup | src/tls/tls13/flight.rs:64-108 | overwriting the share changes neither where it is found nor the suite |
| ServerHello.HelloExactly | src/tls/tls13/flight.rs:64-108 | a hello is made exactly for acceptable arguments; a well-formed template never panics |
| ServerHello.RefusedExactly | src/tls/tls13/flight.rs:64-108 | which refusal, or panic, each template and client gets |
| ServerHello.HelloContents | src/tls/tls13/flight.rs:64-108 | the hello echoes random and session id, holds the new share where it is found, keeps suite, group and every other byte |
| ServerHello.HelloLength | src/tls/tls13/flight.rs:180-216 | the 24-bit length is right exactly if the message is shorter than 16 MiB |
| ServerHello.TemplateIsWellFormed | src/tls/nginx_backend.rs:314-342 | the backend's template is well formed for every suite and group, with its share at offset 58 |
| ClientHello.RecordBuffer.constructor | src/tls/client_hello.rs:55-60 | a new buffer is empty |
| ClientHello.RecordBuffer.AppendRecord | src/tls/client_hello.rs:62-106 | appending is the value-level append, buffer and result, all errors included |
| ClientHello.AnySplitReassembles | src/tls/client_hello.rs:62-106 | a record that leaves the message incomplete gives nothing; the one that completes it gives exactly the message |
| ClientHello.SplitRunReassembles | src/tls/client_hello.rs:62-106 | any split of a message into records gives nothing for each record before the last and then the message |
| ClientHello.TakenExactly | src/tls/client_hello.rs:62-84 | a record is taken exactly if it is a whole handshake record that fits, and the payload stays within its limit |
| ClientHello.RecordRefused | src/tls/client_hello.rs:62-84 | which refusal each other record gets |
| ClientHello.MessageExactly | src/tls/client_hello.rs:86-106 | the payload is given back exactly if it is a complete hello within the limit, and what it gets otherwise |
| HelloParser.Cursor.constructor | src/tls/client_hello.rs:354-356 | a new cursor has everything left to read |
| HelloParser.Cursor.Take | src/tls/client_hello.rs:362-367 | takes exactly n bytes, or none and stays; always in bounds |
| HelloParser.Cursor.U16Next | src/tls/client_hello.rs:373-376 | the big-endian value of the next two bytes |
| HelloParser.ParseKeyShares | src/tls/client_hello.rs:334-346 | the loop gives the shares of the list, after those of earlier extensions |
| HelloParser.ParseSni | src/tls/client_hello.rs:275-289 | the loop gives the first host name, if it is valid |
| HelloParser.ParseSupportedVersions | src/tls/client_hello.rs:291-308 | the loop tells whether TLS 1.3 is in the list |
| HelloParser.ParseAlpn | src/tls/client_hello.rs:310-332 | the loop gives the valid names up to the first broken one |
| HelloParser.ParseSignatureSchemes | src/tls/client_hello.rs:259-273 | an odd length or bytes behind the list are malformed, otherwise the schemes |
| HelloParser.ParseExtensions | src/tls/client_hello.rs:234-257 | the loop gives what the extensions say in order, or the first error |
| HelloParser.ParseMessage | src/tls/client_hello.rs:144-208 | on every byte string parsing ends with the meaning of the message or its error |
| HelloParser.ExtBack | src/tls/client_hello.rs:234-346 | every encoded extension parses to what it says |
| HelloParser.HostsBack | src/tls/client_hello.rs:275-289 | of any list of names of any types the parser finds the first host name, if it is valid |
| HelloParser.ExtsBack | src/tls/client_hello.rs:234-257 | every list of extensions, repeated and unknown ones included, parses to what they say in order |
| HelloParser.HelloRoundTrip | src/tls/client_hello.rs:144-208 | every ClientHello in the wire form of section 4.1.2 of RFC 8446 parses to its fields |
| HelloParser.AcceptedIsLaidOut | src/tls/client_hello.rs:144-257 | every message that is accepted, from any bytes, is laid out that way with the fields found: nothing missing, left over or of the wrong length |
| HelloParser.SchemesExactly | src/tls/client_hello.rs:259-273 | a scheme list is accepted exactly if it fills its extension and is even; which refusal it gets otherwise |
| HelloParser.RefusedExactly | src/tls/client_hello.rs:144-152 | the refusals that come before the fields |
| HelloParser.HeadRefused | src/tls/client_hello.rs:154-160 | a message that ends before its session id does is truncated |
| HelloParser.SuitesRefused | src/tls/client_hello.rs:162-166 | an odd suite length is malformed, a list cut off is truncated |
| HelloParser.TailRefused | src/tls/client_hello.rs:172-195 | compression or extensions cut off are truncated, an extension's refusal is passed on, and anything behind is malformed |
| HelloParser.CutIsRefused | src/tls/client_hello.rs:144-152 | a message cut short anywhere is refused |
| HelloParser.BrokenListsSayNothing | src/tls/client_hello.rs:275-340 | an extension without a whole list says nothing, and one of key shares is refused |
| HelloParser.NamesThenJunk | src/tls/client_hello.rs:310-332 | protocols before a broken one are seen, those behind it are not |
| HelloParser.HostsThenJunk | src/tls/client_hello.rs:275-289 | a host name before a broken entry is found |
| HelloParser.VersionsThenJunk | src/tls/client_hello.rs:291-308 | a single byte behind the versions changes nothing |
| HelloParser.TailIgnored | src/tls/client_hello.rs:275-346 | what stands behind the list of an extension is not looked at |
| Address.Reader.constructor | src/vless/header.rs:132-164 | a new reader has all its data left |
| Address.Reader.ReadExact | src/vless/header.rs:132-164 | takes exactly n bytes or reports the end |
| Address.Reader.ReadAddressPort | src/vless/header.rs:132-164 | for every input the streaming parser agrees with the slice parser on value, bytes used and error |
| Address.Reader.ReadDomain | src/vless/header.rs:132-164 | the domain part, with its four kinds of error |
| Address.AddressRoundTrip | src/vless/address.rs:44-110 | what is written is read back, whatever follows, exactly if a name has 1 to 255 bytes |
| Address.ParsedIsWritten | src/vless/address.rs:44-110 | whatever is parsed, from any bytes, is what the bytes used were written from |
| Address.CutIsUnderrun | src/vless/address.rs:44-90 | an address cut short anywhere is an underrun |
| Address.NameWritten | src/vless/address.rs:92-110 | a written name of 1 to 255 bytes stands on the wire as the parser looks for it, whatever follows |
| Address.RefusedExactly | src/vless/address.rs:44-90 | an unknown type, an empty name and a name that is not UTF-8 are refused as such, exactly |
| Xudp.ReadFrame | src/xudp.rs:32-83 | the streaming reader is the value-level decoder on every input: frame and rest, or error |
| Xudp.MetadataRoundTrip | src/xudp.rs:32-113 | the metadata of a well-formed frame fits and parses back |
| Xudp.DecodedIsWellFormed | src/xudp.rs:32-83 | whatever is decoded from any bytes is well formed |
| Xudp.FrameRoundTripExactly | src/xudp.rs:32-113 | exactly the well-formed frames are encoded and read back, leaving what follows |
| Xudp.ListRoundTrip | src/xudp.rs:32-113 | every list of well-formed frames is read back from the concatenation with nothing left over |
| Xudp.DecodeUsesUp | src/xudp.rs:32-83 | a decoded frame uses up its metadata block and, with the DATA bit, its payload block, and nothing more |
| Xudp.CutIsIo | src/xudp.rs:32-83 | a frame cut short anywhere is an input error |
| Xudp.LengthRefusedExactly | src/xudp.rs:33-36 | a metadata length outside 4 to 512 is refused, exactly |
| Xudp.MetadataRefusedExactly | src/xudp.rs:39-65 | a bad status, network or address is refused as such, exactly, and where the fields are |
| Xudp.EncodeRefusedExactly | src/xudp.rs:99-104 | metadata over 512 bytes and a payload over 65535 are refused, exactly |
| Addons.WriteVarint | src/vless/addons.rs:114-126 | the loop writes the recursive varint |
| Addons.ReadVarint | src/vless/addons.rs:98-112 | the loop reads as the recursive reader does, failing past 64 bits and at the end |
| Addons.VarintRoundTrip | src/vless/addons.rs:98-126 | reading undoes writing for every 64-bit number, whatever follows |
| Addons.ReadField | src/vless/addons.rs:34-67 | one turn of the loop: an error, a skipped field whose length is added modulo 2^64, or the data of a field |
| Addons.FieldSkipped | src/vless/addons.rs:58-65 | a number field, and a field of unknown tag, is skipped by its length modulo 2^64 |
| Addons.FieldKept | src/vless/addons.rs:40-56 | a flow or seed is kept if it is there and valid; how it is refused otherwise |
| Addons.BadWireExactly | src/vless/addons.rs:40-67 | the wire is bad exactly for another wire type or an unreadable varint |
| Addons.ReadableFrom | src/vless/addons.rs:98-112 | a varint can be read exactly if one of the first ten bytes ends it, and it ends at the first |
| Addons.DecodeBody | src/vless/addons.rs:31-70 | any number of turns of the loop leave it at the position and message, or with the result, that the turns give one by one |
| Addons.EndsExactly | src/vless/addons.rs:31-70 | decoding ends if and only if no position is reached twice, and then within one turn per byte and one more |
| Addons.NoWrapEnds | src/vless/addons.rs:31-70 | if no skipped length takes the position beyond 64 bits, decoding ends |
| Addons.EndlessBody | src/vless/addons.rs:62-65 | on eleven bytes, a field to be skipped of length 2^64 - 11, decoding never ends |
| Addons.AddonsRoundTrip | src/vless/addons.rs:31-96 | a message that can be written is read back exactly if it is empty or has the Vision flow |
| Addons.WritableExactly | src/vless/addons.rs:74-96 | a message is too long exactly if it has the Vision flow and a seed of more than 234 bytes |
| Acme.GoodStep | src/acme.rs:434-480 | every filesystem step, failure or stop keeps `current` on a complete, checked pair |
| Acme.CurrentAlwaysResolves | src/acme.rs:434-528 | over every run of publications stopped anywhere, `current` goes on naming one complete pair, never a mixed one |
| Acme.SweepSparesTwo | src/acme.rs:503-528 | a removal never touches the new generation nor the one that was read as current before |
| Acme.OldSurvivesExactly | src/acme.rs:459-473 | after a switch the generation it replaced is sure to survive this publication if and only if the link could be read, or there was none |
| Acme.OldGenerationLost | src/acme.rs:459-528 | from every idle state: if only the reading of the link fails, the sweep can delete the generation that was current |
| Acme.SwitchPublishes | src/acme.rs:434-480 | the switch makes the new checked pair current in one step and leaves the old generation complete |
| Acme.PublishSucceeds | src/acme.rs:434-480 | with no failure the pair becomes current, the old generation is known as the previous one, and nothing else has changed |
| Acme.SweepRemoves | src/acme.rs:503-528 | the sweep can remove every generation but the new and the previous one |
| Acme.BadPairLeavesNothing | src/acme.rs:434-480 | a pair that does not pass the check leaves everything as it was |
| Acme.FailureLeaves | src/acme.rs:434-480 | what each failing call leaves |
| Acme.NameTaken | src/acme.rs:434-470 | a taken directory or link name ends the publication without touching anything |
| Acme.StopLeavesPart | src/acme.rs:483-494 | a process that stops leaves the files as they are, one being written up to where it was |

## Left out

- AES-GCM, ChaCha20-Poly1305, AES-CTR, the BLAKE3 compression function, X25519, ML-KEM, HKDF and signatures: parameters or not part of this model.
- The session table, the byte budget, the ticket table and the certificate publication are machines on values, one transition per atomic access or filesystem call, rather than objects: the object form has no interleaving.
- Weak memory: `Ordering::Relaxed` and `Ordering::Release` count as sequentially consistent.
- A push or send whose future is dropped at its await: a packet already taken out of `pending` would be lost.
- Reorder.Uplink.Close: the `try_lock` of the source is the flag `lockFree`.
- EncryptedStream.EncryptedReader.PollRead: says nothing of polls after an error.
- Vision.VisionReader.PollRead: a wire that ends inside a frame header counts as a clean end, as in the source; says nothing of polls after an error.
- TlsRecord.RecordKeys.OpenInPlace: assumes that a decryption is as long as its ciphertext, as in-place decryption is.
- ServerHello.HelloContents: nothing about the panic that an extension length beyond the message causes, except that well-formed templates exclude it.
- HelloParser.HelloRoundTrip: the raw copy of the message kept beside the fields is not modelled.
- Acme.CurrentAlwaysResolves: a stop of the process, not a loss of power; a completed call stays done.
- Tickets: the handshake around the table, its decoy replies and its timing.
- Real time, beyond a clock that does not go back; the grace period is an arbitrary moment.
- The plain datagram codec, the VLESS request header around the address, the response header and the user lookup: easy members.
- HTTP routing, sockets, DNS, UDP relaying, configuration, metrics, logging, management, site content, the key schedule and certificates.
