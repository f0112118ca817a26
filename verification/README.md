# Verified model of the P2PShare transfer core

A Dafny 4.11 model of how P2PShare moves files, and proofs of what it promises about them. Run
`dafny verify dfyconfig.toml` to check everything.

Five pieces are modelled, each in the form its source has: classes and loops where the source updates
state in place, functions where it computes, state machines where several parties interleave.

**The v3 block transfer** (`transport-core/src/lib.rs`, `publication.rs`).
`Manifest.dfy` has the block geometry, validation, the hashing loop that builds a manifest, and the size
of its JSON text. `Publication.dfy` is the directory as a map from names to inodes with both publication
variants. `Receiver.dfy` is one receive attempt as a method on that directory. `Attempts.dfy` is any
number of attempts on one directory, interleaved system call by system call, each of which may stop at any
point (an error, a lost peer, a dead process), also in the middle of a block write; `Recovery.dfy` shows
that a stopped attempt leaves its lock free and that a new attempt can then always be carried through.
`ManifestText.dfy` shows that the text of an offer determines it. `Sender.dfy` is the serial sender and the
bounded producer/consumer pipeline, `Frames.dfy` the length-prefixed frames, `Sending.dfy` the whole of
sending one file to a peer that may answer anything. `Session.dfy` composes sender and receiver over
two bounded byte streams with end-of-stream, where either side may die at any point and the receiver
consents by quota, lock, existing file and space; dropping a stream ends it, so the other side sees an early
end. `SessionOnDisk.dfy` shows that the session's receiver and the attempt on the directory are one receiver,
as `Recovery.MachineReceives` does for the method. A hash is any function from byte strings to 64 hexadecimal
digits. No injectivity is assumed of it: where a theorem needs the absence of collisions it says for which
contents (`Pinned`, `OfferPins`).

**Flow credit, repair and reassembly of v2.**
`AndroidTransfer.dfy` has the Kotlin Incoming and Outgoing objects, `AndroidFlow.dfy` the credit protocol
over a network that loses, reorders and duplicates packets, each accepted as the replay window decides;
the sender's credit check, sending and debit are separate steps. `DesktopCredit.dfy`, `DesktopRepair.dfy`,
`DesktopCache.dfy`, `DesktopGate.dfy` and `DesktopFlusher.dfy` are the desktop's counterparts, one stretch
of code between two awaits being one step; `DesktopFile.dfy` is the file written at chunk offsets.
`MixedRepair.dfy` lets each implementation answer the other's repair packets, and `DesktopDelivery.dfy` follows
a desktop file from the preload script's chunks to the receiver's disk.

**The encrypted packet and the anti-replay window** (`Packets.dfy`, `ReplayWindow.dfy`): packets with an
eight-byte counter under any cipher, and the sliding window of section 3.4.3 of RFC 4303 with 64
entries, in its three implementations on fixed-width or truncated words, each proved to decide as a plain
set of accepted counters does.

**The ticket codec** (`Crc16.dfy`, `Base32.dfy`, `ConnectionTicket.dfy`): the CRC-16 with polynomial 0x1021
and initial value 0xffff, the Base32 packer on a 32-bit accumulator that is never masked, and the ticket in
JavaScript and Kotlin.

**The preload re-chunker** (`Rechunker.dfy`).

`Common.dfy` holds sums, concatenations and intervals, `Endian.dfy` numbers as bytes, and `Bits.dfy` shifts,
masks and digit sequences of words, so that wrap-around and truncation are explicit.

What the proofs brought to light about the code as it stands:

- A resend from the cache and one from the spool differ when the caller cuts the file with another chunk
  size than was negotiated (1400 against up to 1432). `DesktopCache.HitsAgreeExactly` gives the exact
  condition for agreement.
- The desktop's credit never becomes negative exactly if no chunk exceeds 512 KiB
  (`DesktopCredit.OverdrawnExactly`). That limit is set by the first grant, which is not measured, after
  losses; every later grant leaves 1 MiB, and a chunk above that is overdrawn without any loss. The chunk
  sizes in use are far below both.
- On Android, lost chunks are not refunded before DONE: after 2995 lost full chunks the sender can only
  wait until it gives up (`AndroidFlow.LossStalls`). Without loss it never waits for long, and once DONE is out
  resends can always complete the transfer (`AndroidFlow.RepairCompletes`).
- `base32Encode` in JavaScript throws on the empty byte string, the Kotlin one returns the empty text.
- Both ticket decoders upper-case first, so that 'ı' reads as I and 'ß' as SS in both. A letter or digit
  whose upper case is outside ASCII is dropped by JavaScript and refused by Kotlin, and that is the only
  difference (`Base32.DecodersDiffer`).
- The desktop counts received numbers without comparing them with the chunk count. With the source's
  chunks a right count means the whole file exactly if no number was out of range
  (`DesktopFlusher.Incoming.MaybeFinalize`); a non-empty chunk out of range in place of a missing one makes
  it finish with another file when DONE brings no hash (`DesktopFlusher.FinishWithStray`). A hash in DONE
  excludes that.

## Model

| member | source | states |
|---|---|---|
| Manifests.Length | transport-core/src/lib.rs:66-68 | block lengths are positive, never underflow, are full except for the last, and the last ends exactly at the size |
| Manifests.BlocksTile | transport-core/src/lib.rs:66-68 | for every content the block lengths sum to the size and the blocks concatenate to the content |
| Manifests.Accounting | transport-core/src/lib.rs:170-177 | for every resume map, requested plus reused bytes are the file size |
| Manifests.ReadBlock | transport-core/src/lib.rs:71-76 | the front of the reused buffer becomes exactly the block, the rest stays |
| Manifests.HashBlocks | transport-core/src/lib.rs:103-111 | the loop hashes every block in order and feeds the whole file, once, to the whole-file state |
| Manifests.ManifestFile | transport-core/src/lib.rs:83-114 | succeeds exactly for regular files up to 256 GiB, and then the manifest validates and describes the file, so the final validation cannot fail |
| Manifests.DisplayNameValid | transport-core/src/lib.rs:91-96 | every file name is cut to a display name without control characters and of at most 240 UTF-8 bytes |
| Manifests.DisplayNameExactly | transport-core/src/lib.rs:91-96 | a control character anywhere in a file name makes no difference; of a name without any the first 60 characters stay, or all of them |
| Manifests.DigestAscii | transport-core/src/lib.rs:229-229 | a digest as UTF-8 is 64 bytes, each the code of its character |
| Manifests.FramesFit | transport-core/src/lib.rs:116-121 | the JSON text of every valid manifest fits the 24 MiB frame limit, and its resume map the 262144-byte one |
| ManifestText.TextTells | transport-core/src/lib.rs:166-166 | two valid manifests with the same JSON text in UTF-8 are equal: names with quotes and backslashes, numbers of any length and lists of digests are all told apart |
| ManifestText.OneDecoder | transport-core/src/lib.rs:259-259 | so one decoder yields every valid manifest from its own text, as the session assumes |
| Publication.NamesApart | transport-core/src/lib.rs:262-264 | the final, partial and lock names of all digests are pairwise distinct |
| Publication.VariantsAgree | transport-core/src/publication.rs:6-29 | hard link then unlink ends in the same directory as the no-replace rename, and both fail on the same directories |
| Publication.Directory.PublishRename | transport-core/src/publication.rs:6-23 | succeeds exactly when the destination is vacant and then moves the name; otherwise nothing changes; no content changes |
| Publication.Directory.PublishLink | transport-core/src/publication.rs:26-29 | the same contract for link and unlink |
| Receiver.Scan | transport-core/src/lib.rs:309-321 | the resume map is 0 exactly at the blocks that are complete in the partial file and have the offered digest |
| Receiver.ResumeExactly | transport-core/src/lib.rs:308-321 | for every partial file, a resumed transfer asks for a block exactly if the partial file does not have the source's bytes in its place |
| Receiver.Total | transport-core/src/lib.rs:322-327 | the loop sums the lengths of the blocks with one map value |
| Receiver.Collect | transport-core/src/lib.rs:343-356 | blocks are cut off the stream, checked before they are written, and spliced in at their offsets; on an error the file holds exactly the blocks verified so far |
| Receiver.FillAndPublish | transport-core/src/lib.rs:334-375 | published exactly when all blocks came, nothing came after them and the whole file has the digest; the file keeps what was verified otherwise |
| Receiver.Acknowledge | transport-core/src/lib.rs:277-295 | the completed path answers, with an empty request, exactly when the existing file has the size and digest, and succeeds exactly when the sender then sends nothing |
| Receiver.ReceiveFresh | transport-core/src/lib.rs:297-375 | exact outcome and directory of an attempt without a completed file, including special files and lack of space |
| Receiver.Receive | transport-core/src/lib.rs:252-376 | on every directory, also one left between link and unlink: a resume map is sent exactly when the offer is valid, within the quota and not locked and either the existing file verifies or the place is free and the missing blocks fit the space, and without one nothing received is lost; success means a regular file with the digest under the digest name; an existing completed file is never touched; names and contents outside the digest's three names stay; exact success condition on the completed path and exact outcome on the fresh one |
| Receiver.PayloadLength | transport-core/src/lib.rs:180-193 | an honest payload is as long as the requested blocks |
| Receiver.FillHonest | transport-core/src/lib.rs:343-356 | from any file that agrees on the unrequested blocks, the honest payload rebuilds exactly the source and nothing is left over |
| Receiver.ScanAgrees | transport-core/src/lib.rs:308-334 | after scan and set_len every unrequested block is the source block, whatever the partial file was |
| Receiver.UninterruptedAttempt | transport-core/src/lib.rs:296-370 | from every partial file, one attempt with an unchanged source rebuilds the source and is sent exactly the blocks that did not match at its scan |
| Receiver.HonestDelivery | transport-core/src/lib.rs:252-376 | a ready attempt with an honest sender publishes exactly the source |
| Attempts.KeptAlways | transport-core/src/lib.rs:258-375 | every action of an attempt keeps its own phase facts and touches only its digest's names and partial file |
| Attempts.LockShared | transport-core/src/lib.rs:265-274 | two attempts on one digest never hold the lock at the same time |
| Attempts.StepKeepsInv | transport-core/src/lib.rs:258-375 | the invariant of directory, locks and phases survives every event of every attempt: every holder has its lock, and every lock belongs to a live attempt that holds it |
| Attempts.PublishedStays | transport-core/src/lib.rs:277-295 | no event removes, replaces or changes a file under a digest name, also while the partial name still links to its inode |
| Attempts.PartTouchedByHolder | transport-core/src/lib.rs:265-274 | an event that makes, changes or removes a digest's partial file belongs to an attempt on that digest that holds its lock |
| Attempts.RunSafe | transport-core/src/lib.rs:258-375 | over every run with crashes at every step and arbitrary peers, a file under a digest name has that digest and never changes once it is there |
| Attempts.DirectorySafe | transport-core/src/lib.rs:258-375 | from any directory between runs, a sent receipt means the file is there with the offered digest and size |
| Attempts.BlocksVerified | transport-core/src/lib.rs:309-366 | from any directory between runs, in every interleaving: when an attempt has come to the whole-file check, every block of its partial file is in place and has its offered digest |
| Attempts.TornKeeps | transport-core/src/lib.rs:349-353 | a write torn at any bytes keeps every block that matched |
| Attempts.ResizeKeeps | transport-core/src/lib.rs:334-334 | cutting or extending the partial file keeps every block that matched |
| Attempts.ActKeepsBlock | transport-core/src/lib.rs:296-375 | no action of an attempt loses a block that was right, through set_len, torn writes and publication |
| Attempts.RunKeepsBlock | transport-core/src/lib.rs:296-375 | over every series of interrupted, concurrent attempts with one manifest, the set of matching blocks never shrinks |
| Recovery.ScanAll | transport-core/src/lib.rs:309-321 | the step-by-step scan of an attempt ends with exactly the resume map of the partial file |
| Recovery.FillAll | transport-core/src/lib.rs:343-356 | on every payload the step-by-step attempt can go exactly as far, and leave exactly the content, as cutting the payload does |
| Recovery.PublishAll | transport-core/src/lib.rs:357-375 | a file that is the source passes the whole-file check and gets the digest name, by renaming or by linking and unlinking, and the partial name is gone |
| Recovery.CarryThrough | transport-core/src/lib.rs:296-375 | from the lock on, any payload that is complete and right can be carried, by either way of publication, to the content it makes |
| Recovery.MachineReceives | transport-core/src/lib.rs:252-376 | whatever the sequential receiver publishes, a run of the step machine publishes from the same directory |
| Recovery.Recovers | transport-core/src/lib.rs:258-375 | from every reachable state of directory, locks and other attempts in which the digest is unpublished and no attempt on it is holding, a new attempt with an honest sender has a run that publishes exactly the source, by either way of publication, and sends the receipt |
| Recovery.Acknowledges | transport-core/src/lib.rs:274-295 | when the digest is published with the offered size and no attempt on it is holding, a new attempt has a run to the receipt that takes no payload and changes nothing but the lock file |
| Recovery.FreeExactly | transport-core/src/lib.rs:265-274 | in every reachable state the lock of a digest is free if and only if no attempt on the digest is between taking it and its end |
| Recovery.TryLockExactly | transport-core/src/lib.rs:270-270 | taking the lock succeeds if and only if no attempt on the digest holds it |
| Recovery.StopReleases | transport-core/src/lib.rs:271-274 | an attempt can stop at every step; that leaves all files as they are, frees its lock and changes no other digest's lock |
| Recovery.NextAttemptLocks | transport-core/src/lib.rs:265-274 | after every run in which all attempts on a digest have stopped or replied, or have not tried the lock yet, a new attempt can take the lock |
| Recovery.CrashThenRecover | transport-core/src/lib.rs:252-376 | from every reachable state, after all attempts on a digest stop where they are, a new attempt with an honest sender has a run that publishes exactly the source |
| Recovery.AnyTornWrite | transport-core/src/lib.rs:349-353 | a crash while a block is written can leave every mixture of its old and new bytes |
| Sender.Reread | transport-core/src/lib.rs:184-190 | a block is sent only with its length and the digest of the manifest |
| Sender.SendSerial | transport-core/src/lib.rs:178-194 | the serial loop writes exactly the bytes, reports exactly the error and counts exactly the payload of the serial specification |
| Sender.SerialLength | transport-core/src/lib.rs:178-194 | without an error exactly the requested lengths are sent |
| Sender.PushKeeps | transport-core/src/lib.rs:201-216 | queueing a block, or dropping the channel on an error, keeps the refinement |
| Sender.TakeKeeps | transport-core/src/lib.rs:217-224 | taking a block, an error or the end of the channel keeps the refinement |
| Sender.PipelineRefinesSerial | transport-core/src/lib.rs:195-225 | for every resume map, source and interleaving, the stream holds a prefix of the serial bytes; unless the connection is lost the end is the serial end with the same error; at most four blocks are held |
| Sender.FourHeld | transport-core/src/lib.rs:196-200 | the bound of four is reached: one block being sent, two queued and one waiting for the queue |
| Sender.FinalCheck | transport-core/src/lib.rs:224-224 | when the producer finishes normally the byte counts add up to the file size |
| Sender.NeverEndsEarly | transport-core/src/lib.rs:224-224 | the error "source pipeline ended early" cannot occur in any run |
| Sender.StepWorks | transport-core/src/lib.rs:195-225 | every step of either task uses up some of a finite amount of work |
| Sender.NeverStuck | transport-core/src/lib.rs:195-225 | unless both tasks are finished one of them can go on |
| Frames.FrameReading | transport-core/src/lib.rs:116-132 | reading a frame off a stream that starts with it takes exactly the frame and yields its bytes, however it is delivered |
| Frames.FrameLayout | transport-core/src/lib.rs:116-121 | a frame is the length in four bytes, the highest first, and the bytes |
| Frames.ReadFrame | transport-core/src/lib.rs:123-132 | yields the frame at the start of the stream and the rest, if there is a whole one within the limit, and nothing otherwise |
| Sending.SendFile | transport-core/src/lib.rs:157-239 | against every peer: success is reported if and only if the file can be offered, the answer starts with a framed map of one 0 or 1 for each block, every requested block is read unchanged and all else that comes back is the digest; then exactly offer and requested blocks were sent and the byte counts are right; without a proper map only the offer is sent |
| Session.SenderTurnKeeps | transport-core/src/lib.rs:163-238 | the sender's decisions keep the session invariant; the resume map that arrives is the one that was sent |
| Session.BlockTurnKeeps | transport-core/src/lib.rs:343-356 | writing or skipping a block keeps the correspondence of payload position and block index |
| Session.StepKeeps | transport-core/src/lib.rs:163-376 | the invariant survives every event of either side |
| Session.Agreement | transport-core/src/lib.rs:226-238 | in every interleaving, with deaths on both sides and on both paths, a sender that reports success has a receiver with a published file of the prehashed length and digest, which collisions apart is the prehashed file |
| Session.NoConsentNoTransfer | transport-core/src/lib.rs:261-333 | in every run, an offer over the quota, locked, without space for its missing blocks, or whose place is taken by a file of another size or digest is never answered by a byte, never published and never reported as sent |
| Session.ConsentExactly | transport-core/src/lib.rs:259-333 | when the whole offer is in, the receiver answers if and only if none of that is the case |
| Session.AnyOffer | transport-core/src/lib.rs:259-333 | of all framed offers the receiver answers exactly those of at most 24 MiB that decode to a valid manifest it does not refuse |
| Session.AnyMap | transport-core/src/lib.rs:167-169 | of all framed resume maps the sender takes exactly those with one entry for each block, each 0 or 1 |
| Session.AnyReceipt | transport-core/src/lib.rs:227-231 | of all that can come back after the map only the digest itself is taken for a receipt |
| Session.BuffersBounded | transport-core/src/lib.rs:157-376 | in every run neither stream ever holds more bytes than its buffer has room for |
| Session.CutAnywhere | transport-core/src/lib.rs:157-376 | either side can be cut off at every point; that ends its stream, and the other side and what was published stay |
| Session.NeverStuck | transport-core/src/lib.rs:163-376 | in every reachable state, with buffers of any positive size, some step is possible until both sides have finished |
| Session.StepProgresses | transport-core/src/lib.rs:163-376 | every event moves bytes or takes a decision |
| Session.RunsEnd | transport-core/src/lib.rs:163-376 | every run is finite, with a bound known from the setup |
| Session.PayloadCut | transport-core/src/lib.rs:180-193 | what is left of the payload at the start of a block is what the sender sends from that block on |
| Session.BlockArrives | transport-core/src/lib.rs:343-356 | a whole requested block inside the payload is the block the sender read for that index |
| Session.PayloadFits | transport-core/src/lib.rs:357-360 | the payload is never longer than what was requested |
| Session.CutRight | transport-core/src/lib.rs:343-360 | in every run, even with a source that changes, a block completely taken passes the digest check, and nothing is left on the stream when all blocks are in |
| Session.Success | transport-core/src/lib.rs:157-376 | with consent, an unchanged source, no collision and no death, every run that cannot go on ends with both sides successful and the receiver holding exactly the source, from any partial file and from the completed one |
| Session.HonestExists | transport-core/src/lib.rs:157-376 | the assumptions of Success can be met, for every source of one block, every partial file and one-byte buffers |
| SessionOnDisk.OfferOnDisk | transport-core/src/lib.rs:296-342 | an accepted offer is the attempt's opening, scan and set_len, and the answered map is that of the scan |
| SessionOnDisk.BlockOnDisk | transport-core/src/lib.rs:343-356 | a block's turn in the session is skipping it, or taking and writing it, on the directory |
| SessionOnDisk.EndOnDisk | transport-core/src/lib.rs:357-372 | the end of the session's payload is the second read and the publication |
| SessionOnDisk.ConfirmOnDisk | transport-core/src/lib.rs:373-375 | the receipt ends the attempt and leaves the directory alone |
| SessionOnDisk.ReadOnDisk | transport-core/src/lib.rs:347-347 | reading bytes off the stream leaves the directory as it is |
| SessionOnDisk.TurnOnDisk | transport-core/src/lib.rs:296-375 | every successful turn of the session's receiver on the partial-file path is a run of the attempt, and what the session publishes is what the directory holds under the digest |
| ReplayWindow.CryptoState.AcceptCounter | native-core/src/lib.rs:45-59 | the u64 version decides and records exactly as the set of accepted counters: nonzero, not accepted before, less than 64 behind |
| ReplayWindow.CryptoState.Open | native-core/src/lib.rs:104-122 | a packet opens exactly when it has the header, decrypts under its counter and the counter is accepted; otherwise the window is untouched |
| ReplayWindow.CryptoState.OpensExactly | native-core/src/lib.rs:104-122 | byte by byte: the header, the eight bytes c / 256^(7-i) mod 256 of any counter c from 1 to 2^64 - 1 and any ciphertext of at least 16 bytes carry that counter and open if and only if the ciphertext decrypts under c and c is fresh |
| ReplayWindow.CryptoState.Seal | native-core/src/lib.rs:82-101 | every sealed packet takes the next counter, also if the encryption fails; after 2^64 - 1 packets sealing fails and changes nothing |
| ReplayWindow.Channel | native-core/src/lib.rs:82-122 | over a channel that drops, repeats and reorders the packets of one direction, what is delivered opens to its own plaintext exactly when its counter is fresh then, and to nothing otherwise |
| Packets.PackedUnique | native-core/src/lib.rs:82-122 | a well-formed packet is the only one with its counter and ciphertext |
| Packets.NonceOnce | native-core/src/lib.rs:38-43 | no nonce serves two counters, nor both directions when their prefixes differ |
| ReplayWindow.BigIntWindow.Accept | electron/ReplayWindow.cjs:5-19 | the BigInt version, with explicit truncation to 64 bits, decides as the set does on every integer |
| ReplayWindow.BigIntWindow.Clear | electron/ReplayWindow.cjs:4-4 | nothing counts as accepted afterwards |
| ReplayWindow.ULongWindow.Accept | android/app/src/main/java/com/p2pshare/android/ReplayWindow.kt:10-25 | the ULong version decides as the set does on the unsigned reading of the counter |
| ReplayWindow.ThreeWindowsAgree | electron/ReplayWindow.cjs:5-19 | over every sequence of 64-bit counters the three versions give the same answers, those of the set |
| ReplayWindow.NeverTwice | native-core/src/lib.rs:45-59 | no counter is accepted twice, whatever comes between |
| ReplayWindow.DecisionsExactly | native-core/src/lib.rs:45-59 | over every sequence of calls: a counter is accepted if and only if it is in range, no call accepted before had it and none of those was 64 or more ahead |
| ReplayWindow.TooOldStaysRefused | native-core/src/lib.rs:53-54 | once a counter 64 or more ahead was accepted an older one is refused for good |
| ReplayWindow.Within | native-core/src/lib.rs:53-58 | a counter inside the window is decided by its bit, and setting the bit records exactly that counter |
| ReplayWindow.ShiftThenOr | native-core/src/lib.rs:49-49 | shifting a 64-bit word and setting bit 0 moves every bit by the shift and drops those beyond 64 |
| ReplayWindow.OrThenTruncate | electron/ReplayWindow.cjs:9-9 | the BigInt expression has the same bits |
| Crc16.ComputeCrc | electron/ConnectionTicket.cjs:8-15 | the loops compute the 16-bit register of the specification |
| Crc16.RegisterIsRun | electron/ConnectionTicket.cjs:8-15 | the byte-wise loop is the bit-serial register over the message bits |
| Crc16.StepExactly | electron/ConnectionTicket.cjs:8-15 | each bit is one step of long division by x^16 + x^12 + x^5 + 1 |
| Crc16.RunXor | electron/ConnectionTicket.cjs:8-15 | the register is linear in state and message |
| Crc16.CheckedIsZero | electron/ConnectionTicket.cjs:56-59 | a frame passes the check exactly when the register over the whole frame ends at zero |
| Crc16.BurstDetected | electron/ConnectionTicket.cjs:8-15 | two frames of any length that pass the check and differ only within 16 consecutive bits are equal |
| Base32.PackSymbols | electron/ConnectionTicket.cjs:17-23 | with an accumulator that wraps at 32 bits, the loops yield the five-bit digits of the byte string |
| Base32.Encode | electron/ConnectionTicket.cjs:17-25 | the grouped symbols of the digits; throws exactly on the empty byte string |
| Base32.GroupedExactly | electron/ConnectionTicket.cjs:24-24 | every fifth character of the printed text is a dash, none is last, and the others are the symbols in order |
| Base32.SymbolExactly | electron/ConnectionTicket.cjs:3-3 | the symbols are the ten digits and the capitals without I, L, O and U |
| Base32.EncodeKotlin | android/app/src/main/java/com/p2pshare/android/ConnectionTicket.kt:46-56 | the same text, and the empty text for no bytes |
| Base32.Decode | electron/ConnectionTicket.cjs:27-38 | for every text and upper-casing, the loop with the wrapping accumulator yields the specified bytes or error |
| Base32.DecodeKotlin | android/app/src/main/java/com/p2pshare/android/ConnectionTicket.kt:58-69 | the same for the Kotlin loop and its filter |
| Base32.DigitsRoundTrip | electron/ConnectionTicket.cjs:17-38 | decoding undoes encoding on digits, for byte strings of every length |
| Base32.TextRoundTrip | electron/ConnectionTicket.cjs:17-38 | decoding the printed, grouped text gives back the bytes, of every length |
| Base32.SpellingIrrelevant | electron/ConnectionTicket.cjs:4-5 | texts with the same canonical spelling decode alike: case, in all of Unicode, separators and the aliases O, I, L are free |
| Base32.OneRespelling | electron/ConnectionTicket.cjs:28-32 | replacing any part of a text by another spelling of it does not change the result |
| Base32.OneSeparator | electron/ConnectionTicket.cjs:28-28 | inserting a character whose upper case has no ASCII letter or digit does not change the result |
| Base32.OneCharacter | electron/ConnectionTicket.cjs:4-5 | the canonical spelling of every ASCII character, and of every character whose upper case is an ASCII letter or digit |
| Base32.DecodersAgree | android/app/src/main/java/com/p2pshare/android/ConnectionTicket.kt:58-69 | Kotlin refuses every text whose upper case has a letter or digit outside ASCII and decodes every other text as JavaScript does |
| Base32.DecodersDiffer | android/app/src/main/java/com/p2pshare/android/ConnectionTicket.kt:58-69 | the two results differ if and only if the upper-cased text has such a letter and JavaScript accepts it |
| ConnectionTicket.EncodeTicket | electron/ConnectionTicket.cjs:40-53 | succeeds exactly for four octets and a 16-bit port, with the printed frame of the payload |
| ConnectionTicket.WritePayload | electron/ConnectionTicket.cjs:43-49 | the buffer filled at offsets is flag, port if mapped, and ten secret bytes |
| ConnectionTicket.WriteFrame | electron/ConnectionTicket.cjs:50-51 | payload and big-endian checksum |
| ConnectionTicket.DecodeTicket | electron/ConnectionTicket.cjs:55-69 | the specified ticket or error for every text |
| ConnectionTicket.Parse | android/app/src/main/java/com/p2pshare/android/ConnectionTicket.kt:30-44 | accepts exactly what JavaScript accepts, with the same result, except texts whose upper case has a letter or digit outside ASCII, which it refuses |
| ConnectionTicket.TicketRoundTrip | electron/ConnectionTicket.cjs:40-69 | every address, port and secret survives the trip through the printed ticket |
| ConnectionTicket.OpenedExactly | electron/ConnectionTicket.cjs:60-69 | every payload of 15 or 17 bytes in a checked frame, whoever wrote it, is read as octets, port (45882 for the short form) and the last ten bytes, or refused for its flag |
| ConnectionTicket.BurstRefused | electron/ConnectionTicket.cjs:55-69 | damage within 16 consecutive bits of a valid ticket, payload or checksum, is refused or leaves the decoded bytes identical |
| ConnectionTicket.ThreeSymbolsRefused | electron/ConnectionTicket.cjs:27-69 | any replacement of up to three adjacent symbols is refused or leaves the ticket identical |
| AndroidTransfer.Account | android/app/src/main/java/com/p2pshare/android/DirectUdpTransport.kt:374-385 | a chunk is counted once; what is granted plus what is pending is what was pending plus the new bytes, and a grant takes all that is pending, exactly when 512 KiB are pending, the interval has passed or the file is complete |
| AndroidTransfer.Incoming.ReceiveChunk | android/app/src/main/java/com/p2pshare/android/DirectUdpTransport.kt:366-388 | bad lengths and numbers change nothing, a first arrival is stored and accounted, a duplicate changes nothing; the written prefix, the pending chunks and the byte counts stay right |
| AndroidTransfer.Incoming.DrainWrites | android/app/src/main/java/com/p2pshare/android/DirectUdpTransport.kt:411-419 | appends exactly the chunks that are next in order; file plus buffer is the in-order prefix |
| AndroidTransfer.Incoming.FlushWriteBuffer | android/app/src/main/java/com/p2pshare/android/DirectUdpTransport.kt:421-428 | the buffer is appended to the file and emptied |
| AndroidTransfer.Incoming.SendFlow | android/app/src/main/java/com/p2pshare/android/DirectUdpTransport.kt:401-409 | the pending bytes become the grant |
| AndroidTransfer.Incoming.FirstMissing | android/app/src/main/java/com/p2pshare/android/DirectUdpTransport.kt:435-445 | the first 128 chunks that have not arrived, in order; none before DONE |
| AndroidTransfer.RequestExactly | android/app/src/main/java/com/p2pshare/android/DirectUdpTransport.kt:435-445 | a chunk is asked for if and only if it is missing and fewer than 128 missing ones come before it |
| AndroidTransfer.Incoming.RequestMissing | android/app/src/main/java/com/p2pshare/android/DirectUdpTransport.kt:435-454 | that list is requested; when it is empty after DONE the file is finished, complete and in order |
| AndroidTransfer.Incoming.MaybeFinalize | android/app/src/main/java/com/p2pshare/android/DirectUdpTransport.kt:547-555 | finishes exactly when DONE came and every chunk is there, with all payloads in order on disk and nothing pending |
| AndroidTransfer.Outgoing.SendChunk | android/app/src/main/java/com/p2pshare/android/DirectUdpTransport.kt:521-529 | only a first send is debited |
| AndroidTransfer.Outgoing.ReceiveFlow | android/app/src/main/java/com/p2pshare/android/DirectUdpTransport.kt:456-468 | a negative grant counts as none |
| AndroidTransfer.Outgoing.Resend | android/app/src/main/java/com/p2pshare/android/DirectUdpTransport.kt:491-500 | a number in range is answered with its source slice, any other with nothing, without touching credit |
| AndroidTransfer.Outgoing.ReceiveRepair | android/app/src/main/java/com/p2pshare/android/DirectUdpTransport.kt:470-475 | at most the first 128 named numbers are answered; a short body stops the handler after what it holds |
| AndroidTransfer.Outgoing.ReceiveRepairRanges | android/app/src/main/java/com/p2pshare/android/DirectUdpTransport.kt:477-489 | at most 32 ranges and at most the first 128 numbers in them are answered, as RangesAnswered and RangesInOrder say without the expansion |
| AndroidTransfer.RangesAnswered | android/app/src/main/java/com/p2pshare/android/DirectUdpTransport.kt:477-489 | up to 128 numbers in all: a chunk number in range is answered exactly once per pair (start, end) with start <= n <= end, with the chunk's own data, and every answer is such a chunk |
| AndroidTransfer.RangesInOrder | android/app/src/main/java/com/p2pshare/android/DirectUdpTransport.kt:477-489 | for pairs within the file the answers are, one by one, the numbers of the first pair from start to end, then those of the second, and so on, cut off after 128 |
| AndroidTransfer.AnswersOften | android/app/src/main/java/com/p2pshare/android/DirectUdpTransport.kt:491-500 | every list of requested numbers is answered once for each time a number in range stands in it |
| AndroidTransfer.AnyOrder | android/app/src/main/java/com/p2pshare/android/DirectUdpTransport.kt:366-428 | for every arrival order with duplicates, once each chunk has come the in-order file is the source |
| AndroidTransfer.ArrivalsAgree | android/app/src/main/java/com/p2pshare/android/DirectUdpTransport.kt:366-378 | a chunk is there exactly if a packet carried it, and it is the source's |
| AndroidTransfer.RoundLowers | android/app/src/main/java/com/p2pshare/android/DirectUdpTransport.kt:435-500 | a loss-free round of request and resends lowers the number of missing chunks by min(128, missing) |
| AndroidTransfer.RoundsComplete | android/app/src/main/java/com/p2pshare/android/DirectUdpTransport.kt:435-500 | k rounds leave max(0, missing - 128 k); ceil(missing / 128) rounds complete the file with every chunk its source slice |
| AndroidFlow.StepKeeps | android/app/src/main/java/com/p2pshare/android/DirectUdpTransport.kt:366-409 | conservation of credit survives every step of sender, receiver and network |
| AndroidFlow.AcceptKeeps | android/app/src/main/java/com/p2pshare/android/DirectUdpTransport.kt:333-347 | accepting a packet takes its grant out of flight exactly once |
| AndroidFlow.CreditConserved | android/app/src/main/java/com/p2pshare/android/DirectUdpTransport.kt:521-545 | over every run with loss, reordering and duplication: 4 MiB is credit plus unreceived plus pending plus ungranted bytes; credit is never negative; first-send bytes exceed unique received bytes by at most 4 MiB; the exact condition under which the sender may go on |
| AndroidFlow.SentInOrder | android/app/src/main/java/com/p2pshare/android/DirectUdpTransport.kt:186-207 | over every run and every network: only chunks of the file are sent, DONE only after every chunk, the receiver knows an offer, a chunk or DONE only if it was sent, and a file is closed only after DONE with every chunk |
| AndroidFlow.DuplicateHarmless | android/app/src/main/java/com/p2pshare/android/DirectUdpTransport.kt:333-347 | a packet that arrives again changes nothing, in either direction and at any time |
| AndroidFlow.PromptExactly | android/app/src/main/java/com/p2pshare/android/DirectUdpTransport.kt:430-433 | an immediate acknowledgement is answered exactly for an open file, with all that is pending as one grant |
| AndroidFlow.NeverWaitsQuietly | android/app/src/main/java/com/p2pshare/android/DirectUdpTransport.kt:539-545 | with no loss and nothing in flight the sender has more than 3.5 MiB of credit and can send |
| AndroidFlow.Completes | android/app/src/main/java/com/p2pshare/android/DirectUdpTransport.kt:186-207 | every file has a loss-free run in which the sender finishes and the receiver closes the file with every chunk |
| AndroidFlow.RepairCompletes | android/app/src/main/java/com/p2pshare/android/DirectUdpTransport.kt:435-500 | from every reachable state with DONE sent and an offer received, whatever was lost, there is a run of resends that closes the file with every chunk |
| AndroidFlow.LossStalls | android/app/src/main/java/com/p2pshare/android/DirectUdpTransport.kt:539-545 | a run loses 2995 full chunks, and in every continuation in which they stay lost the sender cannot send, keeps 1304 bytes of credit and no grant appears |
| AndroidFlow.StalledStays | android/app/src/main/java/com/p2pshare/android/DirectUdpTransport.kt:401-409 | no step of such a continuation ends the stall |
| DesktopCredit.ValidateGrantedBytes | electron/nativeBridge.cjs:1301-1316 | a grant of up to 128 MiB, or twice the window up to 256 MiB, is believed to the byte while the total stays within what was sent plus the window plus 512 MiB, in part if it goes beyond, and otherwise not at all |
| DesktopCredit.GrantExactly | electron/nativeBridge.cjs:1216-1316 | such a grant raises the granted total by exactly its size, or exactly to that limit; every other grant changes nothing |
| DesktopCredit.BelievedIsCredited | electron/nativeBridge.cjs:1288-1297 | what is believed is credited to the byte, up to the new window, and wakes a waiting send |
| DesktopCredit.NeverStarved | electron/nativeBridge.cjs:1170-1316 | over every run with a receiver that grants what it has received: when all sent bytes are granted back the sender has at least 512 KiB of credit and no send waits, whatever windows were measured and losses seen; the total is the startup credit plus the grants |
| DesktopCredit.CreditConserved | electron/nativeBridge.cjs:1170-1316 | in such a run without a capped grant the credit is the startup credit plus the grants less what was sent |
| DesktopCredit.GrantKeeps | electron/nativeBridge.cjs:1223-1298 | a grant may shrink the credit to a smaller window, the first one not below 512 KiB and a later one not below 1 MiB, and keeps all bounds |
| DesktopCredit.StepKeeps | electron/nativeBridge.cjs:1170-1298 | the bounds survive every step of sends, failed sends, grants and loss backoffs |
| DesktopCredit.CreditBounded | electron/nativeBridge.cjs:794-1316 | over every interleaving: credit within 0 and 256 MiB, sent plus credit at most granted, granted at most sent plus 768 MiB, a debit never goes negative, a waiting send really lacks credit |
| DesktopCredit.OverdrawnExactly | electron/nativeBridge.cjs:1170-1298 | over all runs the credit never becomes negative if and only if no chunk exceeds 512 KiB |
| DesktopCredit.FirstGrantOverdraws | electron/nativeBridge.cjs:1216-1291 | for every chunk above 512 KiB that the startup credit covers, losses before the first, unmeasured grant and that grant between check and debit make the credit negative |
| DesktopCredit.MeasuredGrantOverdraws | electron/nativeBridge.cjs:1261-1291 | without loss, a measured second grant between check and debit does so for every chunk above 1 MiB |
| DesktopCredit.LossesReachFloor | electron/nativeBridge.cjs:1382-1386 | finitely many backoffs bring the window to 512 KiB |
| DesktopCredit.Measured | electron/nativeBridge.cjs:1261-1265 | a measured window is twice the bandwidth-delay product, but at least 1 MiB and at most 256 MiB |
| DesktopCredit.BackoffLowers | electron/nativeBridge.cjs:1372-1387 | a loss backoff lowers the window and changes nothing else of the credit |
| DesktopCredit.BackoffRate | electron/nativeBridge.cjs:1382-1386 | it takes off 15 percent, rounded to the nearest byte, within 512 KiB and the limit of the path |
| DesktopCredit.Outgoing.WaitForCredits | electron/nativeBridge.cjs:1170-1188 | the test of the wait loop |
| DesktopCredit.Outgoing.Settle | electron/nativeBridge.cjs:827-829 | the debit of a first send |
| DesktopCredit.Outgoing.OnFlow | electron/nativeBridge.cjs:1216-1298 | the validated part of the grant enters total and credit, the window is measured except for the first grant, and all waiters are woken: the step that GrantExactly and BelievedIsCredited describe |
| DesktopCredit.Outgoing.Abandon | electron/nativeBridge.cjs:767-771 | a send that throws after its check debits nothing and lets the queue go on |
| DesktopCredit.Outgoing.OnLoss | electron/nativeBridge.cjs:1372-1387 | 85 percent of the window within its limits |
| DesktopRepair.BuildRepairRanges | electron/nativeBridge.cjs:1549-1568 | for every list of numbers: sorted, disjoint, non-adjacent ranges that cover exactly the numbers, or exactly those up to the last range if there are more runs than allowed |
| DesktopRepair.SendRepair | electron/nativeBridge.cjs:1103-1133 | ranges when twice their number is at most the list's, otherwise the list |
| DesktopRepair.WriteRanges | electron/nativeBridge.cjs:1108-1118 | count and big-endian start and end of at most 32 ranges |
| DesktopRepair.WriteList | electron/nativeBridge.cjs:1123-1132 | count and big-endian numbers of at most 128 entries |
| DesktopRepair.OnRepair | electron/nativeBridge.cjs:2019-2032 | resends the announced numbers as far as the body carries them |
| DesktopRepair.OnRepairRange | electron/nativeBridge.cjs:2034-2054 | resends the first 128 numbers of the ranges in order, skipping backward ranges |
| DesktopRepair.ListRoundTrip | electron/nativeBridge.cjs:1123-1132 | the list packet decodes to the numbers |
| DesktopRepair.RangesRoundTrip | electron/nativeBridge.cjs:1108-1118 | the range packet decodes to the ranges |
| DesktopRepair.ListBodies | electron/nativeBridge.cjs:2019-2032 | every list body, however many numbers it announces and carries, is read up to its count or as far as it goes |
| DesktopRepair.RangeBodies | electron/nativeBridge.cjs:2034-2054 | so is every range body, pair by pair |
| DesktopRepair.RepairExact | electron/nativeBridge.cjs:1465-1487 | for every batch of up to 128 numbers the resent ones are exactly the requested ones, or those up to the end of the 32nd run when ranges were cut; never an unrequested one, never one twice from ranges; the body is the shorter of the two encodings, and ranges are used exactly when theirs is not longer |
| MixedRepair.DesktopAsksAndroid | electron/nativeBridge.cjs:1103-1133 | an Android sender that gets a desktop receiver's packet resends exactly the requested chunks, each with its data, or in 32 runs those up to the end of the last, and no other |
| MixedRepair.SameAsked | android/app/src/main/java/com/p2pshare/android/DirectUdpTransport.kt:470-489 | on the same packet bytes the Android handlers, which read the numbers as signed, ask for what the desktop handlers resend |
| MixedRepair.AndroidAsksDesktop | android/app/src/main/java/com/p2pshare/android/DirectUdpTransport.kt:435-454 | a desktop sender resends, in order, the first 128 chunks an Android receiver misses |
| DesktopCache.EvictKeeps | electron/nativeBridge.cjs:784-791 | eviction leaves the newest chunks unchanged, within 128 MiB and as many as fit: the next older one would not |
| DesktopCache.AdmitKeeps | electron/nativeBridge.cjs:774-782 | a new or repeated chunk keeps list and keys matched and changes the total by its length less the old copy's |
| DesktopCache.Outgoing.CacheChunkForResend | electron/nativeBridge.cjs:773-792 | after every insert the order list names each key once, the byte count is the sum of the lengths and at most 128 MiB, and exactly the oldest chunks were dropped |
| DesktopCache.Outgoing.FirstSend | electron/nativeBridge.cjs:794-803 | the chunk enters cache and spool; slices of the source keep the spool faithful |
| DesktopCache.Outgoing.ResendChunk | electron/nativeBridge.cjs:1625-1643 | cached data or what the spool has; with a faithful spool the source slice in both cases |
| DesktopCache.HitIsMiss | electron/nativeBridge.cjs:1628-1637 | when chunks were sent with their slices a miss yields the slice, as a hit does |
| DesktopCache.MissExact | electron/nativeBridge.cjs:1629-1637 | a miss yields what was sent exactly if its length is the promised one, or what the file has left if that is less |
| DesktopCache.HitsAgreeExactly | electron/nativeBridge.cjs:640-648 | for every source, caller chunk size and negotiated size, hits and misses agree on all chunks if and only if the sizes are equal or the file is one chunk under both |
| DesktopGate.StepKeeps | electron/nativeBridge.cjs:2340-2362 | at most 512 sends outstanding, waiters only while more than 256 are, no call lost or doubled, and work decreases, at every step |
| DesktopGate.GateHolds | electron/nativeBridge.cjs:2340-2362 | the same over every run, with a bound on its length |
| DesktopGate.NeverStuck | electron/nativeBridge.cjs:2351-2359 | no wake-up is lost: while a call is unsent or a send outstanding, a step is possible |
| DesktopGate.AllSent | electron/nativeBridge.cjs:2340-2362 | every schedule that goes on as long as it can sends every call exactly once |
| DesktopGate.UdpSender.SendBufferFast | electron/nativeBridge.cjs:2340-2349 | the code from a call or a wake-up to the next await is that step of the machine |
| DesktopGate.UdpSender.OnSent | electron/nativeBridge.cjs:2349-2359 | so is the socket callback |
| DesktopFile.SendSpools | electron/nativeBridge.cjs:798-803 | writing a slice at its offset keeps all other chunks in place |
| DesktopFile.BeyondSpools | electron/nativeBridge.cjs:2222-2229 | so does writing anything behind the source |
| DesktopFile.SpooledPrefix | electron/nativeBridge.cjs:2204-2257 | a file with all chunks in place is the source |
| DesktopFlusher.PlaceInside | electron/nativeBridge.cjs:2222-2229 | writing a held chunk of the file places it and keeps the others |
| DesktopFlusher.PlaceStray | electron/nativeBridge.cjs:2222-2229 | writing a chunk with a number out of range keeps the file's chunks and makes the file longer than the source |
| DesktopFlusher.Incoming.WriteOne | electron/nativeBridge.cjs:2222-2229 | the chunk is at its offset, and the pending byte count falls by its length |
| DesktopFlusher.Incoming.FlushIncomingWrites | electron/nativeBridge.cjs:2204-2257 | writes exactly the contiguous run at the cursor and, when forced, everything in ascending order; otherwise what file and held chunks amount to never changes, and the pending byte count is the sum of the pending payloads throughout |
| DesktopFlusher.Incoming.OnChunk | electron/nativeBridge.cjs:1852-1885 | a chunk on the wrong stream or a duplicate changes nothing; a first arrival, in range or not, is counted and added to what file and held chunks amount to |
| DesktopFlusher.Incoming.OnDone | electron/nativeBridge.cjs:1964-1980 | DONE and its hash are remembered |
| DesktopFlusher.Incoming.MaybeFinalize | electron/nativeBridge.cjs:2081-2101 | nothing is pending afterwards; with the source's chunks in any order and with duplicates, a right count means the numbers are 0 to chunks - 1 and the file is the source if and only if no number was out of range; a wrong hash is refused, and a hash of the source in DONE leaves only the source |
| DesktopFlusher.FinishWithStray | electron/nativeBridge.cjs:2092-2101 | for every file, missing chunk and number out of range there is a run that finishes with another file, without a hash in DONE |
| DesktopDelivery.EntryFits | electron/preload.cjs:119-135 | every chunk that the preload script cuts is the receiver's chunk of that number: same count, same stream, the source's bytes at its place |
| DesktopDelivery.Deliver | electron/nativeBridge.cjs:1852-2101 | for every fragmentation the file is read in, every order of arrival with repetitions and every flushing: after DONE with the file's hash the receiver finishes with exactly the file |
| Rechunker.FileSender.PushChunk | electron/preload.cjs:119-135 | the chunk gets the next number and its stream; batches leave at 384 |
| Rechunker.FileSender.Absorb | electron/preload.cjs:138-158 | one piece of any length, empty included: full chunks are pushed, the rest is carried |
| Rechunker.FileSender.Send | electron/preload.cjs:115-165 | for every fragmentation the batches hold exactly the chunks of the whole file; all batches but the last are full |
| Rechunker.EntriesFacts | electron/preload.cjs:33-165 | the chunks concatenate to the file, number ceil(size / 1400), are numbered from 0, go to one stream each, and are 1400 bytes long except for a shorter, non-empty last one |

## Left out

- QUIC, TLS, AES-GCM, HMAC, HKDF, BLAKE3, SHA-256, Zstandard and deflate, JSON parsing: parameters or uninterpreted functions; the QUIC stream is a reliable byte sequence with an end.
- Clocks, timeouts, pacing and bandwidth estimates: a step that depends on time may happen or not, and a measured window is any number.
- A power loss and unsynchronised data: a crash is the death of a process, files keep what was written. Tokio's background write is complete when write_all returns.
- Directories, links and special files are names without content; their contents are never read.
- Failing system calls other than those named are stops of the attempt.
- Sender.Reread: a read error and a short read are one error, and the text of the errors is not modelled beyond telling them apart.
- Sending.SendFile: the progress callback is not modelled; it uses the serial mode, which Sender.PipelineRefinesSerial relates to the pipeline.
- Session.ConsentExactly: directories and special files in the place of the completed or partial file are refused in Receiver.Receive and Attempts, not in the session.
- ReplayWindow.CryptoState.Seal: the key derivation of the two nonce prefixes is not modelled, they are given; Android's own sealing is not modelled.
- AndroidFlow.RepairCompletes: resends are steps of the sender there; which chunks a request names is proved in AndroidTransfer.
- AndroidFlow.CreditConserved: holds for one Incoming object; an OFFER copy that arrives after the file was finished, and would open a second one, is not modelled.
- AndroidTransfer.Outgoing.Resend: the source is a fixed sequence; the file position that the send loop and resends share is not modelled, and resends that interfere with it are left out.
- DesktopCredit.CreditBounded: at most one first send of a transfer is between check and debit, as the send queue arranges; the rounding of the 85 percent window is that of exact arithmetic.
- DesktopCache.Outgoing.ResendChunk: spool writes are complete when the next step reads them; their asynchronous failure is not modelled.
- DesktopFlusher.Incoming.OnChunk: progress, flow acknowledgements and early repair requests of the handler are not modelled.
- DesktopFlusher.Incoming.MaybeFinalize: write errors and what becomes of a finished file (decompression, copying) are not modelled; hashes are compared in lower case.
- SessionOnDisk.TurnOnDisk: the already-completed path, which writes nothing, is not related step by step.
- DesktopGate.AllSent: the disconnect, which resets the gate under its callbacks, and synchronous socket exceptions are left out.
- Whole-file delivery and liveness of the desktop v2 transfer: its chunk count comes from the caller while the chunk size is negotiated, and the repair test after DONE waits for a later chunk.
- Desktop parity recovery and checkpoints: no theorem holds for them as they are, so they are absent.
- ConnectionTicket.EncodeTicket: the address is given as its numbers; splitting the text and Number() on its parts are not modelled.
- The Kotlin ticket constructor for mapped ports: its size expression parses differently from its intent; the JavaScript encoder is modelled instead.
- Base32.DecodersAgree: both platforms are given one upper-casing table and work on code points; differences between Unicode versions are not modelled.
- Rechunker.FileSender.Send: in-flight limits, stall detection and the native path by file name are not modelled.
- User interface, Electron IPC, updaters, pairing and its network code, STUN and NAT traversal, JNI and the tuning classes: plumbing and constant tables.
