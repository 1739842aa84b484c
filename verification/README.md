# MuMuDVB in Dafny

A model of the parts of MuMuDVB that hold deep state and arithmetic, with proofs of what they are for.

| files | what they model |
|---|---|
| Crc32, CrcTable | the CRC of ISO/IEC 13818-1 Annex A: bit-serial division, and the table that computes it |
| Layout | a transport stream packet, field by field (ISO/IEC 13818-1 section 2.4.3.2), for what the parts below read of it |
| Sections, Demux, TsPacket | reassembly of sections from transport stream packets (ISO/IEC 13818-1 section 2.4.4), as a function and as the program's buffers |
| DemuxQueue, DemuxSound, DemuxComplete, DemuxDelivery, DemuxLayout | its queue, its soundness over any packets, its completeness over well-formed ones amid others |
| EitSend, EitCursor, EitStore, EitKeeps, EitService, EitGlobal, EitChain | the EIT store, its update loop, the round-robin sender and the packetiser, and all of them together |
| Signing, Rewriting, PatRewrite, PatLayout, PatGlobal, PatChain, SdtSection, SdtRewrite | the PAT and SDT rewriters |
| PatTracking, PatVersions, PatOthers, AutoconfPat | following versions of the PAT for autoconfiguration, and the status updates in between |
| RingSize, Ring, RingSafety, RingPipeline, RingLayout, RingThreads, Datagrams | the software descrambling pipeline of three threads, and datagram filling |
| T2mi, T2miStream, T2miRun, T2miEncode, T2miBounds, T2miLayout, T2miDemux | T2-MI demultiplexing |
| UnicastClients | the intertwined client lists |
| Hls, HlsOpens | the HLS sliding window, and runs in which files fail to open |
| StringReplace, Expressions, Literals | template replacement, and sums of products in configuration values |
| Bytes, Memory | shared helpers |

Each imperative part of the program is a class or method whose contract ties it to a function on values
(Demux.Call, Ring.Next, T2mi.Step, PatTracking.ReadPat, ...); the theorems are about those functions and
about runs of them.

Where a promise fails, there is an input for which it does and the exact condition under which it holds:

| promise | holds exactly when | fails for |
|---|---|---|
| a sent EIT section is reassembled | EitSend.ClearExactlyWhen, EitSend.SendReassemble | EitSend.SectionNotCarried |
| a stored EIT section can be read | EitStore.StoredIsReadable | EitStore.SecondIsHidden |
| every stored EIT section is sent | EitCursor.FairExactlyWhen | EitService.UnfairStore |
| a popped section is reported | DemuxQueue.RunReports | DemuxQueue.UnreportedPop |
| a finished section reaches the client | DemuxDelivery.DrainRunDelivers | DemuxQueue.PlacesRunOut |
| a repeated packet changes nothing | DemuxDelivery.RepeatedPacket | the same, for a packet in which a section begins and ends |
| a generated table is reassembled | Rewriting.OneReassembled | the same, for adaptation_field_control 2 and 3 |
| the SDT descriptor walk ends | SdtSection.EndsExactlyWhen | SdtSection.StuckForever |
| a listed program is READY, others are REMOVED | PatVersions.PromiseExactlyWhen, HiddenByEarlySections | PatVersions.ListedButRemoved, UnlistedButReady |
| the T2-MI demultiplexer stays in its buffers | T2miBounds.RunsExactlyWhen, SafeExactlyWhen | T2miBounds.EndlessFrameOverruns, LostFrameStepsBack |
| a rewritten PAT comes from the last applicable section | PatChain.ChannelLists | PatChain.NotYetApplicable |
| an expression that fits is evaluated | Expressions.NoOverflowExactlyWhen | Expressions.ZeroHidesOverflow |
| a write into the ring loses nothing | RingPipeline.WriteSparesExactlyWhen | the same, for a full ring |
| the descrambler never stalls | RingPipeline.StallExactlyWhen | the same, for a ring too small for its batches |
| files on disk are those named | Hls.MatchesExactlyWhen | Hls.EqualTimesLoseFiles |
| all patterns are replaced at once | StringReplace.SimultaneousExactlyWhen, AlwaysSimultaneousExactlyWhen | StringReplace.EmptyReplacementJoins |

`dafny verify dfyconfig.toml` checks everything.

Where code and comments disagree the code is followed: the variable upl in src/t2mi.c is the end of the data
field in the T2-MI packet, not a user packet length, and the comment on autoconf_pat_update_chan's result is
not what it returns.

## Model

| member | source | states |
|---|---|---|
| Crc32.SignedMessageLeavesNothing | src/ts.c:447-454 | Feeding a message and then its own remainder leaves remainder zero, whatever the starting value. |
| Crc32.RemainderLinear | src/ts.c:447-454 | Division is linear: remainders of two messages added bit by bit are the remainder of the sum. |
| Crc32.BurstDetected | src/ts.c:427-455 | Two messages that differ only in a window of at most 32 bits have different remainders. |
| Crc32.MessageBitsInjective | src/ts.c:451-453 | Different byte strings of one length have different bit strings, so a byte change is a bit change. |
| Crc32.SignedBytesLeaveNothing | src/rewrite_pat.c:194-208 | A message followed by the four bytes of its checksum has checksum remainder zero. |
| Crc32.ByteBurstDetected | src/ts.c:427-455 | Changing at most four consecutive bytes of a message changes its remainder. |
| CrcTable.TableIsDivision | src/crc32.c:33-99 | Each of the 256 table constants is the remainder of its index, shifted to the top byte, under division by 0x04C11DB7. |
| CrcTable.TableStepIsDivision | src/ts.c:452 | One table look-up does what eight steps of bit-serial division do. |
| CrcTable.WideStepIsStep | src/rewrite_pat.c:194-197 | A writer's accumulator in a 64-bit unsigned long and the checker's 32-bit one agree in their low halves at every step. |
| CrcTable.ZeroWord | src/ts.c:454 | The accumulator is zero exactly when all 32 remainder bits are. |
| CrcTable.SignatureBits | src/rewrite_pat.c:200-208 | The four bytes stored, most significant first, spell the accumulator's polynomial. |
| Sections.CorruptionRejected | src/ts.c:431-455 | Altering up to four consecutive bytes of an accepted section, keeping its length field and not making it table 0x72, makes the check fail. |
| Crc32.NothingRead | src/ts.c:447 | The remainder starts as all ones. |
| Layout.FieldsRead | src/ts.h:172-195 | Start flag, PID, adaptation field control and counter of a written packet are read as they were written, whatever its other bits and bytes are. |
| Layout.EveryPacketWritten | src/ts.c:119-153 | Every packet with a sync byte is written from some fields, but for those whose adaptation field does not fit. |
| Layout.LengthRead | src/ts.c:431-441 | The length field is read in its twelve bits. |
| TsPacket.TsCheckRawCrc32 | src/ts.c:431-455 | True exactly for a stuffing table (0x72) or when bit-serial division of the section leaves zero. |
| TsPacket.Assembler.constructor | src/ts.h:832-862 | An empty reassembler: nothing collected, nothing queued. |
| TsPacket.Assembler.TsMovePartToFull | src/ts.c:394-422 | The finished section goes to the end of the packed queue; with no place it is dropped, with too many bytes the queue is emptied. |
| TsPacket.Assembler.TsCheckCrc32 | src/ts.c:461-474 | VALID for an intact section, EMPTY with nothing collected otherwise. |
| TsPacket.Assembler.TsPartialFull | src/ts.c:482-492 | True exactly when the expected length is reached; the length is then cut to it. |
| TsPacket.Assembler.FinishIfFull | src/ts.c:373-381 | A complete section is queued if intact and forgotten if not; an incomplete one is left as it is. |
| TsPacket.Assembler.BeginSection | src/ts.c:250-292 | A new section starts: its header if shorter than three bytes, else as much of it as the packet has. |
| TsPacket.Assembler.Follows | src/ts.c:297-319 | Bytes extend the section exactly when the PID is the same and the counter one higher; a repeated counter changes nothing, anything else empties it. |
| TsPacket.Assembler.CompleteHeader | src/ts.c:322-341 | A length header split between two packets is completed, or given up when still short. |
| TsPacket.Assembler.AppendData | src/ts.c:343-364 | Bytes are appended up to the expected length and never past 4096. |
| TsPacket.Assembler.AddTsPacketData | src/ts.c:229-390 | The recursive worker does what Extend, Start or AfterSection says, and ends because the bytes left shrink. |
| TsPacket.Assembler.Pop | src/ts.c:72-95 | The oldest queued section is handed out and the packed buffer and lengths move up. |
| TsPacket.Assembler.ParseHeader | src/ts.c:104-153 | Which packets are skipped, and where the payload of the others starts. |
| TsPacket.Assembler.FeedStart | src/ts.c:159-188 | A pointer field past the end empties the collected section; otherwise the bytes before it end one section and the rest begin new ones. |
| TsPacket.Assembler.GetTsPacket | src/ts.c:65-198 | A whole call moves the abstract state (section being collected, queue) and answers as Call does, early exits included. |
| DemuxQueue.PushAllKeepsPrefix | src/ts.c:394-422 | While the bytes fit, exactly the sections that find a place are kept, in order. |
| DemuxQueue.UnreportedPop | src/ts.c:134-152 | A section leaves the queue unreported exactly when the packet of that call is unusable and it was the only one waiting. |
| DemuxQueue.DrainedIsQueue | src/rewrite_pat.c:234-254 | Popping until nothing is left hands out the queue, once each and in order. |
| DemuxQueue.ResetUnreachable | src/ts.c:402-411 | In every run of calls from the start, whoever pops when and whatever the packets hold, the too-much-data reset cannot happen: only places can run out. |
| DemuxQueue.RunQueueInv | src/ts.c:65-198 | The bound behind it, kept by every call: each queued section leaves room for a packet's payload behind it. |
| DemuxQueue.RunReports | src/ts.c:134-198 | In every run the sections reported are the ones popped if and only if no unusable packet arrives while exactly one section waits. |
| DemuxQueue.DrainRunInv | src/rewrite_pat.c:234-254 | The bound is kept by every run of drain rounds too. |
| DemuxQueue.PlacesRunOut | src/ts.c:397-401 | A packet of 61 empty stuffing tables shows that places, unlike bytes, can run out: 15 are kept and 46 lost. |
| DemuxSound.RunSound | src/ts.c:65-390 | For any calls: every section queued or delivered is 3 to 4096 bytes, as long as its length field says, intact, and the start of what packets of one PID with consecutive counters carry; the section being collected is all such packets carry, cut at the buffer's end. |
| DemuxSound.PacketSound | src/ts.c:229-390 | One packet keeps that soundness. |
| DemuxComplete.FeedCarried | src/ts.c:229-390 | One packet of a stream carrying sections finishes those that end in it, and leaves collected exactly what the next packet continues. |
| DemuxComplete.CarriedIsFinished | src/ts.c:159-197 | Sections packed with pointer fields, several to a packet, split headers, stuffing and consecutive counters are finished unchanged, once each, in order; a continuation may be of any length as long as three bytes are collected then. |
| DemuxComplete.BegunAreFinished | src/ts.c:159-197 | From any state and behind the end of any section, the sections that begin in a packet and what carries them on are finished. |
| DemuxComplete.JoinedAnywhere | src/ts.c:229-319 | A reassembler that joins the stream anywhere ignores packets in which nothing begins, and finishes every section from the first packet with a beginning on. |
| DemuxComplete.SpreadHeaderGivenUp | src/ts.c:322-341 | A section that is continued is given up if and only if fewer than three of its bytes are then collected. |
| DemuxDelivery.StrippedFeeds | src/ts.c:104-152 | Over any packets, those without usable payload, continuations under a repeated counter and repetitions in which no section ends can be left out: what is finished and collected is the same. |
| DemuxDelivery.CarriedAreKept | src/ts.c:297-319 | Of packets that carry sections none is left out so. |
| DemuxDelivery.CarriedAmidInert | src/ts.c:65-198 | Completeness with such packets anywhere between those that carry the sections. |
| DemuxDelivery.RepeatedPacket | src/ts.c:159-197 | A packet received twice counts once, but for the sections that begin and end in it, which come out twice. |
| DemuxDelivery.RunConserves | src/ts.c:72-197 | In any run with room in which no unusable packet finds exactly one section waiting, delivered plus queued sections are the old queue plus all sections finished. |
| DemuxDelivery.SectionsDelivered | src/ts.c:65-198 | Completeness with the queue, packets that bring nothing in between: packed sections come out of the calls unchanged, once each, in order. |
| DemuxDelivery.DrainRunDelivers | src/rewrite_pat.c:234-254 | With the drain loop and any packets, every section finished is delivered or still queued, in order, if and only if in each round there were places and no unusable packet found exactly one section waiting. |
| DemuxDelivery.LongSectionsFindPlaces | src/rewrite_pat.c:234-254 | For sections of at least 23 bytes there are places in every round, so that only such a packet can lose one. |
| DemuxDelivery.SectionsDrained | src/rewrite_pat.c:234-254 | Completeness under the drain loop, packets that bring nothing in between: packed sections are delivered or still queued, once each and in order, under exactly that condition. |
| DemuxLayout.Classified | src/ts.c:119-197 | What a packet brings, by its fields alone: nothing without payload or when it looks like PES; its payload; or the bytes before and behind where the pointer points, if that is inside. The adaptation field is skipped whatever its length. |
| DemuxLayout.OverrunIgnored | src/ts.c:125-137 | A packet whose adaptation field leaves no payload is ignored. |
| DemuxLayout.ConveyedAreCarried | src/ts.c:119-197 | Sections put into the payloads of written packets are carried in the sense of the completeness theorems. |
| DemuxLayout.WrittenSectionsDelivered | src/ts.c:65-198 | Completeness in terms of what is sent: with adaptation fields of any contents, and packets without payload anywhere, the sections come out of the calls, once each and in order. |
| DemuxLayout.WrittenSectionsDrained | src/rewrite_pat.c:234-254 | And under the drain loop, exactly when nothing is lost. |
| EitSend.FillPacket | src/rewrite_eit.c:404-437 | One send buffer: header, as much of the section as fits, 0xFF padding. |
| EitSend.SendSection | src/rewrite_eit.c:388-440 | The packets sent are the section cut into 183 and then 184 byte pieces, and the counter advances modulo 16. |
| EitSend.SectionCarried | src/rewrite_eit.c:402-440 | The cut packets carry the section in the sense of the reassembler's completeness theorem. |
| EitSend.SendReassemble | src/rewrite_eit.c:402-440 | Sending and reassembling gives back exactly the section when no packet starts like PES, and nothing at all otherwise, whatever was pending. |
| EitSend.ClearExactlyWhen | src/ts.c:148-153 | No packet of a sent section starts like PES if and only if 00 00 01 stands at none of the bytes 183, 367, 551 ... where it is cut. |
| EitSend.SectionNotCarried | src/rewrite_eit.c:402-440 | There is a section the reassembler accepts that is stored and sent and never reassembled from the packets. |
| EitSend.PacketWritten | src/rewrite_eit.c:402-437 | Each packet sent is, field by field, a clear one of PID 18 with the counter and the payload said. |
| EitCursor.NextTableIsNextSlot | src/rewrite_eit.c:93-102 | Stepping table ids is stepping through a cycle of 17 values. |
| EitCursor.FindTableSpec | src/rewrite_eit.c:353-369 | The table search finds the first visible entry in cyclic order, and none only if there is none. |
| EitCursor.SendsStored | src/rewrite_eit.c:350-386 | With something to send in each visible entry, an attempt sends something exactly when anything is stored, and then a stored section. |
| EitCursor.SentIsStored | src/rewrite_eit.c:350-386 | Any attempt sends a stored section, or leaves a table with nothing to send for the next table, or nothing is stored. |
| EitCursor.SendsSoon | src/rewrite_eit.c:350-386 | 17 attempts send something if and only if something is stored that can be sent. |
| EitCursor.SendAfter | src/rewrite_eit.c:350-447 | After a stored section the next one sent is the next stored position in cyclic order, under the fairness condition. |
| EitCursor.SendsGoRound | src/rewrite_eit.c:350-447 | Consecutive sends walk the list of stored positions in order. |
| EitCursor.SendsEachOnce | src/rewrite_eit.c:442-447 | As many sends as there are stored sections send each of them exactly once, when each visible table has its last section stored or there is one table. |
| EitCursor.Captured | src/rewrite_eit.c:442-447 | A table whose last section is missing is never left again. |
| EitCursor.FairExactlyWhen | src/rewrite_eit.c:350-447 | Every stored section is sent in a round from every cursor if and only if each visible table has its last section stored, or only one table is visible, or nothing is stored that could be sent. |
| EitCursor.Channel.FindTableToSend | src/rewrite_eit.c:350-369 | The do-while loop over table ids finds what FindTable says within its cycle. |
| EitCursor.Channel.FindSectionToSend | src/rewrite_eit.c:372-386 | The loop over section numbers finds what FindSection says. |
| EitCursor.Channel.NextToSend | src/rewrite_eit.c:350-447 | One attempt sends and moves the cursor as Send does. |
| EitStore.ReceivedOk | src/rewrite_eit.c:256-313 | In every reachable store each marked section has its entry's service, table and version and its own number, so versions never mix, and a key occurs at most twice. |
| EitStore.AtMostTwicePerKey | src/rewrite_eit.c:124-158 | A list with at most two entries a key is at most twice as long as there are keys. |
| EitStore.StoreBounded | src/rewrite_eit.c:124-158 | Every reachable store is bounded by twice the number of its keys. |
| EitStore.StoredIsReadable | src/rewrite_eit.c:128-147 | A section just stored is the one readers find if and only if the entry readers see is not the last of the list. |
| EitStore.SecondTimeReadable | src/rewrite_eit.c:124-313 | Receiving a section once more always makes it the one readers find. |
| EitStore.SecondIsHidden | src/rewrite_eit.c:124-158 | The input for which it fails: two sections of one new table received first leave the second where no reader finds it. |
| EitKeeps.HeaderRead | src/ts.h:406-437 | Table, service, version, current flag and section numbers are read as they were written. |
| EitKeeps.WantedExactlyWhen | src/rewrite_eit.c:203-242 | A section is wanted if and only if it is an applicable EIT section that readers do not find in its version. |
| EitKeeps.OtherTablesKept | src/rewrite_eit.c:268-304 | Storing a section leaves every section of other services and tables where readers find it. |
| EitKeeps.OtherSectionsKept | src/rewrite_eit.c:278-304 | The other sections of its own table are found as before, unless it goes into the entry readers see and has another version; then none is. |
| EitKeeps.EntryFollows | src/rewrite_eit.c:288-304 | The entry has the version and last number of the section stored last in it. |
| EitKeeps.ReadableStays | src/rewrite_eit.c:248-317 | In every run a section that readers find stays found, the same copy, until one of its table in another version comes. |
| EitKeeps.NewVersionReplaces | src/rewrite_eit.c:278-301 | And then it is replaced, if and only if its entry is not the last of the list. |
| EitStore.Store.FindByTsid | src/rewrite_eit.c:163-177 | The first entry with the key, over the linked list. |
| EitStore.Store.NewPacket | src/rewrite_eit.c:124-158 | The entry to write: an earlier one with the key, never the last node, else a new node at the end. |
| EitStore.Store.NeedsUpdate | src/rewrite_eit.c:187-242 | Whether a section is an applicable EIT section not stored in this version. |
| EitStore.Store.StoreSection | src/rewrite_eit.c:273-304 | The list becomes the old one with the section put in its entry, cleared first for a new version. |
| EitStore.Store.Receive | src/rewrite_eit.c:263-304 | A section that brings nothing new changes nothing. |
| EitService.ReceivedSendable | src/rewrite_eit.c:288-304 | When section numbers do not exceed the last section number they come with, every entry always has something to send. |
| EitService.SentIsOwn | src/rewrite_eit.c:350-394 | Over any sections received, what a channel sends is a stored section of its service, table and number, and 17 attempts send something exactly when something is stored that can be sent. |
| EitService.NumberedSentAtOnce | src/rewrite_eit.c:350-394 | When section numbers do not exceed the last section number, one attempt is enough. |
| EitService.ServedFairly | src/rewrite_eit.c:350-447 | The exact fairness condition on whatever store was built. |
| EitService.UnfairStore | src/rewrite_eit.c:442-447 | The input for which it fails: two tables of one service, one without its last section, and a section that no number of sends reaches. |
| EitGlobal.EitRewriter.Drain | src/rewrite_eit.c:258-315 | The loop stores the first waiting sections that each bring something new, stops at the first that does not (which is lost), and leaves the rest queued. |
| EitGlobal.EitRewriter.NewGlobalPacket | src/rewrite_eit.c:248-317 | Nothing happens unless an update is wanted; the flag stays set exactly when nothing was stored. |
| EitChain.RunCameIn | src/rewrite_eit.c:248-317 | In every run everything queued, collected and stored is intact and came in by packets of one PID with consecutive counters. |
| EitChain.StoreIsReceived | src/rewrite_eit.c:256-315 | The store of a run is the store of the copies it stored, each of which brought something new. |
| EitChain.SentCameIn | src/mumudvb.c:1648-1653 | From reception to output, over every run: what a channel sends is an intact section of its service and table that packets of the EIT PID carried in, and reassembling what is sent gives that section if it is clear and nothing otherwise. |
| RingSize.RoundUp | src/scam_common.c:69-79 | For all 2^32 inputs: the result is a positive power of two exactly for 1 to 2^30, and then the smallest one not below the input. |
| RingSize.MaskWraps | src/mumudvb_common.c:383-384 | On a power-of-two ring masking the incremented index wraps it. |
| RingSize.MaskNeedsPower | src/scam_common.c:68-79 | On any other size the mask changes some index of the first lap. |
| Ring.PayloadOffset | src/scam_decsa.c:65-85 | Zero for a packet without a usable payload, else a start that leaves 1 to 184 bytes to decrypt. |
| RingSafety.SlotsDiffer | src/mumudvb_common.c:379-384 | Positions less than a ring size apart are in different slots. |
| RingSafety.ProgramFinishes | src/scam_decsa.c:231-246 | Both decryption and clearing passes turn each batched packet into its final form, once, and leave the others alone. |
| RingSafety.WriteKeeps | src/mumudvb_common.c:378-388 | The producer's step keeps the invariant. |
| RingSafety.TakeKeeps | src/scam_decsa.c:168-230 | Taking a packet, with the key loading that follows a full batch, keeps it. |
| RingSafety.LoadKeeps | src/scam_decsa.c:209-229 | A key is loaded only while no packet batched under it is held. |
| RingSafety.WorkKeeps | src/scam_decsa.c:231-246 | Each piece of unlocked work keeps it. |
| RingSafety.ReleaseKeeps | src/scam_decsa.c:247-257 | Releasing the batch keeps it. |
| RingSafety.SendKeeps | src/scam_send.c:118-153 | The sender's step keeps it. |
| RingSafety.RunKeeps | src/scam_decsa.c:145-259 | The invariant holds after every interleaving of the three threads and the key deliveries. |
| RingPipeline.FirstInFirstOut | src/scam_send.c:118-153 | In every interleaving the k-th packet sent is the k-th written, released before, decrypted once under the key it was batched with or untouched; none lost, none twice, at most a ring's worth outstanding. |
| RingPipeline.EnabledExactlyWhen | src/scam_decsa.c:145-160 | In every reachable state a step is possible exactly when its thread's own guard holds, and a write when there is room. |
| RingPipeline.DisjointSlots | src/scam_decsa.c:230-249 | The producer's, descrambler's and sender's slots are disjoint, and the producer's slot is free exactly when there is room. |
| RingPipeline.WriteSparesExactlyWhen | src/mumudvb_common.c:378-388 | A write spares every packet not yet sent if and only if there is room; in a full ring it replaces the packet to be sent next. |
| RingPipeline.IndicesAreTotals | src/scam_decsa.c:200-203 | The indices are the totals written, taken and sent modulo the ring's size. |
| RingPipeline.SeenWorkStays | src/scam_send.c:93-118 | Work seen before sleeping without the lock is still there, at the same slot with the same packet, after any step of another thread. |
| RingPipeline.KeyReplaced | src/scam_decsa.c:209-229 | A loaded key changes only when a batch is full and its own batch is empty, and to the key that was waiting. |
| RingPipeline.BatchedExactlyWhen | src/scam_decsa.c:168-199 | A taken packet joins a parity's batch, at its slot and payload, exactly when it is scrambled for it, its key is loaded and a CA index is set. |
| RingPipeline.UsesExplained | src/scam_decsa.c:168-199 | A packet is batched only for the parity it is scrambled for, under a key that was delivered for that parity. |
| RingPipeline.BatchesFit | src/scam_decsa.c:180-207 | Both batches together hold at most batch_size packets, so each has room for its terminator. |
| RingPipeline.StallExactlyWhen | src/scam_decsa.c:205 | A full ring in which neither reader can move is reachable if and only if the ring has fewer than 2 * batch_size - 1 slots. |
| RingLayout.PayloadFound | src/scam_decsa.c:65-85 | The payload of a written packet is found where it is, and its parity is what the control bits say; without payload it counts as not scrambled. |
| RingLayout.NoPayloadFound | src/scam_decsa.c:66-77 | So does a packet without sync byte, or whose adaptation field leaves no payload. |
| RingLayout.FinalIsClear | src/scam_decsa.c:231-246 | A packet after its work is, field by field, the one written with its payload decrypted and its control bits zero. |
| RingLayout.SentInTheClear | src/scam_send.c:118-153 | Over every run: a batched packet goes out so, decrypted with a key delivered for the parity its control bits name; any other goes out as it was written. |
| RingLayout.TakenForDescrambling | src/scam_decsa.c:168-199 | A taken packet is batched exactly when its control bits name a parity whose key is loaded and a CA index is set. |
| RingLayout.WaitingKeyLoaded | src/scam_decsa.c:209-229 | A waiting key waits until a full batch comes that does not need the one it replaces, and is loaded then. |
| RingLayout.NewKeyWaits | src/scam_getcw.c:182-191 | A delivered key waits, the other parity's is left alone. |
| RingLayout.CaIndexIs | src/scam_decsa.c:253-256 | In every run the descrambler goes by the CA index that was set when it last released a batch. |
| RingThreads.Channel.constructor | src/scam_common.c:258-289 | A cleared ring is the machine's initial state. |
| RingThreads.Channel.Write | src/mumudvb_common.c:378-388 | The producer's critical section writes whether or not there is room, and is the machine's Write step exactly when there is. |
| RingThreads.Channel.Sort | src/scam_decsa.c:168-199 | The switch counts the packet and puts it in its batch as Sorted says. |
| RingThreads.Channel.LoadEvenKey | src/scam_decsa.c:210-219 | The even key is loaded under the machine's condition. |
| RingThreads.Channel.LoadOddKey | src/scam_decsa.c:220-229 | The odd key likewise. |
| RingThreads.Channel.Take | src/scam_decsa.c:168-230 | The descrambler's first critical section is the Take step. |
| RingThreads.Channel.WorkOne | src/scam_decsa.c:231-246 | Decrypting or clearing one packet is one Work step. |
| RingThreads.Channel.DecryptPayloads | src/scam_decsa.c:232 | Decrypting up to the terminator is as many Work steps as the batch has packets. |
| RingThreads.Channel.Descramble | src/scam_decsa.c:231-246 | Both batches together are the whole unlocked program. |
| RingThreads.Channel.Release | src/scam_decsa.c:247-257 | The second critical section is the Release step. |
| RingThreads.Channel.Send | src/scam_send.c:118-153 | The sender's critical section is the Send step and yields the packet recorded as sent. |
| RingThreads.Channel.SetCw | src/scam_getcw.c:182-191 | A control word arrives: it waits for its parity. |
| RingThreads.Channel.SetCa | src/scam_getcw.c:199-215 | The channel's CA index changes; the descrambler goes by the old one until its next release. |
| Datagrams.Output.Fill | src/mumudvb_common.c:411-428 | Kept packets leave in order in datagrams of exactly seven packets, with or without RTP header, and none is lost between the buffer and the datagrams. |
| Datagrams.AllKept | src/mumudvb_common.c:411-419 | Unless scrambled packets are not to be sent, and there is a PMT PID, every packet goes out. |
| Datagrams.ClearKept | src/mumudvb_common.c:395-419 | Otherwise exactly those whose control bits are zero do, in order. |
| T2miStream.RenderStride | src/t2mi.c:146-158 | A user packet is written as a sync byte and its 187 bytes, its deleted-null-packet byte left out. |
| T2miStream.RenderAligned | src/t2mi.c:136-141 | From one user packet start to another a multiple of 188 bytes is written. |
| T2miStream.CopiesUsers | src/t2mi.c:144-171 | The copying loop and the partial copy write the frame's part of the stream from a user packet start on. |
| T2miStream.FrameExtracts | src/t2mi.c:95-174 | Processing a frame adds exactly its part of the stream to the output, and the unaligned branch changes nothing. |
| T2miRun.StepBegin | src/t2mi.c:83-189 | A packet in which a T2-MI packet starts closes the one before and opens the next. |
| T2miRun.StepMiddle | src/t2mi.c:190-193 | Any other packet is appended to what is gathered. |
| T2miRun.RunRenders | src/t2mi.c:48-195 | Whatever T2-MI packets of other PLPs and types lie between, the output of all calls is the stream from the first user packet start to where the frames reach. |
| T2miRun.RenderUsers | src/t2mi.c:146-158 | That stream is the user packets, each with its sync byte. |
| T2miRun.UserPacketsOut | src/t2mi.c:48-195 | All calls together output exactly the 188-byte packets, in order from the first one starting in the first frame. |
| T2miBounds.RunsExactlyWhen | src/t2mi.c:48-195 | From any state: a run stays in the input, the gathering buffer and the output buffer if and only if each pointer followed stays in its packet, no frame outgrows the gathering buffer, and no frame of the PLP takes back more output than its call has written and then writes. |
| T2miBounds.StepsBackExactlyWhen | src/t2mi.c:136-141 | The unsigned count drops below zero if and only if the output ends inside a packet that the frame's tail does not complete. |
| T2miBounds.SafeExactlyWhen | src/t2mi.c:83-193 | From an idle start and with pointers into their packets, a run stays in its buffers if and only if the last two hold of the baseband frames, whatever the other T2-MI packets are. |
| T2miBounds.MappedWritesInside | src/t2mi.c:134-171 | Frames that map a stream of user packets without a gap never take back more than was written. |
| T2miBounds.EndlessFrameOverruns | src/t2mi.c:190-193 | One input for which it does not: a frame that begins and 356 packets without a start; 355 still fit. |
| T2miBounds.LostFrameStepsBack | src/t2mi.c:136-168 | The other: two frames with a lost one between them make the count wrap, and the next user packet is written outside unless the buffer is too small for it. |
| T2miEncode.AllCarried | src/t2mi.c:83-193 | T2-MI packets cut into transport stream packets, with stuffing, are the T2-MI packets the demultiplexer sees. |
| T2miEncode.FramesMapped | src/t2mi.c:95-110 | Frames built with the right data field length and sync distance map the stream without a gap. |
| T2miEncode.MappedAndCutComesBack | src/t2mi.c:48-195 | Round trip: user packets mapped into frames of any lengths from 188 to 8191, cut and flushed, come back whole. |
| T2miLayout.PayloadFound | src/t2mi.c:53-83 | The payload of a written packet is found where it is; without one the packet is ignored. |
| T2miLayout.PassedOver | src/t2mi.c:53-66 | A packet whose byte 3 says that it has no payload, or whose adaptation field leaves none, changes neither state nor output at any moment. |
| T2miLayout.RunWithoutThem | src/t2mi.c:48-195 | A run with such packets inserted anywhere is the run without them. |
| T2miLayout.MappedAmidOthersComesBack | src/t2mi.c:48-195 | The round trip with such packets anywhere in between. |
| T2miLayout.CopiedWithoutStart | src/t2mi.c:111-123 | Of a frame in which no user packet starts the whole data field goes out, if there is room. |
| T2miLayout.OtherPlp | src/t2mi.c:94 | Frames of other PLPs yield nothing. |
| T2miDemux.Demultiplexer.CopyUserPackets | src/t2mi.c:144-171 | The loops over fixed buffers, with output_bytes counted in 32 bits, compute CopyUsers, also from a wrapped count when nothing is written. |
| T2miDemux.Demultiplexer.DropIncomplete | src/t2mi.c:136-141 | What does not fill a packet is taken back; the count wraps exactly when that is more than the call has written. |
| T2miDemux.Demultiplexer.CopyTail | src/t2mi.c:125-134 | The end of a user packet from the frame before is copied when it fits. |
| T2miDemux.Demultiplexer.ExtractPackets | src/t2mi.c:94-174 | Header parsing and all branches compute Extract; output_bytes is the program's unsigned 32-bit count from the call's offset on. |
| T2miDemux.Demultiplexer.CloseFrame | src/t2mi.c:86-177 | The gathered packet is completed, processed and cleared, with that count. |
| T2miDemux.Demultiplexer.OpenFrame | src/t2mi.c:179-189 | A baseband frame is opened, other packet types are not. |
| T2miDemux.Demultiplexer.Processt2 | src/t2mi.c:48-195 | One call turns state and output into what Step says and returns the count, as an int, by which the output has moved, back or forth. |
| Signing.WideCrc | src/rewrite_pat.c:191-197 | The loop with the wide accumulator computes the bit-serial checksum. |
| Signing.AppendCrc | src/rewrite_pat.c:191-208 | The bytes written behind a section make its remainder zero and nothing else changes. |
| Rewriting.SealedIsSection | src/rewrite_pat.c:180-208 | A body with its length set and checksum appended is a section the checker accepts. |
| Rewriting.OneReassembled | src/rewrite_pat.c:126-215 | Whatever was pending, the reassembler gets exactly the generated section, if and only if the packet whose header is reused has no adaptation field. |
| Rewriting.Finish | src/rewrite_pat.c:180-212 | Length, checksum and 0xFF padding produce such a packet. |
| PatRewrite.KeptIsChosen | src/rewrite_pat.c:150-169 | With a PID list free of duplicates exactly the programs of the channel are kept, in order. |
| PatRewrite.AnnouncedSection | src/rewrite_pat.c:180-188 | The generated section is accepted and lists exactly the kept programs. |
| PatRewrite.RewrittenLists | src/rewrite_pat.c:104-219 | The section lists the first 42 of the programs with non-zero number, matching service and PMT PID of the channel; version kept, applicable at once. |
| PatRewrite.RewrittenIsReassembled | src/rewrite_pat.c:126-215 | The rewritten table comes out of the reassembler unchanged if and only if the incoming header has no adaptation field. |
| PatRewrite.KeepProgram | src/rewrite_pat.c:153-168 | A program is copied once for each time its PID is listed, and the list is left at the first copy that has no room. |
| PatRewrite.CopyPrograms | src/rewrite_pat.c:143-178 | The loop visits every listed program once. |
| PatRewrite.PatChannelRewrite | src/rewrite_pat.c:104-219 | The whole rewriter produces one packet with that section and changes the stored header as said. |
| PatRewrite.OccurrencesCount | src/rewrite_pat.c:153-168 | A PID counts as often as it is in the list. |
| PatLayout.EntryRead | src/ts.h:116-129 | Program number and PMT PID are read as they were written, in 16 and 13 bits. |
| PatLayout.TableRead | src/rewrite_pat.c:143-146 | A stored table written from a list of programs is read as that list. |
| PatLayout.RewrittenTable | src/rewrite_pat.c:104-219 | A table written from a list is rewritten to the table written from the channel's own programs in it, the first 42: same transport stream and version, current, number 0 of 0. |
| PatLayout.MostPrograms | src/rewrite_pat.c:150-158 | As many programs are kept as leave a byte of the packet free. |
| PatLayout.HeaderIsKept | src/rewrite_pat.c:126-130 | The generated packet keeps the PID, the counter and all other fields of the packet at hand but for the start flag, the pointer and the payload. |
| PatLayout.HeadRead | src/autoconf_pat.c:85-150 | Version, number, current flag, transport stream id and programs of a stored section are read as they were written. |
| PatLayout.TableLearned | src/rewrite_pat.c:237-252 | A table is taken over if and only if it is current, with its version. |
| PatLayout.CounterWritten | src/rewrite.c:228-232 | Setting the counter of a packet changes nothing else. |
| PatLayout.IdsAreNumbers | src/autoconf_pat.c:156-169 | The programs listed are those with a number other than zero. |
| PatLayout.AnnouncedAreKnown | src/autoconf_pat.c:222-283 | Every program of a written table has a channel then, unless there are as many as there may be; ids stay distinct and in place. |
| PatLayout.NewProgram | src/autoconf_pat.c:254-329 | A program nobody has yet gets a channel if there may be one more: not ready, with the PMT PID and nothing else. |
| PatLayout.KnownProgram | src/autoconf_pat.c:230-329 | The last channel with the number is the one updated: a marked one is ready again, a removed one starts over, others keep their status; the PMT PID is the table's unless the user set one. |
| PatGlobal.PatRewriter.Drain | src/rewrite_pat.c:234-254 | The loop takes every waiting section, the last applicable one decides version and flags, and the last one, applicable or not, is left in the result buffer. |
| PatGlobal.PatRewriter.NewGlobalPacket | src/rewrite_pat.c:224-259 | Packets are taken in only while an update is wanted; the counter advances modulo 16. |
| PatGlobal.PatRewriter.NewChannelPacket | src/rewrite_pat.c:265-308 | A ready channel's table is made anew once for each version and while no update is under way; it is sent under the program's own counter if its version is the stored one, else nothing is. |
| PatChain.RunSource | src/rewrite_pat.c:224-259 | In every run the stored version is that of the last applicable section, and when no update is under way the buffer holds the last section the loop was given, an intact one that came in by consecutive packets of one PID. |
| PatChain.ChannelLists | src/rewrite_pat.c:104-308 | In every run the table made for a channel lists the chosen programs of that last section; it is the last applicable one, whose version is the stored one, if and only if the last one was applicable. |
| PatChain.NotYetApplicable | src/rewrite_pat.c:234-254 | The run for which it is not: a section that is not applicable yet, behind the applicable one in the same packet, makes the channel's table list nothing. |
| SdtSection.FilteredIsFilter | src/rewrite_sdt.c:213-229 | For a well-formed loop the walk ends at its end, visits each descriptor once and keeps the allowed ones in order. |
| SdtSection.StuckForever | src/rewrite_sdt.c:213-229 | At a descriptor length byte of 254 the loop stays where it is after any number of rounds. |
| SdtSection.EndsExactlyWhen | src/rewrite_sdt.c:213-229 | A walk that reads nothing outside the buffer reaches the end of the loop if and only if it meets no length byte of 254. |
| SdtSection.WalkableExactlyWhen | src/rewrite_sdt.c:213-229 | What the rewriter requires of a descriptor loop is exactly those two: nothing outside the buffer is read, and no length byte reached is 254. |
| SdtSection.SearchFinds | src/rewrite_sdt.c:194-265 | The walk over entries stops at the first one of the service that fits, or finds none if there is none. |
| SdtSection.GeneratedLists | src/rewrite_sdt.c:137-328 | The generated section lists exactly that one service with its allowed descriptors, both lengths and the checksum consistent. |
| SdtSection.GeneratedIsReassembled | src/rewrite_sdt.c:173-305 | The generated table comes out of the reassembler unchanged if and only if the incoming header has no adaptation field. |
| SdtSection.ListedIsHeld | src/rewrite_sdt.c:176-180 | Making the stored header current leaves the table readable. |
| SdtSection.GeneratedHeader | src/rewrite_sdt.c:176-180 | The generated section keeps the stored one's transport stream, version and network, is current and number 0 of 0. |
| SdtSection.FlagsForced | src/rewrite_sdt.c:246-251 | Both EIT flags are set when that is asked for, and the other bits stay. |
| SdtSection.LongestLoop | src/rewrite_sdt.c:226-235 | The longest descriptor loop kept is the longest with which headers, entry and checksum leave a byte of the packet free. |
| SdtSection.AllowedTags | src/rewrite_sdt.c:104-122 | The seven tags that are kept. |
| SdtRewrite.CopyDescriptor | src/rewrite_sdt.c:104-122 | True exactly for the seven allowed tags. |
| SdtRewrite.CopyDescriptors | src/rewrite_sdt.c:205-229 | The inner loop gathers what Filtered says. |
| SdtRewrite.CopyService | src/rewrite_sdt.c:200-257 | A matching entry is written when it fits and skipped when not. |
| SdtRewrite.FindService | src/rewrite_sdt.c:194-265 | The outer loop finds what Search says. |
| SdtRewrite.Rewriter.AllSectionsSeen | src/rewrite_sdt.c:49-58 | True exactly when every section number up to the last was seen. |
| SdtRewrite.Rewriter.ChannelRewrite | src/rewrite_sdt.c:137-328 | All outcomes: no service id, wrong table, written, service absent from a complete table, service not yet seen. |
| PatTracking.UpdateChanKeeps | src/autoconf_pat.c:222-283 | A listed program gets a channel while there is room; ids stay distinct and in place. |
| PatTracking.UpdateChanSetsPmt | src/autoconf_pat.c:265-329 | The program's channel gets the table's PMT PID unless the user set one, and no other channel changes. |
| PatTracking.UpdateAllAwaits | src/autoconf_pat.c:156-169 | A section makes exactly the waiting channels it lists ready again, and leaves those where a decision has put them. |
| PatVersions.VersionKnown | src/autoconf_pat.c:85-220 | Over the sections of a version, in any order and with repeats, and any updates of all channels in between, each channel in use before stands as the last decision or the sections read so far say. |
| PatVersions.ListedIsFirst | src/autoconf_pat.c:97-150 | Whatever was skipped, what a version lists is what the sections list that were the first of their number and applicable. |
| PatVersions.VersionCompleted | src/autoconf_pat.c:181-216 | When a version is complete a channel that was there is where the last status update in the version put it, and without one it is READY if and only if some section that was the first of its number and applicable lists it, and REMOVED otherwise; so are listed programs given channels while there is room; ids stay distinct and no channel changes its id. |
| PatVersions.PromiseExactlyWhen | src/autoconf.c:661-673 | The promise (READY if some applicable section lists the channel, else REMOVED) holds in a version if and only if no channel without a decision is listed only by skipped sections, those last decided to be wanted are listed, and none is decided to be unwanted. |
| PatVersions.PromiseWithoutUpdates | src/autoconf_pat.c:97-150 | If no update of all channels falls between the version's first section and its completion, it holds if and only if no channel that was there is listed only by skipped sections. |
| PatVersions.HiddenByEarlySections | src/autoconf_pat.c:133-150 | With equal contents for equal numbers a program is so hidden if and only if it is listed only by numbers first met not yet applicable. |
| PatVersions.ListedButRemoved | src/autoconf_pat.c:133-216 | The run for which it fails: a channel listed by an applicable section of the completed version ends REMOVED. |
| PatVersions.UnlistedButReady | src/autoconf.c:380-473 | The other run for which it fails: a status update between two sections of a version keeps a channel that no section lists. |
| PatOthers.OthersKeep | src/autoconf_pat.c:85-220 | Over any sections a channel not in use when they began keeps its status, listed or not, but for a removed one, which starts over when it is listed. |
| PatOthers.VersionBegins | src/autoconf_pat.c:103-131 | The first section of a new version makes it the only one seen, marks the channels in use and changes no other. |
| PatOthers.CompletedState | src/autoconf_pat.c:181-214 | The section that completes a version ends the update, and the PMT of every channel left is asked for again. |
| PatOthers.UpdatedChannel | src/autoconf.c:380-487 | What a status update of all channels does to each of them. |
| PatOthers.RunExtends | src/autoconf_pat.c:222-329 | Over any sections and updates no channel loses its id, a PID or a PMT PID the user set. |
| AutoconfPat.AutoPat.UpdateChannel | src/autoconf_pat.c:222-329 | One program updates the channel array as UpdateChan says. |
| AutoconfPat.AutoPat.BeginVersion | src/autoconf_pat.c:103-131 | A new version clears the sections seen and marks the channels in use. |
| AutoconfPat.AutoPat.Settle | src/autoconf_pat.c:182-214 | Completing a version removes what is still marked. |
| AutoconfPat.AutoPat.UpdateChanStatus | src/autoconf.c:380-487 | Autodetected channels that are not removed go where the decision puts them, without a PMT PID never to READY. |
| AutoconfPat.AutoPat.UpdateChanNet | src/mumudvb_channels.c:268-281 | Channels that are almost ready become READY. |
| AutoconfPat.AutoPat.UpdateChannels | src/autoconf.c:661-673 | Both together are the Update step. |
| AutoconfPat.AutoPat.ReadPat | src/autoconf_pat.c:85-220 | A stored section changes the state as the function of that name says. |
| UnicastClients.Channel.Add | src/unicast_clients.c:257-273 | The client is appended to the channel's doubly-linked list. |
| UnicastClients.Channel.Remove | src/unicast_clients.c:202-220 | The client is taken out of it, the others keep their order. |
| UnicastClients.Server.AddClient | src/unicast_clients.c:73-163 | The new client is appended to the list of all clients. |
| UnicastClients.Server.Join | src/unicast_http.c:1003-1009 | A client is in a channel's list if and only if its chanPtr says so, also when the reply fails. |
| UnicastClients.Server.DelClient | src/unicast_clients.c:175-232 | Both lists lose exactly the client; both stay well linked, acyclic and counted. |
| UnicastClients.Server.Freeing | src/unicast_clients.c:282-292 | All lists end empty. |
| Hls.PlaylistWindow | src/hls.c:163-248 | After any rotations that succeed the playlist lists exactly the last rotate_count closed chunks, oldest first, and media sequence minus the oldest one's number is constant. |
| Hls.MatchesExactlyWhen | src/hls.c:163-248 | After every rotation of a run in which they succeed the files on disk are those named in the array, if and only if no deleted chunk shares its time with one of the rotate_count + 1 chunks after it. |
| Hls.SlidingWindow | src/hls.c:163-248 | Under that condition every file listed exists. |
| Hls.EqualTimesLoseFiles | src/hls.c:412-482 | The input for which it fails: with two rotations in one second a listed file is deleted. |
| Hls.Entry.constructor | src/hls.c:129-161 | An opened entry has one chunk. |
| Hls.Entry.Rotate | src/hls.c:163-248 | A rotation changes names, files, sequence, playlist and stream as said, and stops early, with the names moved on and nothing deleted, when the playlist or the chunk cannot be opened. |
| HlsOpens.NamesAre | src/hls.c:163-241 | Over runs in which files fail to open in any way, the array names the latest chunks, opened or not, and its last place is taken only after a failure. |
| HlsOpens.DiskExactly | src/hls.c:163-248 | Over such runs the files on disk are those of the chunks that were opened, but for each whose turn to be deleted, rotate_count + 1 rotations later, came with a rotation that succeeded; the others stay for good. |
| HlsOpens.SequenceCounts | src/hls.c:175-245 | The sequence number counts the rotations completed, and which are follows from what could be opened alone. |
| HlsOpens.PlaylistIsLast | src/hls.c:175-222 | The playlist is the one of the last rotation for which one was due and could be opened; it also lists chunks whose file could not be opened. |
| HlsOpens.StreamOpenExactlyWhen | src/hls.c:170-232 | The stream is open after a rotation if and only if it was completed. |
| Expressions.AtoiOfDecimal | src/mumudvb_common.c:265-274 | A written number is read back. |
| Expressions.ProductRead | src/mumudvb_common.c:258-275 | A written product is evaluated to the product of its numbers. |
| Expressions.ExpressionRead | src/mumudvb_common.c:224-252 | A written sum of products is evaluated with products before sums. |
| Expressions.NoOverflowExactlyWhen | src/mumudvb_common.c:224-275 | Evaluating a written expression overflows no int, if and only if in each product every product of the last factors fits and so does the value. |
| Expressions.NoZeroExactlyWhen | src/mumudvb_common.c:258-275 | For products without a zero it is enough that the product itself fits. |
| Expressions.ZeroHidesOverflow | src/mumudvb_common.c:258-275 | With a zero it is not: 0*65536*32768 overflows. |
| Literals.AtoiOfLiteral | src/mumudvb_common.c:265-274 | White space, a sign and zeros before a number and text behind it are read as atoi reads them. |
| Literals.NoNumber | src/mumudvb_common.c:265-274 | Text without a number is zero. |
| Literals.TermsRead | src/mumudvb_common.c:224-275 | Sums of products of such numbers, negative ones too, are evaluated with products before sums. |
| StringReplace.MarksDecrease | src/mumudvb_common.c:170-188 | A character that occurs more often in the pattern than in the replacement becomes rarer with each replacement, so the loop ends. |
| StringReplace.ShorterIsLighter | src/mumudvb_common.c:170-188 | A replacement shorter than the pattern always has such a character. |
| StringReplace.NoneLeft | src/mumudvb_common.c:170-188 | No occurrence of the pattern is left. |
| StringReplace.NeverDone | src/mumudvb_common.c:170-188 | A replacement that contains the pattern leaves an occurrence after any number of rounds: the loop does not end. |
| StringReplace.SimultaneousExactlyWhen | src/mumudvb_common.c:170-188 | For a pattern with a mark only at its start and none in the replacement: the loop does what one pass replacing all occurrences does, if and only if that pass leaves no occurrence. |
| StringReplace.AlwaysSimultaneousExactlyWhen | src/mumudvb_common.c:170-188 | It does so in every source if and only if no proper end of the pattern and the replacement agree as far as both go. |
| StringReplace.ApartNeverOverlaps | src/mumudvb_common.c:170-188 | So for a replacement that is not empty and shares no character with the pattern. |
| StringReplace.EmptyReplacementJoins | src/mumudvb_common.c:184-187 | For an empty replacement of a longer pattern there is a source in which it does not. |
| StringReplace.Strstr | src/mumudvb_common.c:155 | The first occurrence. |
| StringReplace.ReplaceInCopy | src/mumudvb_common.c:157-189 | The loop computes Replaced and the size of the result. |
| StringReplace.MumuStringReplace | src/mumudvb_common.c:145-217 | The source is unchanged without an occurrence, else holds the result, cut to its length exactly when it is too long and may not be reallocated. |

## Left out

- Sockets, poll, devices, files, threads' clocks, signals, logging and configuration: time and the success of opening a file or writing a reply are parameters, log calls are nothing, memory allocation succeeds.
- The mutexes themselves: each critical section is one step; the descrambler's unlocked phase is a step for each packet and pass, so finer interleavings within one library call on one packet are not distinguished.
- The ring's data as one flat byte array, and its time stamps: slots hold whole packets, and waiting is any interleaving. Decryption is any function of key and payload that keeps the length.
- Counters of scrambled and sent packets (src/scam_send.c:123-138, src/mumudvb_common.c:395-411).
- CrcTable.TableIsDivision: the table is written as sixteen rows of sixteen constants; the program has one array.
- Signing.WideCrc: models a 64-bit unsigned long; with a 32-bit one the accumulator is the checker's own.
- TsPacket.Assembler.GetTsPacket: the fields are those of one structure; the reserve of bytes behind its arrays and the lock are not modelled.
- EitCursor.Channel.NextToSend: full_eit_ok is always set for an entry in use and is not a field; the test that the channel is ready and the packet starts a section (src/rewrite_eit.c:336-344) is the caller's.
- EitGlobal.EitRewriter.Drain: the copy stored is the whole result buffer; only its first len bytes are the section, so a section shorter than its header is judged by bytes left from before, as in the program.
- EitGlobal.EitRewriter.NewGlobalPacket: the version test on the raw packet (eit_need_update) is a parameter, so all is proved for either answer; it may read past the packet's end.
- EitChain.SentCameIn: packets the version test holds back never reach the reassembler and are not part of a run.
- PatChain.ChannelLists: packets the version test holds back never reach the reassembler and are not part of a run; a channel keeps its table while the version number stays, whatever else came with that number.
- PatGlobal.PatRewriter.NewGlobalPacket: the version test on the raw packet (pat_need_update) is a parameter, so all is proved for either answer. As in the program, version and flags come from the result buffer, behind a short section from bytes left from before.
- SdtRewrite.Rewriter.ChannelRewrite: requires that the walk over the descriptors of entries with the channel's service id stays in the buffer and ends (SdtSection.WalkableExactlyWhen); otherwise the program reads outside its buffer or does not return. The SDT update loop (src/rewrite_sdt.c:334-393) is not modelled.
- SdtRewrite.FindService: requires the same.
- SdtRewrite.CopyService: requires the descriptors of its entry to be walkable.
- SdtRewrite.CopyDescriptors: requires its descriptors to be walkable.
- PatVersions.VersionCompleted: the events are those from the first section of a version to its completion; a version that never completes is covered by PatVersions.VersionKnown. What the status update decides from CA mode, service type and the lists of ids is a parameter, and updates may come at any time, more often than the program makes them.
- AutoconfPat.AutoPat.UpdateChannel: of a channel only id, status, PMT PID, PID list and PMT version are modelled, and the PID list is unbounded.
- T2miRun.RunRenders: requires room in the output buffer, T2-MI packets of at least 8 bytes that fit the gathering buffer, pointer fields inside their packets and at most one T2-MI packet starting in each; the last T2-MI packet counts once the next one starts.
- T2miDemux.Demultiplexer.Processt2: requires that the reads and writes the program does not check stay in its buffers (T2mi.Safe); T2miBounds says exactly when they do. That a wrapped count is an address outside the output buffer is for 64-bit pointers, and the output buffer is at most 2^30 bytes. char is signed, so PLP ids from 128 on never match; moving the unfinished packet to the front of the output buffer between reads and the reset after damage (src/mumudvb.c:1514-1551) are not modelled.
- UnicastClients.Server.AddClient: socket options, the request buffer and the send queue are not modelled.
- Hls.SlidingWindow: names are pairs of service and time rather than formatted text, hls_rotate_count is at least 1; the playlist's text is its list of names. These runs succeed; failures are HlsOpens', where times differ.
- HlsOpens.DiskExactly: for chunks of different times. The closed stream that is left after a failed rotation, which the program goes on using, is Entry.stream; what using it does is undefined and not modelled.
- StringReplace.MumuStringReplace: the working copy is a sequence, so the memmove inside it is not modelled; requires some character to occur more often in the pattern than in the replacement. Whether the loop ends for every other pair is termination of one-rule rewriting, with no known general test.
- StringReplace.ReplaceInCopy: requires the same.
- StringReplace.NoneLeft: requires the same.
- StringReplace.SimultaneousExactlyWhen: for patterns whose first character is nowhere else in pattern or replacement; others, such as a name that contains %, are covered by NoneLeft and NeverDone only.
- Expressions.ExpressionRead: numbers are unbounded, so it speaks of the program when Expressions.NoOverflowExactlyWhen says that no int overflows; signs, spaces and text around the numbers are Literals'.
- Expressions.ProductRead: numbers are unbounded, as above (Expressions.ProductFitsExactlyWhen).
- Expressions.AtoiOfDecimal: numbers are unbounded, as above.
- RingThreads.Channel.SetCa: the count of references that guards the index (src/scam_getcw.c:199-215) is left out, so any change at any time is allowed.
- PMT rewriting, channel filters, MJD dates, scrambling hysteresis, the CAM, SAP, tuning, ATSC and NIT display and the threaded read loop: outside this model, most of them easy or not what their comments say.
