# Stream recording and drivers of the d-box: a verified model

This project models the parts of the d-box software that hold real algorithms, and proves what they are
for. Each module is named after what it models.

- **ggrab, the streaming recorder.** `RingBuffer` is the byte ring with its three-byte mirror; `Recorder`
  is every interleaving of the three threads that share it, and `Indexing` says what their index holds of the
  stream; `Index` links that to the pictures that `VideoPacks` and `VideoRuns` pack into program packs; `Multiplex` chooses the next pack and gives it its clock reference;
  `Recording` puts the two together; `Propack` and `Timestamps` are the pack and its time stamps.
- **grab, the other recorder.** `Handover` is the two-thread protocol that passes buffers on; `PesParser`
  and `AudioInput` find PES packets in input that arrives in pieces; `PesCutter` and `CutTimes` cut elementary
  data into PES packets and time them; `Merge` merges the two streams by time stamp, `Steadiness` says when it
  gives up, and `MpgWriter` does it in place; `Packs` and `Remuxer` put the packets into packs of 2048 bytes.
- **mkfs.jffs2 and mkdnimg.** `Rtime` is the rtime codec; `CrcTable` and `Crc` are the table-driven CRC-32.
- **Drivers.** `Spi` and `Mmc` are the bit-banged card driver, `MmcCard` a card for it; `Events` the event queue; `RemoteControl`
  the remote handlers; `IdeFifo` the drain of the read-ahead FIFO; `Dvb2eth` the datagram cutter.

`Bits`, `Cyclic`, `Bytes` and `Options` are small helpers.

Code that works in place is a class or a method with loops, proved against functions on sequences;
protocols of several threads are state machines over their atomic steps, with theorems about every
reachable state. `dafny verify dfyconfig.toml` checks everything.

Where the code does something other than what it is meant to do, the model follows the code:

- ggrab writes the low bits of a PTS shifted the wrong way, so stamps are up to 96 ticks early
  (`Timestamps.PtsGIsClose`).
- In ggrab, a picture that ends exactly with its pack leaves the next one without a stamp
  (`VideoRuns.FrontStamp` says exactly when, `VideoRuns.ExactFitLosesStamp` shows the case). The data
  alignment bit of line 153 of `pesstream.cpp` is never set, because the flag it depends on has just been
  cleared.
- ggrab corrects its stamps once when the 33-bit clock wraps, but only if they are counted from beyond 2^32
  (`VideoRuns.WrapIsCorrected`, `VideoRuns.WrapIsMissed`).
- The pack with grab's system header is not tiled by its length fields (`Packs.SystemPackDoesNotTile`).
- `mkusbimg` starts its checksum so that leading zero bytes go unnoticed (`Crc.LeadingZeroIsUnnoticed`,
  with the exact condition).
- `dboxide_insw` moves up to three words too many for counts from 5 on that are not multiples of four
  (`IdeFifo.MovedIsExact`).
- A ring search misses a committed start code, until it times out, exactly if that reaches over the
  physical end and fewer than three bytes are committed beyond it (`RingBuffer.CBuffer.SearchStreamId`;
  `RingBuffer.MissedAtTheEnd` is such a case).
- rtime keeps positions in 16-bit integers. Its law holds for inputs of any length on which the encoder does
  not look in front of its input (`Rtime.Safe`, which is exactly when `Rtime.Compress` does not fault). Given
  enough room, all inputs of a length are of this kind exactly up to 32769 bytes (`Rtime.LengthDecides`).
- grab's parser hands over audio packets whose header reaches beyond their size (`PesCutter.UnderflowArrives`);
  on those, and only on those, `create_audio_pes` computes a negative size and runs beyond its buffer
  (`PesCutter.CreateAudioPes`, result `fault`).
- After an invalid header grab's parser looks at fewer bytes than it has and may find a complete packet only
  when more data arrives (`PesParser.SearchMayStopEarly`); unless a start code in the buffer has an invalid
  header, everything that can be decided is handed over at once (`AudioInput.AudioBuffer.Supply`).

## Model

| member | source | states |
|---|---|---|
| `RingBuffer.CBuffer.constructor` | hostapps/ggrab/cbuffer.cpp:12-28 | an empty stream, all positions 0, the ring's invariant holds |
| `RingBuffer.CBuffer.GetNextFillBuffer` | hostapps/ggrab/cbuffer.cpp:34-54 | the granted region is inside the ring, touches no live cell, leaves one cell free, cannot be longer, and is empty only when the ring is full |
| `RingBuffer.CBuffer.CommitFillBuffer` | hostapps/ggrab/cbuffer.cpp:56-69 | exactly the bytes in the granted cells are appended to the stream |
| `RingBuffer.CBuffer.DiscardToPtr` | hostapps/ggrab/cbuffer.cpp:76-95 | succeeds exactly for positions inside the window; every remaining position keeps its cell |
| `RingBuffer.CBuffer.GetByteCount` | hostapps/ggrab/cbuffer.cpp:97-108 | the number of live bytes, always less than the ring size |
| `RingBuffer.CBuffer.SearchStreamId` | hostapps/ggrab/cbuffer.cpp:110-209 | returns the least matching position at or after the start among at most `len` candidates of the logical stream, whatever is committed or discarded while it waits; reports none only if none of the candidates matches; times out on a committed match exactly if the first one reaches over the physical end with fewer than three bytes beyond it, and never unless some candidate is not all there or does so |
| `RingBuffer.MaskedBit` | hostapps/ggrab/cbuffer.cpp:147-147 | a bit of a masked byte is set exactly if it is set in the byte and in the mask |
| `RingBuffer.VideoCodes` | hostapps/ggrab/list.cpp:54-54 | the search for 0xe0 under the mask 0xf0 finds 00 00 01 and an id from 0xe0 to 0xef, and nothing else |
| `RingBuffer.AnyCodes` | hostapps/ggrab/list.cpp:28-28 | the search for 0 under the mask 0 finds every 00 00 01 with a byte behind it |
| `RingBuffer.StampFlag` | hostapps/ggrab/tools.cpp:13-13 | the test of the stamp flag holds exactly of bytes from 0x80 on |
| `RingBuffer.CBuffer.StraddlesOn` | hostapps/ggrab/cbuffer.cpp:158-168 | behind a candidate the search does not look at there are only others of that kind |
| `RingBuffer.MissedAtTheEnd` | hostapps/ggrab/cbuffer.cpp:158-200 | a ring of eight bytes in which a committed start code is missed |
| `RingBuffer.CBuffer.CopyBuffer` | hostapps/ggrab/cbuffer.cpp:212-265 | copies exactly the logical bytes, across the physical end too; fails exactly for discarded positions or missing data, and then copies nothing |
| `RingBuffer.CBuffer.RemovePadding` | hostapps/ggrab/cbuffer.cpp:268-307 | the length without trailing zeros but four, read backwards through the ring; of committed bytes, that of the stream |
| `RingBuffer.Unpadded` | hostapps/ggrab/cbuffer.cpp:268-307 | what is cut off is zero, exactly four zeros are left if anything is cut, and nothing is cut of four zeros or fewer |
| `RingBuffer.CBuffer.ShownStartCode` | hostapps/ggrab/cbuffer.cpp:143-186 | a start code in the physical cells, mirror included, is one in the stream and the other way round |
| `RingBuffer.NoStartCodeGrows` | hostapps/ggrab/cbuffer.cpp:110-209 | candidates once rejected stay rejected when more data is committed |
| `RingBuffer.CommitHolds` | hostapps/ggrab/cbuffer.cpp:56-69 | committed cells show the longer stream |
| `RingBuffer.WriteHolds` | hostapps/ggrab/cbuffer.cpp:34-54 | writing into granted cells changes nothing that is live |
| `Recorder.RunsAreSafe` | hostapps/ggrab/list.cpp:12-86 | in every reachable state of network thread, indexer and multiplexer: no exit for positions outside the buffer can be taken, the ring shows the live window modulo its size, no granted cell is live, list elements are ascending, disjoint and inside the window, and what was copied out is the elements' bytes in order |
| `Indexing.RunsAreIndexed` | hostapps/ggrab/list.cpp:26-84 | in every reachable state: each element, removed or in the list, goes from the first start code behind a video PES header to the next such header, less zeros only, four of which stay if any are cut off, and none are cut off of four or fewer; the header before it is the one whose stamp it bears, and its flag tells the kind of its start code; the elements follow each other without a header left out; and the first one is the first sequence start whose last header is stamped |
| `Indexing.IndexerKeeps` | hostapps/ggrab/list.cpp:26-84 | every step of the indexer keeps this |
| `Indexing.FirstFound` | hostapps/ggrab/list.cpp:27-42 | the search at the beginning ends at the first stamped sequence start |
| `Indexing.SoughtPast` | hostapps/ggrab/list.cpp:27-42 | a start code passed over is not a stamped sequence start |
| `Indexing.EndFound` | hostapps/ggrab/list.cpp:54-54 | the end found is the first video header behind the one before the element |
| `Indexing.UnpaddedIsTrimmed` | hostapps/ggrab/list.cpp:56-56 | what trimming the length means in the stream |
| `Recorder.InvIsSafe` | hostapps/ggrab/list.cpp:43-84 | the invariant excludes every error exit of all three threads |
| `Recorder.ProducerKeeps` | hostapps/ggrab/cbuffer.cpp:34-69 | granting, writing and committing keep the invariant |
| `Recorder.IndexerKeeps` | hostapps/ggrab/list.cpp:26-84 | every step of the indexer keeps the invariant |
| `Recorder.ConsumerKeeps` | hostapps/ggrab/list.cpp:230-266 | fetching, copying byte by byte and the two halves of discarding an element keep the invariant |
| `Recorder.CopyCellIsRemainder` | hostapps/ggrab/cbuffer.cpp:234-262 | the two-piece copy from a snapshot of the indices reads the cells of consecutive logical positions |
| `Recorder.EndIsBehindStart` | hostapps/ggrab/list.cpp:54-56 | the end the indexer finds is never before the element's start |
| `Recorder.RunKeeps` | hostapps/ggrab/list.cpp:43-84 | the invariant holds in every state of every run |
| `Recorder.SearchNeverGivesUp` | hostapps/ggrab/cbuffer.cpp:110-209 | the indexer's searches never report failure |
| `Index.CopiesArePictures` | hostapps/ggrab/list.cpp:249-266 | in every reachable state of the three threads, what the multiplexer has copied out is the beginning of the pictures in the index |
| `Index.PicturesStay` | hostapps/ggrab/list.cpp:58-66 | in every run a step adds at most one picture at the end and changes none, bytes, stamps or flags |
| `Index.FirstPicture` | hostapps/ggrab/list.cpp:34-38 | the first picture starts a sequence and has a stamp |
| `Index.FlaggedByCode` | hostapps/ggrab/list.cpp:77-82 | a picture is flagged as sequence or group start exactly if its fourth byte says so |
| `Index.PicturesAreText` | hostapps/ggrab/list.cpp:60-63 | the pictures one after the other are the bytes of the elements |
| `VideoPacks.VideoStream.FillVideo` | hostapps/ggrab/pesstream.cpp:100-222 | each call fills the pack exactly and does what `Filled` says: the stretch of the stream, the stamp, the padding, the flags, the wanted clock reference and the next place; it times out exactly if none of the pictures to come would end the pack in front of it and all that is left of the stream fits in |
| `VideoPacks.ExhaustedFillsNone` | hostapps/ggrab/pesstream.cpp:163-220 | then there is no pack at all that would be filled as it should |
| `VideoPacks.EndReached` | hostapps/ggrab/pesstream.cpp:176-180 | running out of pictures within a pack means that this condition held at its start |
| `VideoPacks.VideoStream.Round` | hostapps/ggrab/pesstream.cpp:163-220 | one copy keeps the pack a header followed by a stretch of the stream, or completes it, or finds the pictures at an end before the pack |
| `VideoPacks.VideoStream.AfterPicture` | hostapps/ggrab/pesstream.cpp:176-219 | at the end of a picture the pack is padded before a sequence start or a small rest, and otherwise goes on |
| `VideoPacks.VideoStream.InsertStamp` | hostapps/ggrab/pesstream.cpp:212-217 | the late stamp moves the data up five bytes without changing it |
| `VideoPacks.VideoStream.PutHeader` | hostapps/ggrab/pesstream.cpp:143-161 | the PES header with or without a stamp; what precedes it in the pack is untouched |
| `VideoPacks.VideoStream.NextPicture` | hostapps/ggrab/pesstream.cpp:177-185 | the next picture, or a timeout exactly if there is none; the offset for wrapped stamps |
| `VideoPacks.VideoStream.Prepare` | hostapps/ggrab/pesstream.cpp:119-128 | the first call starts with the first picture |
| `VideoPacks.VideoStream.constructor` | hostapps/ggrab/pesstream.cpp:24-47 | nothing fetched yet |
| `VideoPacks.FilledIsUnique` | hostapps/ggrab/pesstream.cpp:100-222 | `Filled` determines bytes, padding, flags and next place from where a pack begins and its length |
| `VideoPacks.Rooms` | hostapps/ggrab/pesstream.cpp:199-217 | a picture that begins within a pack starts no sequence and finds 30 bytes of room; one that a pack ends before starts a sequence or finds less |
| `VideoPacks.GoesOn` | hostapps/ggrab/pesstream.cpp:212-217 | a pack that goes on carries the stamp of the first picture to begin within, put in late or not |
| `VideoPacks.FullBefore` | hostapps/ggrab/pesstream.cpp:187-210 | a pack that ends before a picture is exactly full |
| `VideoPacks.PictureInStream` | hostapps/ggrab/list.cpp:249-266 | a picture's bytes are where its start says in the concatenation |
| `VideoRuns.RunCarriesStream` | hostapps/ggrab/pesstream.cpp:100-222 | over any number of calls a reader of the packs gets the concatenated pictures: nothing lost, repeated or reordered, stamps put in late included |
| `VideoRuns.SequenceStartsBeginPacks` | hostapps/ggrab/pesstream.cpp:187-204 | every sequence start sent begins a pack, which is flagged and carries its stamp, at most 96 ticks early, and its wanted clock reference |
| `VideoRuns.LastPack` | hostapps/ggrab/pesstream.cpp:100-222 | every pack of a run: the length field covers it, padding only before a picture about to begin, flagged exactly if a sequence starts at its front, none starts within |
| `VideoRuns.RunPrefix` | hostapps/ggrab/pesstream.cpp:100-222 | what holds of the last pack of every run holds of every pack |
| `VideoRuns.FrontStamp` | hostapps/ggrab/pesstream.cpp:156-161 | a picture at the front of a pack is stamped there exactly if it is the first of all, starts a sequence, or follows padding |
| `VideoRuns.ExactFitLosesStamp` | hostapps/ggrab/pesstream.cpp:205-217 | a picture that ends exactly with its pack leaves the next one without a stamp |
| `VideoRuns.ExactFitHappens` | hostapps/ggrab/pesstream.cpp:205-217 | a sequence start of 2020 bytes and a picture of one byte: the second pack begins with the latter and carries the stamp of the picture after it |
| `VideoRuns.PackReads` | hostapps/ggrab/pesstream.cpp:102-161 | reading the bytes back gives length, payload, padding and stamp; the data alignment bit is not set |
| `VideoRuns.WantedClock` | hostapps/ggrab/pesstream.cpp:193-194 | a sequence start about to begin wants its stamp less the forerun |
| `VideoRuns.WrapIsCorrected` | hostapps/ggrab/pesstream.cpp:183-185 | if stamps are counted from beyond 2^32, those of pictures in steps of less than 200000 ticks stay right when the 33-bit clock wraps |
| `VideoRuns.WrapIsMissed` | hostapps/ggrab/pesstream.cpp:183-185 | if not, they are not corrected |
| `Multiplex.ScrsAreAdmissible` | hostapps/ggrab/ggrab.cpp:473-479 | every clock reference is at least the wanted one, and neighbours are at least the time of one pack apart |
| `Multiplex.ScrsAreEarliest` | hostapps/ggrab/ggrab.cpp:473-479 | no other references with these properties are earlier |
| `Multiplex.RateIsKept` | hostapps/ggrab/ggrab.cpp:439-485 | between any two packs no more is sent than the multiplex rate allows, whichever streams are chosen |
| `Multiplex.RateAsRead` | hostapps/ggrab/tools.cpp:91-112 | the same for the references as they are read back from the headers of packs less than 2^32 ticks apart, modulo 2^32, up to rounding and the tick lost where the written value starts again |
| `Multiplex.ReadsBack` | hostapps/ggrab/tools.cpp:91-112 | every reference is read back rounded down modulo 2^32, except one tick too high in the last tick before 2^33 |
| `Multiplex.ChooseNext` | hostapps/ggrab/ggrab.cpp:445-454 | the least wanted reference, the first of equal ones; the last stream again if all are out of range |
| `Multiplex.ServedInOrder` | hostapps/ggrab/ggrab.cpp:445-485 | if no stream goes back in time, the packs go out in the order of their wanted references |
| `Multiplex.Multiplexer.Round` | hostapps/ggrab/ggrab.cpp:439-485 | one round: which pack goes out, when the recording ends, when a file begins; all packs keep the schedule, and every file but the first begins with a sequence start |
| `Multiplex.Multiplexer.Send` | hostapps/ggrab/ggrab.cpp:473-482 | the chosen pack goes out with the later of its wanted reference and the clock; only its reference changes |
| `Multiplex.Multiplexer.Select` | hostapps/ggrab/ggrab.cpp:441-465 | which stream is served, and that the recording ends only before a sequence start |
| `Multiplex.Multiplexer.Refill` | hostapps/ggrab/ggrab.cpp:484-485 | only the stream served gets a new pack |
| `Multiplex.Multiplexer.Put` | hostapps/ggrab/ggrab.cpp:467-482 | no pack is lost when files change, and files change only at sequence starts |
| `Multiplex.Multiplexer.constructor` | hostapps/ggrab/ggrab.cpp:382-396 | nothing sent, clock 0 |
| `Multiplex.ScheduleGrows` | hostapps/ggrab/ggrab.cpp:473-479 | the running clock gives every pack the reference of the closed schedule |
| `Multiplex.Dispatch` | hostapps/ggrab/tools.h:71-73 | filling in the reference changes bytes 4 to 9 only |
| `Recording.Session.PicturesAreRecorded` | hostapps/ggrab/ggrab.cpp:439-485 | over every recording, the payloads of the video packs in all files are the indexed pictures one after the other, up to where the waiting pack begins |
| `Recording.Session.FilesBeginWithSequences` | hostapps/ggrab/ggrab.cpp:467-471 | every file but the first begins with a pack at whose front a sequence starts |
| `Recording.Session.Round` | hostapps/ggrab/ggrab.cpp:439-485 | one round of the loop with the video stream sends exactly one pack, unless the recording ends, which is before a sequence start and sends nothing; a video pack sent is followed by one more call of `fill_video_pp`, which fails exactly if the pictures end before the next pack |
| `Recording.Session.SendVideo` | hostapps/ggrab/ggrab.cpp:473-484 | the bytes in the pack after `fill_scr` are the bytes sent, and carry the packet filled in before |
| `Recording.Session.RefillVideo` | hostapps/ggrab/ggrab.cpp:485-485 | the next pack continues the run, unless the pictures end before it is full |
| `Recording.Session.ServeAudio` | hostapps/ggrab/ggrab.cpp:473-485 | packs of other streams leave the video packs alone |
| `Recording.Session.constructor` | hostapps/ggrab/ggrab.cpp:400-435 | a recording with its first video pack waiting |
| `Recording.Open` | hostapps/ggrab/ggrab.cpp:400-435 | the first video pack holds the system header before its packet; there is no recording exactly if the pictures end before that pack is full |
| `Recording.CarriedPayloads` | hostapps/ggrab/ggrab.cpp:478-482 | packs that carry the packets of calls read like the calls |
| `Recording.DispatchCarries` | hostapps/ggrab/ggrab.cpp:478-478 | filling in the reference leaves the packet alone |
| `Propack.Propack.FillScr` | hostapps/ggrab/tools.cpp:91-112 | bytes 4 to 9 become the clock reference, the rest stays |
| `Propack.Propack.FillPts` | hostapps/ggrab/tools.cpp:56-78 | flag, length and the five bytes of the stamp; the rest stays |
| `Propack.Propack.Reset` | hostapps/ggrab/tools.h:62-65 | filling starts again behind the header |
| `Propack.Propack.constructor` | hostapps/ggrab/tools.h:36-60 | the fixed parts of the pack header |
| `Propack.DeclaredRate` | hostapps/ggrab/tools.h:50-52 | the rate field read back is the multiplex rate |
| `Propack.PtsTicks` | hostapps/ggrab/tools.cpp:61-69 | stamps within 33 bits are rounded down, negative ones and those of the two ticks around 2^33 become 0, later ones lose one tick more than 2^33 |
| `Propack.ScrTicks` | hostapps/ggrab/tools.cpp:96-104 | references within 33 bits are rounded down, negative ones and those of the last tick become 0, later ones lose 2^33 |
| `Timestamps.PtsRoundTrip` | hostapps/grab/Remuxer.h:361-400 | grab reads back what it wrote modulo 2^32, a full reader modulo 2^33 |
| `Timestamps.PtsGIsClose` | hostapps/ggrab/tools.cpp:56-78 | ggrab's stamp read back by ggrab is exactly the value with its low seven bits divided by four, 0 to 96 ticks early |
| `Timestamps.PtsGIsMonotone` | hostapps/ggrab/tools.cpp:56-78 | later times never give earlier stamps |
| `Timestamps.ScrRoundTrip` | hostapps/ggrab/tools.cpp:40-54 | a clock reference read back is the value modulo 2^32 |
| `Timestamps.PtsDiffIsShortest` | hostapps/grab/Remuxer.h:65-93 | on 32-bit stamps: antisymmetric, congruent modulo 2^32, at most 2^31 in size |
| `Packs.RunsAreLossless` | hostapps/grab/Remuxer.cpp:948-1211 | over every sequence of writes and flushes all packs have 2048 bytes, length fields tile each pack exactly if it has no system header, and an independent reader gets back all elementary data in order |
| `Packs.RunsAreRead` | hostapps/grab/Remuxer.cpp:948-1211 | over every such sequence the reader, who follows length fields and reads clock references, rates and stamps from the bytes, finds for each write what is due, in order, and nothing else but the padding of flushes |
| `Packs.WriteHeard` | hostapps/grab/Remuxer.cpp:948-1171 | what is due: every pack opened at a data offset has the reference of that offset modulo 2^32 and the multiplex rate; the first packet is stamped exactly if the source has a stamp and the caller wants one, a later one only if all are wanted and the duration is known, with the stamp of its offset modulo 2^33; stuffing of less than 20 bytes; a packet fills its pack or ends the data; the first pack opened has the system header exactly if it is due |
| `Packs.FlushHeard` | hostapps/grab/Remuxer.cpp:1175-1211 | a flush adds one padding packet if a pack has been begun, and nothing otherwise |
| `Packs.FirstStamp` | hostapps/grab/Remuxer.cpp:974-1057 | in data that begins a pack the first packet follows the reference of its own offset |
| `Packs.WriteContents` | hostapps/grab/Remuxer.cpp:948-1171 | one call adds exactly the packet's data |
| `Packs.FlushContents` | hostapps/grab/Remuxer.cpp:1175-1211 | flushing adds nothing to the data |
| `Packs.NextChunk` | hostapps/grab/Remuxer.cpp:1087-1098 | each packet takes at least one byte, fits, and fills the pack or leaves at least 20 bytes |
| `Packs.Round` | hostapps/grab/Remuxer.cpp:964-1166 | every round makes progress, and the pack is empty or has at least 20 bytes left |
| `Packs.PacketRound` | hostapps/grab/Remuxer.cpp:1044-1166 | one packet round keeps the packs tiled and adds that packet, behind a clock reference if it opens a pack |
| `Packs.DemuxChunk` | hostapps/grab/Remuxer.cpp:1100-1147 | the reader finds id, stamp, stuffing and data of a written packet, AC3 bytes removed |
| `Packs.DemuxJoin` | hostapps/grab/Remuxer.cpp:948-1211 | packets put behind tiled ones are read after them |
| `Packs.SystemPackDoesNotTile` | hostapps/grab/Remuxer.cpp:1002-1042 | the system header's pack is not tiled by its length fields |
| `Packs.SystemHeaderReads` | hostapps/grab/Remuxer.cpp:1004-1032 | the rate bound of the system header is the multiplex rate, and it names the two streams |
| `Packs.FreshPackHoldsOnePacket` | hostapps/grab/Remuxer.cpp:1481-1497 | an audio packet cut to size goes unsplit into a fresh pack |
| `Remuxer.PackBuffer.WritePesInPp` | hostapps/grab/Remuxer.cpp:948-1171 | the in-place writer does what the function on sequences says, for every packet and flag |
| `Remuxer.PackBuffer.OneRound` | hostapps/grab/Remuxer.cpp:964-1166 | one round of the loop in place |
| `Remuxer.PackBuffer.PutSystemPack` | hostapps/grab/Remuxer.cpp:1002-1042 | the bytes of the system pack, two stale ones included |
| `Remuxer.PackBuffer.FlushPp` | hostapps/grab/Remuxer.cpp:1175-1211 | padding to exactly 2048 bytes, or nothing |
| `Remuxer.PackBuffer.constructor` | hostapps/grab/Remuxer.h:205-206 | an empty pack |
| `MpgWriter.Merger.WriteMpg` | hostapps/grab/Remuxer.cpp:1215-1519 | each call writes merged packets until a list has fewer than three or the heads of the lists and their surroundings are more than a second apart; the file then holds the data of exactly those packets too, and a reader finds each of them with its times; each was written when all of these were within a second; nothing else is dropped unless a start is being looked for, and then what `Settle` says; while all packets carry stamps, each is written when the clock shows its time; on even streams it never gives up |
| `MpgWriter.Merger.MergePackets` | hostapps/grab/Remuxer.cpp:1320-1516 | the loop writes the merged sequence of the two lists until one has fewer than three packets, or gives up, which it does exactly if the times are more than a second apart |
| `MpgWriter.Merger.GoOn` | hostapps/grab/Remuxer.cpp:1362-1501 | one more packet |
| `Steadiness.SteadyRuns` | hostapps/grab/Remuxer.cpp:1366-1393 | if packets are stamped and in order, neighbours in each list and the two heads at most a second apart, and the clock on time, then the merge never gives up, however many packets are written, and stays so |
| `Steadiness.SteadyGoesOn` | hostapps/grab/Remuxer.cpp:1362-1501 | one packet keeps this |
| `Steadiness.SteadyIsSound` | hostapps/grab/Remuxer.cpp:1369-1373 | then all four differences are within a second, across the wrap of the 32-bit clock |
| `Steadiness.SyncIsSteady` | hostapps/grab/Remuxer.cpp:1283-1300 | a common start of even streams is such a state |
| `Steadiness.WrittenWithin` | hostapps/grab/Remuxer.cpp:1369-1393 | whatever is written, the head times, the video time and the clock, and the next stamps of both lists were at most a second apart |
| `Steadiness.NotBroken` | hostapps/grab/Remuxer.cpp:1369-1373 | the emergency test fails exactly if all of these are within a second |
| `Steadiness.DiffsAdd` | hostapps/grab/Remuxer.h:65-93 | small differences add up, across the wrap too |
| `MpgWriter.Merger.WriteNext` | hostapps/grab/Remuxer.cpp:1395-1501 | one round writes the chosen packet, removes it and advances the clock; a reader finds it with the times of the lists |
| `MpgWriter.Merger.FindStart` | hostapps/grab/Remuxer.cpp:1227-1310 | drops what `Settle` says from the fronts; a start is found unless a list is empty, and then the clock is at the video stamp and the play time runs on |
| `MpgWriter.Merger.Compare` | hostapps/grab/Remuxer.cpp:1232-1309 | one comparison of the two heads |
| `MpgWriter.Merger.Restart` | hostapps/grab/Remuxer.cpp:1222-1317 | the search for a start keeps streams timed and even |
| `Merge.SettleEnds` | hostapps/grab/Remuxer.cpp:1227-1310 | the search ends with a common start or an empty list, and drops nothing of a common start |
| `Merge.DroppedForCause` | hostapps/grab/Remuxer.cpp:1231-1308 | every packet dropped has cause: sound that cannot start a stream, or is not later than a stamped video packet, or is too far from a sequence start; video without a stamp, or earlier than some sound and no sequence start or too far away |
| `Merge.StartReads` | hostapps/grab/Remuxer.cpp:1244-1283 | a common start in numbers: AC3 data begins with 0b 77, the video packet is marked, the sound is later by less than a 22nd of a second |
| `MpgWriter.Merger.PerformResync` | hostapps/grab/Remuxer.h:247-262 | both lists are emptied |
| `MpgWriter.Merger.PutPacket` | hostapps/grab/Remuxer.cpp:1445-1501 | the packet's data and nothing else is added to the file, behind the padding of the pack before if it is marked; a reader finds what is due of it |
| `MpgWriter.Merger.PutData` | hostapps/grab/Remuxer.cpp:1464-1497 | sound and sequence starts are stamped, sound in every piece, and the pack of a sequence start has the system header |
| `MpgWriter.Merger.BeginPack` | hostapps/grab/Remuxer.cpp:1448-1484 | the pack is flushed exactly if the packet is marked |
| `MpgWriter.Merger.constructor` | hostapps/grab/Remuxer.h:177-224 | an empty file, looking for a start |
| `Merge.MergeConserves` | hostapps/grab/Remuxer.cpp:1403-1501 | what is written of each list and what is left of it are the list, in order |
| `Merge.MergeInOrder` | hostapps/grab/Remuxer.cpp:1403-1441 | packets written one after the other do not go back in time, across wrap-around, if the lists do not |
| `Merge.VideoOnlyIfEarlier` | hostapps/grab/Remuxer.cpp:1403-1441 | sound goes first unless the video is earlier |
| `Merge.ClockFollows` | hostapps/grab/Remuxer.cpp:1398-1499 | once on time the clock shows the time of every packet as it is written, modulo 2^32, and stays on time |
| `Merge.SecondLeads` | hostapps/grab/Remuxer.cpp:1403-1441 | the packet looked ahead to is the one written next, or one of the same time |
| `Merge.SyncIsOnTime` | hostapps/grab/Remuxer.cpp:1283-1300 | after a start is found the video packet is first and the clock shows its time |
| `Merge.PresentationLead` | hostapps/grab/Remuxer.cpp:974-1073 | video is presented 27000 ticks after its clock reference, sound 8000, whatever the duration |
| `Merge.LeadAsRead` | hostapps/grab/Remuxer.cpp:974-1073 | the same read from the bytes: the stamp of a marked packet is 27000 or 8000 ticks behind the reference of its pack, modulo 2^32 |
| `Merge.ClockShares` | hostapps/grab/Remuxer.cpp:980-983 | a pack opened within a packet is later by the share of the data before it |
| `Merge.StampShares` | hostapps/grab/Remuxer.cpp:1066-1073 | so is a stamp within a packet, up to rounding |
| `Merge.StreamsAreWhole` | hostapps/grab/Remuxer.cpp:1443-1501 | what a demultiplexer picks out for one stream id is that stream's data |
| `Merge.StreamsComeBack` | hostapps/grab/Remuxer.cpp:1320-1516 | for each stream, what is picked out of the file and what is still in the list are what the list held |
| `Merge.CutPacketsAreTimed` | hostapps/grab/Remuxer.cpp:189-299 | packets made by the cutters are well formed and stamped, as merging assumes |
| `PesParser.SearchIsNext` | hostapps/grab/Remuxer.cpp:109-185 | a packet found is the first one of the stream, whatever comes later |
| `PesParser.SkippedHoldNothing` | hostapps/grab/Remuxer.cpp:109-185 | bytes that are skipped belong to no packet |
| `PesParser.FoundIsFirst` | hostapps/grab/Remuxer.cpp:109-185 | the packet found and the parse of what follows are the parse of everything |
| `PesParser.CleanSearchIsExact` | hostapps/grab/Remuxer.cpp:109-185 | on bytes without an invalid header a search that finds nothing means that nothing can be decided yet |
| `PesParser.SearchMayStopEarly` | hostapps/grab/Remuxer.cpp:109-185 | 21 bytes in which a complete packet behind an invalid header is overlooked |
| `PesParser.CanonicalIsWhole` | hostapps/grab/Remuxer.cpp:150-185 | whatever is handed over begins with the prefix, has the size its length field says, and has the right two bits unless its stream has no header |
| `PesParser.LookingAheadIsHarmless` | hostapps/grab/Remuxer.cpp:304-325 | choosing the stream while looking for the second packet selects the same packets |
| `PesParser.WantedIds` | hostapps/grab/Remuxer.cpp:304-325 | an undecided parser takes ids 0, 0xbc, 0xbd and 0xc0 to 0xdf, and decides for the first; a decided one takes its own |
| `PesParser.HandedKeeps` | hostapps/grab/Remuxer.cpp:393-407 | handing a packet over keeps the state on the canonical parse |
| `PesParser.WaitingKeeps` | hostapps/grab/Remuxer.cpp:398-403 | waiting for a second packet keeps it |
| `PesParser.ArrivalKeeps` | hostapps/grab/Remuxer.cpp:332-341 | new data keeps it |
| `AudioInput.AudioBuffer.Supply` | hostapps/grab/Remuxer.cpp:329-415 | however the input is split, the state stays on the canonical parse of everything since the last overrun; unless a start code in the buffer has an invalid header, exactly what that parse gives has been handed over |
| `AudioInput.AudioBuffer.OneRound` | hostapps/grab/Remuxer.cpp:345-408 | one round keeps it; the packet found is inside the valid bytes, so the trap at line 363 is not reached |
| `AudioInput.AudioBuffer.HandOrWait` | hostapps/grab/Remuxer.cpp:366-408 | a wanted packet is handed over exactly if a second one is found |
| `AudioInput.AudioBuffer.LookAt` | hostapps/grab/Remuxer.cpp:346-366 | the packet found lies inside the valid bytes, and whether it is wanted |
| `AudioInput.AudioBuffer.FindNext` | hostapps/grab/Remuxer.cpp:109-185 | the in-place search is the search on sequences |
| `AudioInput.AudioBuffer.FindSecond` | hostapps/grab/Remuxer.cpp:371-391 | the second packet is the canonical successor of the first |
| `AudioInput.AudioBuffer.HandOver` | hostapps/grab/Remuxer.cpp:393-396 | the packet with the difference of the two stamps as its duration |
| `AudioInput.AudioBuffer.HandedIsCanonical` | hostapps/grab/Remuxer.cpp:329-415 | packets and durations handed over are a prefix of those of one parse of the whole input |
| `AudioInput.AudioBuffer.HandedAreWhole` | hostapps/grab/Remuxer.cpp:393-396 | the packets given to `create_audio_pes` have the size their length field says |
| `AudioInput.AudioBuffer.constructor` | hostapps/grab/Remuxer.h:177-184 | an empty buffer |
| `PesCutter.CutAudioIsLossless` | hostapps/grab/Remuxer.cpp:189-299 | the pieces concatenate to the data, none is empty or too long, stamps do not decrease |
| `PesCutter.CutVideoIsLossless` | hostapps/grab/Remuxer.cpp:579-690 | the same for video |
| `PesCutter.PicturesBeginPieces` | hostapps/grab/Remuxer.cpp:607-681 | from any state of the cutting on, every picture start from the current picture's end on begins a piece |
| `PesCutter.LaterPicturesBeginPieces` | hostapps/grab/Remuxer.cpp:594-681 | for every sequence `create_video_pes` is given: every picture start but the first begins a piece |
| `CutTimes.AudioPieceAt` | hostapps/grab/Remuxer.cpp:202-293 | piece k of sound holds the data from k times the size on, and its stamp is that of the packet and the share of the duration |
| `CutTimes.PieceTimes` | hostapps/grab/Remuxer.cpp:607-690 | every piece of video ends its picture or is of full size, and bears the time of its picture, one frame for every picture start before it, and the share of a frame |
| `CutTimes.TimeAfter` | hostapps/grab/Remuxer.cpp:662-665 | the time after a sequence is one frame later for every picture |
| `CutTimes.StampIsShare` | hostapps/grab/Remuxer.cpp:637-640 | a stamp is that of the whole and the share done, nothing at the start |
| `CutTimes.MarkIsRead` | hostapps/grab/Remuxer.cpp:632-633 | the private mark is what the merge reads |
| `CutTimes.MarksAreRead` | hostapps/grab/Remuxer.cpp:632-633 | of a sequence the first packet is marked only, of sound all are |
| `PesCutter.PesIsReadable` | hostapps/grab/Remuxer.cpp:246-290 | the size field is the allocated size, and data and stamp are read back |
| `PesCutter.NewestAppend` | hostapps/grab/Remuxer.cpp:241-251 | a full list always holds the newest packets |
| `PesCutter.CreateAudioPes` | hostapps/grab/Remuxer.cpp:189-299 | for every packet the parser hands over: the list gets exactly the packets of the cut, all marked, unless the header reaches beyond the packet, which is exactly when the code leaves its buffer |
| `PesCutter.CutPacket` | hostapps/grab/Remuxer.cpp:202-293 | the loop, once the size is known |
| `PesCutter.UnderflowArrives` | hostapps/grab/Remuxer.cpp:195-197 | a packet of ten bytes on which the size underflows; the parser reports it whatever follows, and it is wanted |
| `PesCutter.CreateVideoPes` | hostapps/grab/Remuxer.cpp:579-690 | the list gets exactly the packets of the cut, the first one marked, and the next frame time |
| `PesCutter.FindPicEnd` | hostapps/grab/Remuxer.cpp:524-537 | the first picture start code at or after the offset, or the end |
| `PesCutter.PacketList.Remove` | hostapps/grab/Remuxer.h:272-310 | removes from the front as many as there are |
| `PesCutter.PacketList.Add` | hostapps/grab/Remuxer.cpp:241-251 | appends, losing the oldest of a full list |
| `Handover.RunsAreOrderly` | hostapps/grab/grab.cpp:209-347 | in every interleaving: a slot is touched only by the holder of its mutex, `read_idx` and `rec_idx` are the numbers of buffers done with and handed over, the slots from the one to the other are exactly the filled ones, buffers arrive in order of production, and a buffer is marked for resync exactly if one was dropped just before it or it is the first |
| `Handover.PolledIsAccounted` | hostapps/grab/grab.cpp:245-285 | in every interleaving the buffers dropped or handed over, in order, and the one waiting hold exactly what the polls returned |
| `Handover.DroppedIfFull` | hostapps/grab/grab.cpp:288-342 | a filled buffer is dropped only if the ring is full, at once if the main loop holds the next slot, and otherwise when that has been looked at; with room it is handed over |
| `Handover.UsedMeansFull` | hostapps/grab/grab.cpp:322-332 | the next slot is used only if the ring is full |
| `Handover.TouchedIsHeld` | hostapps/grab/grab.cpp:735-858 | every enabled step uses only slots its thread holds |
| `Handover.StepKeeps` | hostapps/grab/grab.cpp:735-858 | every step of either thread keeps the invariant |
| `Handover.UnusedMeansRoom` | hostapps/grab/grab.cpp:322-345 | the next slot is unused only if the ring has room for one more |
| `Handover.DropKeeps` | hostapps/grab/grab.cpp:308-336 | a dropped buffer clears and marks the reader's slot and keeps the invariant |
| `Handover.RunKeeps` | hostapps/grab/grab.cpp:209-347 | the invariant holds after every sequence of steps |
| `Rtime.CompressedDecodes` | hostapps/mkfs.jffs2/compr_rtime.c:29-102 | for every input of any length and every output limit, decoding what was encoded gives exactly the encoded prefix, uses exactly the bytes written and stays in bounds |
| `Rtime.RoundTrip` | hostapps/mkfs.jffs2/compr_rtime.c:38-100 | the same from every position, with equal tables in encoder and decoder |
| `Rtime.TokenFollowsEncoder` | hostapps/mkfs.jffs2/compr_rtime.c:42-54 | after each token the decoder's text and table are the encoder's |
| `Rtime.CopyReproducesRun` | hostapps/mkfs.jffs2/compr_rtime.c:49-53 | the overlapping copy reproduces the run that was matched |
| `Rtime.RunIsMaximal` | hostapps/mkfs.jffs2/compr_rtime.c:49-53 | no longer run could have been encoded |
| `Rtime.BlockCopyIsForwardCopy` | hostapps/mkfs.jffs2/compr_rtime.c:89-98 | where the block copy is used it equals the bytewise one |
| `Rtime.ShortInputsAreSafe` | hostapps/mkfs.jffs2/compr_rtime.c:32-53 | on inputs of up to 32769 bytes the encoder never looks in front of its input |
| `Rtime.TooLongIsUnsafe` | hostapps/mkfs.jffs2/compr_rtime.c:46-50 | for every greater length an input on which it does |
| `Rtime.LengthDecides` | hostapps/mkfs.jffs2/compr_rtime.c:32-53 | with enough room all inputs of a length are safe exactly up to 32769 bytes |
| `Rtime.Compress` | hostapps/mkfs.jffs2/compr_rtime.c:29-66 | for every input the loop computes the encoding, in bounds, and fails exactly if it is not shorter; it looks in front of its input exactly if a byte recurs, with more to follow, whose recorded position is negative |
| `Rtime.Decompress` | hostapps/mkfs.jffs2/compr_rtime.c:69-102 | for every input the loop computes the decoding, consuming exactly the bytes it needs; it leaves its buffers exactly if the input does not decode to the wanted length |
| `Rtime.CopyRun` | hostapps/mkfs.jffs2/compr_rtime.c:89-99 | both branches are the simple forward copy |
| `Rtime.MatchRun` | hostapps/mkfs.jffs2/compr_rtime.c:49-53 | the inner loop finds the run length |
| `Rtime.SelfTest` | hostapps/mkfs.jffs2/compr.c:122-167 | the check after compression never finds a byte written behind the output, nor a mismatch, nor does decompression leave its buffers |
| `Rtime.Overwritten` | hostapps/mkfs.jffs2/compr.c:128-137 | the scan behind the output finds every mark in place |
| `CrcTable.EntryIsByteStep` | hostapps/mkdnimg/crc32.c:8-61 | every table entry is eight bit-serial steps with polynomial 0xEDB88320 |
| `Crc.TableStepIsSerial` | hostapps/mkdnimg/crc32.c:64-64 | one table step is eight bit-serial steps |
| `Crc.UpdateCrc` | hostapps/mkdnimg/crc32.c:70-88 | the unrolled loop computes the bit-serial CRC of section 8 of RFC 1952 |
| `Crc.DoGroups` | hostapps/mkdnimg/crc32.c:78-82 | whole groups of eight bytes |
| `Crc.CrcChains` | hostapps/mkdnimg/mkusbimg.c:148-148 | the CRC of a concatenation by chaining |
| `Crc.CopyImage` | hostapps/mkdnimg/mkusbimg.c:135-158 | for every sequence of read sizes: it succeeds exactly if some first reads all deliver something and together the whole file, and then the body is the file and `data_crc` the CRC of the whole |
| `Crc.BurstIsDetected` | hostapps/mkdnimg/crc32.c:70-88 | changing up to four neighbouring bytes anywhere in a file of any length changes the CRC |
| `Crc.LeadingZeroIsUnnoticed` | hostapps/mkdnimg/mkusbimg.c:135-135 | a byte put in front leaves `data_crc` unchanged exactly if it is zero |
| `Crc.SerialIsInjective` | hostapps/mkdnimg/crc32.c:64-88 | different registers stay different |
| `Spi.Port.SpiIo` | driver/mmc/mmccombo.c:334-406 | for every wiring: eight clocks, the answer and the card's state afterwards |
| `Spi.Port.Write14` | driver/mmc/mmccombo.c:408-554 | the unrolled writer clocks out the same bytes |
| `Spi.Port.Write2` | driver/mmc/mmccombo.c:556-605 | the same for the second wiring |
| `Spi.Port.ReadMultiple` | driver/mmc/mmccombo.c:607-742 | reading with the data line held high is exchanging 0xff bytes |
| `Mmc.SafeReadBlock` | driver/mmc/mmccombo.c:848-945 | the failsafe read gives the outcome of the specification |
| `Mmc.FastReadBlock` | driver/mmc/mmccombo.c:848-945 | the optimised read gives the same outcome |
| `Mmc.SafeWriteBlock` | driver/mmc/mmccombo.c:748-846 | the failsafe write gives the outcome of the specification |
| `Mmc.FastWriteBlock` | driver/mmc/mmccombo.c:748-846 | the optimised write gives the same outcome |
| `Mmc.CompareReads` | driver/mmc/mmccombo.c:848-945 | for every card, wiring and address: same return code, bytes, card state and lines |
| `Mmc.CompareWrites` | driver/mmc/mmccombo.c:748-846 | for every card, wiring, address and data: same return code, card state and lines |
| `MmcCard.WriteAndRead` | driver/mmc/mmccombo.c:748-945 | on a card with sectors that answers in time, by either variant of each transfer and on any wiring, what is written is read back, and the other sectors stay |
| `MmcCard.ReadGives` | driver/mmc/mmccombo.c:848-945 | a read gives the sector and leaves the card as it was |
| `MmcCard.WriteStores` | driver/mmc/mmccombo.c:748-846 | a write stores the sector and changes nothing else |
| `MmcCard.ByteGoes` | driver/mmc/mmccombo.c:334-406 | eight clocks bring the card one byte and show the one it had ready |
| `Mmc.AfterConcat` | driver/mmc/mmccombo.c:748-945 | transfers cut differently mean the same to the card |
| `Events.OwedIsComplete` | driver/event/event.c:60-89 | a subscriber gets all matching events exactly if it never falls 32 behind; what it gets is always the matching events in order with some left out |
| `Events.PassesByBits` | driver/event/event.c:74-74 | an event passes a filter exactly if some bit is set in both; the first filter stops only 0 |
| `Events.Handle.Offer` | driver/event/event.c:74-81 | what was read and what is pending stays what the subscriber is owed |
| `Events.Handle.Read` | driver/event/event.c:150-211 | the oldest pending event, or exactly the documented error; nothing is taken unless it is delivered |
| `Events.Handle.SetMask` | driver/event/event.c:91-106 | later events are judged by the new filter, pending ones stay |
| `Events.Handle.constructor` | driver/event/event.c:117-127 | a fresh handle is owed nothing |
| `Events.Driver.Open` | driver/event/event.c:108-130 | fails exactly if no slot is free; the count and the table agree, so a slot is always found |
| `Events.Driver.Release` | driver/event/event.c:132-148 | only the handle's slot is freed |
| `Events.Driver.WriteMessage` | driver/event/event.c:60-89 | every open handle is offered every event once, in order |
| `Events.Driver.constructor` | driver/event/event.c:234-248 | no handle open |
| `RemoteControl.UnbrokenIsBlocks` | driver/fp/dbox2_fp_rc.c:89-207 | an unbroken trace is made of blocks: pressed, repeated any number of times, released, one key at a time |
| `RemoteControl.Remote.NewCode` | driver/fp/dbox2_fp_rc.c:149-207 | what each code of the new remote tells, timer expiring in between or not; the trace stays unbroken and a key is down only while the timer runs |
| `RemoteControl.Remote.OldCode` | driver/fp/dbox2_fp_rc.c:106-147 | the same for the old remote, break codes included |
| `RemoteControl.NewTells` | driver/fp/dbox2_fp_rc.c:182-204 | a key of the new remote is repeated exactly if it is down, the toggle bits are the same and the timer has not expired; otherwise the key of the code is pressed and whatever was down released |
| `RemoteControl.OldTells` | driver/fp/dbox2_fp_rc.c:119-143 | a key of the old remote is pressed exactly if the code is its own and it is not down or the timer has expired, repeated if it is down and has not, released if it is down and the code is not its own or the timer has expired |
| `RemoteControl.Remote.KeyUp` | driver/fp/dbox2_fp_rc.c:89-100 | expiry releases the key that is down |
| `RemoteControl.NewKeys` | driver/fp/dbox2_fp_rc.c:43-80 | no two keys of the new remote have the same value |
| `RemoteControl.OldKeys` | driver/fp/dbox2_fp_rc.c:43-80 | nor of the old one |
| `RemoteControl.FindOld` | driver/fp/dbox2_fp_rc.c:131-132 | the table search finds the only row |
| `RemoteControl.Remote.constructor` | driver/fp/dbox2_fp_rc.c:149-155 | no key is down |
| `IdeFifo.Cpld.Insw` | driver/ide/main.c:199-289 | whenever the logic fetches words, the next words of the drive, those already in the FIFO first, arrive in order, and no more have left the drive than were stored |
| `IdeFifo.Cpld.Many` | driver/ide/main.c:224-289 | the same for four words and more |
| `IdeFifo.Cpld.Few` | driver/ide/main.c:204-213 | the same for fewer |
| `IdeFifo.Cpld.Inw` | driver/ide/main.c:174-194 | one word |
| `IdeFifo.MovedIsExact` | driver/ide/main.c:241-272 | the count is met exactly for counts below four and multiples of four |
| `Dvb2eth.Sender.Send` | driver/dvb2eth/dvb2eth.c:126-184 | returns 1316 times the number of whole datagrams in the total length as 32 bits hold it; each carries the next 1316 bytes of the two fragments; header slots go round through 32 and numbers through 65536, on from call to call |
| `Dvb2eth.Sender.SendOne` | driver/dvb2eth/dvb2eth.c:151-177 | one datagram takes the first 1316 bytes, wherever the fragments meet |
| `Dvb2eth.CutIsPrefix` | driver/dvb2eth/dvb2eth.c:139-181 | the payloads concatenate to that prefix of the stream |
| `Dvb2eth.Sender.constructor` | driver/dvb2eth/dvb2eth.c:103-111 | the first slot and number |

## Left out

- Sockets, files, signals, command lines, status output and write errors in grab, ggrab and mkdnimg.
- Time limits: a wait that times out is a result of the operation (`TimedOut`, `NoData`, `ok == false`), not an exit of the program.
- Condition variables waking without cause at line 46 of `list.cpp`, where the wait is not in a loop.
- Clock values inside `write_pes_in_pp` as floating point: `Packs` takes them as functions of the data offset, `Merge` supplies them over `real`; negative values converted to unsigned, which C++ leaves undefined, count as 0.
- `fill_audio_pp`, which copies like `fill_video_pp` but without boundaries and padding, and the audio indexer, whose element lengths come from the following packet.
- ggrab's modes without multiplexing, and the contents of the system header it puts into the first pack.
- The adjustment of frame times from auxiliary data (`aux_to_framepts`, `adjust_frame_pts`) and the splitting of the video input before `create_video_pes`.
- Choosing new output files in grab, and the statistics kept beside the streams.
- `dboxide_outsw`, and the polling of `dboxide_insw` as time spent: a poll loop ends when the FIFO is full.
- Card detection, card initialisation and the block-device side of the MMC driver.
- The IP header checksum of `dvb2eth_send`, a library function, and the setting up of the headers.
- The other compressors of mkfs.jffs2, and its choice among them.
- The driver's event ring is a field of the handle, as in the C structure, and not an array of its own; allocation never fails.
- AudioInput.AudioBuffer.HandedIsCanonical: durations of packets too short to hold the stamp they announce, which the source reads beyond their end.
- RemoteControl.Remote.NewCode: the filter for Philips boxes is any code being dropped; key codes are rows of the table, since the system's key numbers are not part of this model.
- RemoteControl.Remote.OldCode: both remotes used together, which share one timer.
- Merge.LeadAsRead: packets without the private mark, which share packs with others, and the times of `Merge.PresentationLead`.
- Merge.StampShares: durations that are negative and times across the wrap of the 32-bit clock.
- Indexing.RunsAreIndexed: data of a video stream that never has another PES header, for which the search times out.
- Handover.PolledIsAccounted: what is read before the reader is up to date, which is thrown away at once.
- VideoRuns.WrapIsCorrected: pictures whose times go back, and more than one turn of the clock.
- MmcCard.WriteAndRead: cards that answer later than the driver waits, for which it returns 1, 2 or 3.
- Merge.PresentationLead: clocks beyond one and a half turns of 2^32, and packets more than 2^31 ticks after the start.
- MpgWriter.Merger.PerformResync: the resets of the input buffers, the wanted stream and the frame time, which belong to other classes here.
- Multiplex.RateAsRead: packs 2^32 ticks or more apart, whose distance the 32 bits read back do not tell.
- RingBuffer.CBuffer.RemovePadding: lengths of a whole turn of the ring and more.
- IdeFifo.Cpld.Insw: fewer than four words with a FIFO that is not empty, for which the source reports a problem and the hardware's answer is not known.
