# Verified models of the adaptation layer's algorithms and protocols

The C library in `am_adp/` mostly wraps drivers. This project models the parts of it that are
algorithms or protocols in their own right, and proves what they are for:

| files | what is modelled |
|---|---|
| `Pes`, `PesStray`, `PesProperties`, `PesParser` | the streaming PES parser (section 2.4.3.6 of ISO/IEC 13818-1): reassembly from arbitrary chunks, resynchronisation, both delivery modes, the buffer that is compacted in place |
| `DmxPool`, `DmxProtocol`, `DmxFilters` | the demultiplexer's filters, and its data thread, API threads, mutex and condition variable as an interleaved step system, callbacks running outside the mutex |
| `FendProtocol`, `FendRuns`, `FendCalls`, `FendProgress` | the frontend's monitor thread, callback installation and the blocking lock call, the monitor reading its fields one by one without the mutex |
| `MwStats`, `MwHeap`, `MwLedger`, `MemWatch` | the memory watcher: intrusive doubly linked chain, chain checker on arbitrary graphs, counters and layered statistics, limit, no-mans-land |
| `Ring`, `Userdata` | the byte ring and the queue of length-prefixed packets on it |
| `T0`, `Smc` | the T=0 exchange (section 10.3.3 of ISO/IEC 7816-3:2006) over two rings and a driver that moves bytes piecemeal and may fail |
| `Utf8`, `Utf8Filter` | the 1 to 6 byte UTF-8 decoder (section 2 of RFC 2279) and the string filter on it |
| `Evt` | the event table: fifty bucket lists standing for one subscription list |
| `Dvr` | the recorder's filters in the demultiplexer's pool, next to other clients |
| `Av` | the play modes of an AV device and the mapped files its players hold |
| `Clip`, `Pixel`, `PixelOp`, `PixelLaws`, `Blit`, `SwOp`, `Stretch` | the software blitter: clipping, the format table, colour conversion, key and alpha, byte-addressed surfaces, memcpy fast path, integer rescaling |
| `Bytes` | bytes, optional values and sequence facts |

Code that works in place is modelled in place: the PES buffer, the rings, the heap chain, the
surfaces, the filter pool, the bucket table and the AV device are classes or arrays with methods
whose contracts equate the new state with a function of the old one; the properties are lemmas
about those functions or invariants of the classes. Threads are modelled as labelled steps, and
the safety properties are proved over whole runs from an inductive invariant.

Driver calls, allocators, file mapping and clocks are parameters or arbitrary results: every
answer they could give is covered. `int` arithmetic is unbounded except where width matters:
`size_t` wrap-around and the cast to `long` in the memory watcher, the `uint8_t` counter of the
T=0 exchange, `uint8_t` colour components and `uint16_t` PIDs are written out. Shifts and masks
on bytes and pixels are written as divisions and remainders. A little-endian machine is assumed
for the length prefix of user-data packets and for pixels.

Where a promise does not hold of the code as it stands, the exact condition is proved:

- The PES parser gives for every cut of a stream what one call gives, using received bytes only, if
  and only if the stream satisfies `Pes.Safe` (`Pes.CutsAgreeIff`): in whole-packet mode no length
  field met is 0xFFFF, in payload mode none is 1 or 2 on a packet marked as MPEG-2. Concrete failures
  are `PesProperties.UnboundedLengthDependsOnCut` and `PesProperties.ShortMpeg2DependsOnCut`. Headers
  longer than their packets do no harm to this: they are handed out as a negative length for every
  cut (`PesProperties.OverlongIsDelivered`).
- One byte is also looked at without being used: the header length of an open-ended packet (length
  0 or 0xFFFF) in payload mode, read before the search for the packet's end. Every cut of a safe
  stream keeps to received bytes here too if and only if the walk from packet to packet meets no
  such packet with six bytes there (`PesStray.StrayIff`, and without the premise of safety
  `PesStray.ReceivedOnlyIff`); the bytes 00 00 01 E0 00 00 in one call fail (`PesStray.SixBytesStray`).
- The search for the end of an MPEG-1 header stops six bytes short of the packet's end: exactly the
  packets whose stuffing reaches that far are delivered with part of their header
  (`PesProperties.Mpeg1PayloadIff`, with `PesProperties.ShortMpeg1KeepsHeader` as one of them).
- A successful stop by itself keeps a filter's callback away until a restart if and only if the data
  thread has not picked the callback up when the stop takes effect (`DmxProtocol.StopAloneIff`);
  `DmxProtocol.StopAloneIsNotEnough` is a run in which it has. Together with a sync a stop always is
  enough (`DmxProtocol.StoppedIsQuietAfterSync`).
- A T=0 read returns the data if and only if not both P3 is 0 and the card acknowledges
  everything at once (`T0.ReceiveIff`). A T=0 write reaches the card if and only if the first
  acknowledgement is for everything at once (`T0.SendIff`).
- The memcpy path of the blitter equals the per-pixel path exactly for the formats that are not
  YUV (`PixelOp.FastIsSlowIff`, for whole buffers `SwOp.FastBlitIsSlowBlit`).
- The stretch blit samples from inside the source if and only if the first column and the first row
  it samples are not before the source's (`Stretch.SampledInsideIff`): the source rectangle begins
  there, or its first column in the source is stretched to the beginning of a destination column, or
  the clip cuts that one off, and the same for rows. A rectangle that leaves the source to the right
  or at the bottom does no harm (`Stretch.RightAndBottomAreHarmless`); one that leaves it to the left
  can (`Stretch.OutsideIsSampled`).
- Its two divisions where one would do put a sample one before its exact position if and only if the
  two remainders make up a whole (`Stretch.ColumnIsExactIff`, `Stretch.CutColumnIsOff`).
- A mapped video file leaks exactly when a video is started again without a stop
  (`Av.AvDevice.PlayFile`; `Av.RestartLeaks` does so); everything else is released exactly once
  (`Av.AvDevice.Close`).
- After a recording exactly the filters in `Dvr.Left` stay allocated, and none does if and only if
  that set is empty (`Dvr.Recorder.StopAll`). It follows from the enable flags and the driver's
  answers: for each stream the last driver call needed did not succeed (`Dvr.StaysLeftIff`,
  `DmxPool.StaysUsedIff`; `Dvr.LostFilter` loses one). Other clients' filters are never touched.
- The comment "this case must not happen" in the user-data reader is right
  (`Userdata.Device.ReadPackage`), but an empty packet waits until another one is behind it
  (`Userdata.EmptyPacketWaits`).

## Model

| member | source | states |
|---|---|---|
| Pes.FindStart | am_adp/am_pes/am_pes.c:203-211 | the scan finds the first 00 00 01 that has at least two more bytes behind it, or there is none |
| Pes.PacketStep | am_adp/am_pes/am_pes.c:213-259 | what is handed out ends inside the received bytes, before the place to go on, which is at least 6 bytes further; a header longer than its packet gives a negative length and the parser goes on |
| Pes.StrictStepStable | am_adp/am_pes/am_pes.c:213-259 | what has been decided about a packet is not changed by bytes that arrive later |
| Pes.RunAppend | am_adp/am_pes/am_pes.c:196-269 | for a safe stream, running over d and e is running over d and then over what d left, followed by e |
| Pes.RestSettled | am_adp/am_pes/am_pes.c:262-269 | what is kept between calls holds nothing that could be delivered without new bytes |
| Pes.ChunkingIndependence | am_adp/am_pes/am_pes.c:161-271 | every way of cutting a safe stream into calls delivers the same packets and keeps the same residual as one call |
| Pes.UnsafeHasBadCut | am_adp/am_pes/am_pes.c:161-271 | every unsafe stream has a cut for which bytes that have not been received are used |
| Pes.SafeIffEveryCutOk | am_adp/am_pes/am_pes.c:161-271 | the stream condition is exact: safe if and only if every cut only uses received bytes |
| Pes.CutsAgreeIff | am_adp/am_pes/am_pes.c:161-271 | safe if and only if every cut gives what one call gives, out of received bytes only |
| PesStray.StrayIff | am_adp/am_pes/am_pes.c:38-44 | no cut of a safe stream makes the parser look at a header length byte that has not been received if and only if the walk meets no open-ended packet in payload mode; otherwise the cut behind its sixth byte does |
| PesStray.ReceivedOnlyIff | am_adp/am_pes/am_pes.c:161-271 | no byte is looked at, used or not, before it has been received, however the stream is cut, if and only if it is safe and meets no open-ended packet in payload mode |
| PesStray.StrayIsDropped | am_adp/am_pes/am_pes.c:44-68 | such a byte is never used: the packet has no end yet |
| PesStray.SixBytesStray | am_adp/am_pes/am_pes.c:38-44 | 00 00 01 and an id with length 0, alone in one call, are safe and make the parser look at byte 8 |
| PesProperties.DeliveriesTile | am_adp/am_pes/am_pes.c:194-269 | for arbitrary input the packets delivered are ordered, disjoint and in the stream, overlong headers included, no start code is skipped between them, each takes at least 6 bytes, and the residual is the end of the stream |
| PesProperties.ChunkedDeliveriesTile | am_adp/am_pes/am_pes.c:161-271 | the same for a stream cut into calls |
| PesProperties.WholePacketRoundTrip | am_adp/am_pes/am_pes.c:194-269 | packets with bodies of 0 to 0xFFFE bytes, cut anyhow, come back one per callback, identical, in order, with empty residual |
| PesProperties.PayloadRoundTrip | am_adp/am_pes/am_pes.c:228-259 | in payload mode MPEG-2 packets come back without their headers, whatever the cut |
| PesProperties.Mpeg1PayloadIff | am_adp/am_pes/am_pes.c:72-94 | what is delivered of an MPEG-1 packet with any stuffing, STD field and time stamps is its payload if and only if the stuffing ends within as many bytes as the length field says |
| PesProperties.ShortMpeg1KeepsHeader | am_adp/am_pes/am_pes.c:72-94 | a six-byte body with two bytes of stuffing is handed out with its header |
| PesProperties.Mpeg1RoundTrip | am_adp/am_pes/am_pes.c:228-259 | in payload mode such packets come back without their headers, whatever the cut |
| PesProperties.ChunkedOpenRoundTrip | am_adp/am_pes/am_pes.c:38-70 | packets of length 0 or 0xFFFF with flags, a header of any length and a payload without start codes, back to back, cut anyhow: each payload comes back exactly once the next start code has been seen |
| PesProperties.OpenThen | am_adp/am_pes/am_pes.c:38-70 | such a packet is handed out from the end of its header on, and empty if the next start code lies inside the header |
| PesProperties.OpenWaits | am_adp/am_pes/am_pes.c:38-70 | before the next start code and two more bytes have come nothing is delivered |
| PesProperties.OverlongIsDelivered | am_adp/am_pes/am_pes.c:236-259 | a header one byte longer than its packet is handed out as a length of -1, whatever the cut |
| PesProperties.ShortMpeg2DependsOnCut | am_adp/am_pes/am_pes.c:236-252 | a packet of length 1 marked as MPEG-2 is handed out or uses bytes not received, depending on the cut |
| PesProperties.UnboundedLengthDependsOnCut | am_adp/am_pes/am_pes.c:218-252 | a length of 0xFFFF in whole-packet mode is delivered or faults depending on the cut |
| PesParser.ScanStart | am_adp/am_pes/am_pes.c:203-211 | the scanning loop computes FindStart |
| PesParser.CalcInvalidPesOffset | am_adp/am_pes/am_pes.c:38-70 | the end and payload of an open-ended packet, and whether the header length was read without having been received |
| PesParser.CalcMpeg1PesOffset | am_adp/am_pes/am_pes.c:72-94 | the MPEG-1 header length: stuffing, STD buffer, time stamps |
| PesParser.LookAtPacket | am_adp/am_pes/am_pes.c:213-259 | the branches of the loop body decide as PacketStep does |
| PesParser.NextPacket | am_adp/am_pes/am_pes.c:196-259 | one turn of the loop is one unfolding of the stream semantics, in buffer offsets |
| PesParser.Parser.Decode | am_adp/am_pes/am_pes.c:161-271 | one call delivers and keeps exactly what Feed says and looks at a byte not received exactly if FeedStrays says so; a call refused for lack of arguments or memory changes nothing |
| PesParser.Parser.Parse | am_adp/am_pes/am_pes.c:194-270 | the do-while loop with the final move refines Run and terminates |
| DmxProtocol.InvStep | am_adp/am_dmx/am_dmx.c:158-255 | every step of every thread keeps: RUN_CB is up exactly during a round, the mutex has the owner the program counters say, calls by the data thread happen in callbacks |
| DmxProtocol.InvAlways | am_adp/am_dmx/am_dmx.c:158-327 | the invariant holds in every state of every run |
| DmxProtocol.SyncMeansQuiet | am_adp/am_dmx/am_dmx.c:844-860 | when a sync outside the data thread gets past its wait, no callback is held or running |
| DmxProtocol.StoppedIsQuietAfterSync | am_adp/am_dmx/am_dmx.c:670-697 | after a successful stop or free and a later sync, the data thread never again runs that filter's callback until a restart |
| DmxProtocol.ReplacedIsGoneAfterSync | am_adp/am_dmx/am_dmx.c:775-805 | after a successful installation and a later sync, only pairs installed by it or later are used for that filter |
| DmxProtocol.PairsAreInstalledTogether | am_adp/am_dmx/am_dmx.c:171-255 | handler and argument in use always come from one installation |
| DmxProtocol.StopAloneIsNotEnough | am_adp/am_dmx/am_dmx.c:171-255 | a run in which the callback starts after stop has succeeded and returned |
| DmxProtocol.StopAloneIff | am_adp/am_dmx/am_dmx.c:670-697 | after a stop or free alone no callback of the filter is held or run until a restart, if and only if none was when the stop took effect |
| DmxFilters.EnabledIff | am_adp/am_dmx/am_dmx.c:281-697 | over every run a filter is enabled exactly if a start of it took effect, or it was enabled at the beginning, and no stop, free or new setting that the driver did not refuse followed |
| DmxFilters.AllocateTakesFirst | am_adp/am_dmx/am_dmx.c:445-491 | exactly the first filter not in use becomes used, if the driver agrees |
| DmxFilters.FreeReturnsOne | am_adp/am_dmx/am_dmx.c:304-327 | exactly the filter freed goes out of use, if the driver disables and frees it |
| DmxFilters.OnlyThoseChangeUse | am_adp/am_dmx/am_dmx.c:171-255 | no step but an allocation's or a free's changes which filters are in use |
| DmxFilters.ReadPicksIff | am_adp/am_dmx/am_dmx.c:197-230 | the data thread picks a filter's pair up exactly if it is enabled and in use and the driver's read does not fail |
| DmxFilters.StartedIsServed | am_adp/am_dmx/am_dmx.c:171-255 | a filter started and not stopped, freed or set again since has the pair registered for it picked up when the driver's read does not fail |
| DmxFilters.PickedIsCalled | am_adp/am_dmx/am_dmx.c:232-242 | what has been picked up is called if there is a handler |
| DmxFilters.RoundVisitsEachOnce | am_adp/am_dmx/am_dmx.c:184-246 | over every run, a round turns to each of the 32 filters exactly once and tries only those the poll reported |
| DmxFilters.SucceedsIff | am_adp/am_dmx/am_dmx.c:445-860 | a call returns zero exactly if its filter is in use and every driver call it needs returns zero |
| DmxFilters.RegistersIff | am_adp/am_dmx/am_dmx.c:775-805 | only an installation for a filter in use changes a registered pair, and only that filter's |
| DmxFilters.SyncWaitsIff | am_adp/am_dmx/am_dmx.c:844-860 | a sync waits exactly while a round is running, and not in the data thread |
| DmxPool.StaysUsedIff | am_adp/am_dmx/am_dmx.c:281-327 | a filter that is stopped and then freed stays in use exactly if the last driver call needed does not succeed |
| DmxPool.FreeAsks | am_adp/am_dmx/am_dmx.c:304-327 | the driver is asked to free a filter only once it is disabled |
| FendProtocol.InvStep | am_adp/am_fend/am_fend.c:155-203 | every step keeps the joint invariant of mutex, flags, registered pair, monitor's reads, lock record and installation stamps |
| FendRuns.InvAlways | am_adp/am_fend/am_fend.c:155-203 | the invariant holds in every state of every run with one locker |
| FendRuns.UsedPairsInstalledTogether | am_adp/am_fend/am_fend.c:176-186 | the monitor only uses a handler and argument installed together, although it reads them unlocked one after the other |
| FendRuns.ReplacedNeverUsed | am_adp/am_fend/am_fend.c:1009-1036 | after a replacement outside the monitor thread the replaced pair is never used again |
| FendRuns.RecordOnlyUsedDuringCall | am_adp/am_fend/am_fend.c:1083-1109 | the record on the caller's stack is only touched while its call waits for the event |
| FendRuns.LockRestoresCallback | am_adp/am_fend/am_fend.c:1118-1176 | on return, with success or not, the pair registered at entry is registered again |
| FendRuns.LockSucceedsOnEvent | am_adp/am_fend/am_fend.c:1083-1176 | success needs an event with equal parameters and non-zero status delivered during the call, and the status reported is such an event's |
| FendCalls.SetRegisters | am_adp/am_fend/am_fend.c:1009-1036 | when AM_FEND_SetCallback is over, the handler and the argument it was called with are registered, over every run |
| FendCalls.UsedPairsAreGiven | am_adp/am_fend/am_fend.c:155-203 | every pair the monitor calls, but for AM_FEND_Lock's own, is the initial one or handler and argument of one and the same AM_FEND_SetCallback |
| FendCalls.SetWaitsIff | am_adp/am_fend/am_fend.c:1019-1031 | for the registered pair the call is over at once; else it waits exactly while a round is running, but not in the monitor thread |
| FendCalls.LockWaitsIff | am_adp/am_fend/am_fend.c:1134-1150 | AM_FEND_Lock registers its own callback only while no round is running |
| FendCalls.LockEndsIff | am_adp/am_fend/am_fend.c:1151-1165 | and stops waiting exactly when the lock flag is cleared and the round is over |
| FendCalls.EventIsCalledIff | am_adp/am_fend/am_fend.c:176-186 | an event for which there is a handler is called exactly if callbacks are on |
| FendProgress.CanSettle | am_adp/am_fend/am_fend.c:155-203 | no deadlock: from every state that satisfies the invariant the threads can get, without any new event or call, to where the monitor waits for an event and nobody holds the mutex |
| FendProgress.SetCanFinish | am_adp/am_fend/am_fend.c:1009-1036 | every AM_FEND_SetCallback under way, in a callback or not, can come to its end with its own handler and argument registered |
| FendProgress.EventReachesUser | am_adp/am_fend/am_fend.c:155-203 | an event that arrives with callbacks on is handed to the registered handler with its argument, and the round ends leaving the rest as it was |
| FendProgress.EventEndsLock | am_adp/am_fend/am_fend.c:1083-1176 | a matching event with a status other than zero reaches the callback registered before, with its argument, and lets the waiting AM_FEND_Lock return success with that status and the former pair registered |
| FendProgress.LockReturnsTuneResult | am_adp/am_fend/am_fend.c:1157-1175 | over every run AM_FEND_Lock returns what the driver's set_para returned |
| FendProgress.SwitchDecides | am_adp/am_fend/am_fend.c:1045-1071 | over every run, until the next AM_FEND_SetActionCallback the monitor goes on to the call exactly if the last one switched callbacks on |
| FendProtocol.ParaEqualIff | am_adp/am_fend/am_fend.c:120-153 | the frequency always matters, every other field in its own mode only, and in an unknown mode nothing is equal |
| MwHeap.IsHeapOk | am_adp/am_mem/memwatch.c:1902-1923 | on every finite graph of links the checker stops, visits no block twice, and accepts exactly proper lists from head to tail that hold the wanted block |
| MwHeap.ProperListIsFollowed | am_adp/am_mem/memwatch.c:1902-1923 | a proper list of readable blocks is the one that following the links gives |
| MwStats.Find | am_adp/am_mem/memwatch.c:2291-2327 | the position of the first record with the key |
| MwStats.SumAlloc | am_adp/am_mem/memwatch.c:2329-2352 | an allocation adds its bytes and count once to its module and, at level 2, once to its line |
| MwStats.SumFree | am_adp/am_mem/memwatch.c:2354-2374 | a free takes its bytes off the outstanding amounts of the same records |
| MwStats.AllocSound | am_adp/am_mem/memwatch.c:2329-2352 | there is one record per key and its maximum bounds what is outstanding |
| MwStats.AllocPeaks | am_adp/am_mem/memwatch.c:2329-2352 | every record's maximum rises with the amount outstanding and never otherwise |
| MwStats.FreeKeepsPeaks | am_adp/am_mem/memwatch.c:2354-2374 | a free changes no maximum |
| MwLedger.AllocKeepsBalance | am_adp/am_mem/memwatch.c:866-945 | after an allocation all counters equal the blocks of the chain, lines sum to modules and modules to the global figures |
| MwLedger.FreeKeepsBalance | am_adp/am_mem/memwatch.c:1054-1155 | the same after a free, whether the block is kept as no-mans-land or not |
| MwLedger.ModuleRecord | am_adp/am_mem/memwatch.c:2329-2374 | a module's own record holds exactly the bytes of its live blocks |
| MwLedger.LineRecord | am_adp/am_mem/memwatch.c:2329-2374 | and so does a line's at level 2 |
| MwLedger.MaxIsPeak | am_adp/am_mem/memwatch.c:936-945 | over any allocations and frees no amount outstanding exceeds the recorded maximum, and one reaches it |
| MwStats.AllocRecords | am_adp/am_mem/memwatch.c:2329-2352 | an allocation makes records for its module and, at level 2 only and for a known file, its line, and for nothing else |
| MemWatch.MemWatch.StatGet | am_adp/am_mem/memwatch.c:2291-2327 | the record is found or put in front |
| MemWatch.MemWatch.StatAlloc | am_adp/am_mem/memwatch.c:2329-2352 | module and line records after an allocation |
| MemWatch.MemWatch.StatFree | am_adp/am_mem/memwatch.c:2354-2374 | module and line records after a free |
| MemWatch.MemWatch.Unlink | am_adp/am_mem/memwatch.c:1576-1601 | removing a block leaves a proper list of the others in order |
| MemWatch.MemWatch.IsOwned | am_adp/am_mem/memwatch.c:1925-1985 | for an intact chain: exactly the blocks of the chain are owned |
| MemWatch.MemWatch.Malloc | am_adp/am_mem/memwatch.c:866-945 | fails exactly for overflow, limit or lack of memory and then changes nothing; otherwise the block, filled with 0xFE, heads the chain, the books are those after the allocation, balanced, and the limit is kept |
| MemWatch.MemWatch.Free | am_adp/am_mem/memwatch.c:1054-1155 | a live block leaves the chain, or stays flagged and filled as no-mans-land, and the books are those after the free; a repeated free, a wild or a null pointer changes no total, and the first two are counted as errors |
| MemWatch.MemWatch.Realloc | am_adp/am_mem/memwatch.c:950-1030 | the new block holds the old contents up to the smaller size and heads the chain that freeing the old one leaves; chain and books are those of an allocation and a free; a null pointer allocates, size 0 frees, the limit holds across the call, and a refusal leaves chain and books alone; moving a block already freed counts as two errors, any other refusal but for overflow as one |
| MemWatch.MemWatch.Limit | am_adp/am_mem/memwatch.c:1205-1221 | sets the limit and nothing else |
| MemWatch.MemWatch.NoMansLand | am_adp/am_mem/memwatch.c:1492-1512 | whether later frees keep their blocks, and nothing else |
| Ring.WriteView | am_adp/am_userdata/am_userdata.c:202-227 | bytes written at the write index, wrapped, extend the contents by themselves |
| Ring.ReadView | am_adp/am_userdata/am_userdata.c:181-200 | advancing the read index, wrapped, removes the oldest bytes |
| Ring.RingBuffer.Free | am_adp/am_userdata/am_userdata.c:159-168 | the free space is the size less the contents less one |
| Ring.RingBuffer.Avail | am_adp/am_userdata/am_userdata.c:170-179 | the available bytes are the contents |
| Ring.RingBuffer.Read | am_adp/am_userdata/am_userdata.c:181-200 | hands over the oldest bytes and removes them, writing nothing else |
| Ring.RingBuffer.Write | am_adp/am_userdata/am_userdata.c:202-227 | appends the bytes to the contents |
| Ring.RingBuffer.Reset | am_adp/am_smc/am_smc.c:144-148 | empties the ring |
| Userdata.IntRoundTrip | am_adp/am_userdata/am_userdata.c:255-257 | a length comes back from its four bytes |
| Userdata.HeadFrame | am_adp/am_userdata/am_userdata.c:272-295 | the front of the contents is the head packet's length and bytes, the rest are the frames behind it |
| Userdata.IdleIff | am_adp/am_userdata/am_userdata.c:271-304 | the test against four bytes fails exactly for no packet or a single empty one |
| Userdata.TakenInIff | am_adp/am_userdata/am_userdata.c:241-264 | a packet is taken in exactly if the ring, with one byte to spare, holds its frame too |
| Userdata.HandedIff | am_adp/am_userdata/am_userdata.c:266-306 | the reader gets the head packet exactly if it has room for it, and it is gone either way |
| Userdata.Device.WritePackage | am_adp/am_userdata/am_userdata.c:241-264 | all or nothing: the packet is queued whole if it and its prefix leave a slot free, else nothing changes and 0 is returned |
| Userdata.Device.ReadPackage | am_adp/am_userdata/am_userdata.c:266-306 | the head packet is handed over whole, or dropped whole when too long; framing is never lost and the branch that must not happen cannot |
| Userdata.FirstInFirstOut | am_adp/am_userdata/am_userdata.c:241-306 | over every run, packets accepted are packets removed and still queued, in order |
| Userdata.RoomyReadersGetAll | am_adp/am_userdata/am_userdata.c:266-306 | readers with enough room are handed every removed packet intact and in order |
| Userdata.RunsFit | am_adp/am_userdata/am_userdata.c:241-264 | the queue of every run fits into the ring |
| Userdata.EmptyPacketWaits | am_adp/am_userdata/am_userdata.c:271-304 | a lone packet of length zero is accepted but not removed by a read |
| T0.LoopStep | am_adp/am_smc/am_smc.c:699-752 | one step of a card that gives data, seen from the loop |
| T0.LoopReceives | am_adp/am_smc/am_smc.c:699-752 | by any mixture of waiting, single and full acknowledgements the loop collects exactly the data and the status |
| T0.ReceiveIff | am_adp/am_smc/am_smc.c:664-761 | a card that gives what P3 asks for gets exactly the header, and the caller exactly data and SW1 SW2 for every SW1 in 61 to 6F or 90 to 9F, if and only if not (P3 is 0 and everything is given at once) |
| T0.LoopBounds | am_adp/am_smc/am_smc.c:699-752 | a successful exchange gives at least two bytes, and more only at the cost of a procedure byte |
| T0.SendIff | am_adp/am_smc/am_smc.c:664-761 | a card that asks for the command's data is sent exactly the buffer, and the caller gets exactly the status, if and only if the first acknowledgement is for all of it |
| T0.FirstByteDecides | am_adp/am_smc/am_smc.c:699-752 | for every command and every first byte behind any null bytes: 61 to 6F and 90 to 9F end the call with the next byte as status, and what is neither one of these nor an acknowledgement ends it in an error with nothing received |
| T0.AcknowledgementsAre | am_adp/am_smc/am_smc.c:725-744 | the acknowledgements are INS, its complement and their neighbours |
| T0.BothForms | am_adp/am_smc/am_smc.c:725-744 | the cards of the receiving laws use all four acknowledgements, with and without the lowest bit turned |
| T0.SendsAllOrNothing | am_adp/am_smc/am_smc.c:697-726 | against any card whatever, the header alone or the whole command has been sent |
| T0.SendsInOrder | am_adp/am_smc/am_smc.c:664-761 | whatever the driver accepts, the card has been sent a beginning of the command, and nothing comes back without the header |
| T0.RingSuffices | am_adp/am_smc/am_smc.c:664-761 | against a card that sends at most 1023 bytes the receive ring does not run over |
| Smc.AllMovedIff | am_adp/am_smc/am_smc.c:183-238 | a transfer is complete exactly if the bytes are there and some number of driver calls without a failure can move them, the deadline not passing before the last |
| Smc.SmcRead | am_adp/am_smc/am_smc.c:183-238 | over partial transfers the bytes arrive in order, as many as failure and deadline allow, and success means all of them |
| Smc.SmcWrite | am_adp/am_smc/am_smc.c:241-296 | the same for sending |
| Smc.Smartcard.TransferT0 | am_adp/am_smc/am_smc.c:664-761 | for every card and driver the call's result, the bytes sent and the bytes handed over are those of Transfer on the bytes actually exchanged |
| Smc.Smartcard.Exchange | am_adp/am_smc/am_smc.c:699-752 | the procedure-byte loop refines Loop and terminates |
| Utf8.DecodeOfEncode | am_adp/am_misc/am_misc.c:400-470 | every value below 2^31 is decoded from its encoding with the right length, whatever follows |
| Utf8.EncodeOfDecode | am_adp/am_misc/am_misc.c:400-470 | a positive return has consumed exactly the encoding of its value |
| Utf8.OverlongIff | am_adp/am_misc/am_misc.c:400-470 | -4 is returned exactly for forms longer than needed |
| Utf8.GetcByForm | am_adp/am_misc/am_misc.c:400-470 | the six branches follow one rule by announced length |
| Utf8.LengthIsLeast | am_adp/am_misc/am_misc.c:407-470 | the minimality bounds 0x80 to 0x4000000 are those of the shortest form |
| Utf8.EncodingsArePrefixFree | am_adp/am_misc/am_misc.c:400-470 | no encoding is the beginning of another |
| Utf8Filter.CheckUtf8 | am_adp/am_misc/am_misc.c:490-553 | the loop terminates, writes at most the capacity, and writes exactly the kept text and nothing behind it |
| Utf8Filter.FitIsLongest | am_adp/am_misc/am_misc.c:510-520 | the output is the longest run of whole characters that fits |
| Utf8Filter.ValuesAreClean | am_adp/am_misc/am_misc.c:480-509 | no control code, U+0080 to U+009F or U+E080 to U+E09F, is kept |
| Utf8Filter.OthersAreKept | am_adp/am_misc/am_misc.c:480-509 | every character but U+0080 to U+009F and U+E080 to U+E09F is kept |
| Utf8Filter.ValuesOfText | am_adp/am_misc/am_misc.c:490-527 | from an encoded text exactly the control codes go, whatever follows it |
| Utf8Filter.StrayByteIsSkipped | am_adp/am_misc/am_misc.c:497-503 | a byte that no character begins with is skipped alone |
| Utf8Filter.BrokenIsSkipped | am_adp/am_misc/am_misc.c:497-503 | a character broken off is lost alone: the text behind it comes through whole |
| Utf8Filter.OverlongIsSkipped | am_adp/am_misc/am_misc.c:497-503 | and so is an overlong form |
| Utf8Filter.UnchangedIff | am_adp/am_misc/am_misc.c:539-553 | a string comes out unchanged if and only if it is a clean text that fits |
| Utf8Filter.KeepingIsIdempotent | am_adp/am_misc/am_misc.c:539-553 | filtering the output again changes nothing |
| Evt.EventTable.Find | am_adp/am_evt/am_evt.c:97-118 | the scan of all buckets finds an entry with the same key if there is one |
| Evt.EventTable.Subscribe | am_adp/am_evt/am_evt.c:90-144 | the new entry comes first unless its key is present; no two entries share a key; each sits in bucket type % 50 |
| Evt.AddedIff | am_adp/am_evt/am_evt.c:97-118 | only an entry with the same device, type and callback, whatever its data, keeps a new one out |
| Evt.EventTable.Unsubscribe | am_adp/am_evt/am_evt.c:155-188 | exactly the equal entry goes, else an error and no change |
| Evt.EventTable.Signal | am_adp/am_evt/am_evt.c:195-218 | the callbacks called are those of the flat list, in its order |
| Evt.CalledInBucket | am_adp/am_evt/am_evt.c:195-218 | the one bucket looked at holds all subscriptions the signal concerns |
| Evt.CalledExactly | am_adp/am_evt/am_evt.c:195-218 | exactly the matching subscriptions are called, once each |
| Evt.CalledOfStep | am_adp/am_evt/am_evt.c:90-218 | newest first and order kept: what a signal calls changes as the whole list does |
| Evt.InForceIff | am_adp/am_evt/am_evt.c:90-188 | over every run a subscription is in force if and only if a subscribe call for it took effect and no unsubscribe followed |
| Evt.OnePerCallback | am_adp/am_evt/am_evt.c:90-218 | after any subscriptions a signal calls each callback subscribed for its device and type exactly once, with the data of the first subscription for it |
| Dvr.Pool.AllocateFilter | am_adp/am_dmx/am_dmx.c:445-491 | the first free filter becomes used; on failure the used set is unchanged |
| Dvr.Pool.FreeFilter | am_adp/am_dmx/am_dmx.c:599-622 | exactly the filter goes from the used set, if the driver stops and frees it |
| Dvr.Recorder.StartRecord | am_adp/am_dvr/am_dvr.c:150-178 | the streams' filters are distinct, used and disjoint from other clients', whose set is unchanged; PIDs are taken over; without driver failures every stream with a filter has its PID given to it and it enabled, and a stream lacks a filter only when none is left |
| Dvr.Recorder.StopAll | am_adp/am_dvr/am_dvr.c:186-206 | afterwards exactly the others' filters and those of Left are used; none is left if and only if Left is empty, which it is when no driver call fails |
| Dvr.StaysLeftIff | am_adp/am_dvr/am_dvr.c:186-206 | a stream's filter is left over exactly if stopping and freeing it, with the driver answers that are its turn, leaves it in use |
| Dvr.LostFilter | am_adp/am_dvr/am_dvr.c:186-206 | an enabled filter that the driver twice refuses to disable is left over, and one refused once is not |
| Dvr.Recorder.StopRecord | am_adp/am_dvr/am_dvr.c:385-403 | no streams and no recording afterwards, and the used set is the others' with what Left says |
| Dvr.Recorder.Close | am_adp/am_dvr/am_dvr.c:270-298 | closing stops the recording for every opener and gives its filters back, but for what Left says |
| Dvr.Recorder.OtherAllocates | am_adp/am_dmx/am_dmx.c:445-491 | another client is never given one of the recorder's filters |
| Dvr.Recorder.OtherFrees | am_adp/am_dmx/am_dmx.c:599-622 | another client freeing its own filter leaves the recorder's alone |
| Dvr.Recorder.Session | am_adp/am_dvr/am_dvr.c:336-403 | a recording with another client active in between leaves exactly the filters of before and that client's |
| Dvr.Recorder.Serve | am_adp/am_dvr/am_dvr.c:270-403 | what any one call, by an opener or by another client, does to the filters the recorder does not own |
| Dvr.Recorder.ServeAll | am_adp/am_dvr/am_dvr.c:270-403 | over any calls in any order and any driver the used filters are those of others at the start, those another client holds, those lost at ends of recordings as Left says, and those of the recording going on, no filter being two of these; nothing is lost while the driver does not fail |
| Dvr.FidsFrom | am_adp/am_dvr/am_dvr.c:186-206 | freeing stream by stream never frees a filter twice |
| Av.StartKeepsExclusive | am_adp/am_av/am_av.c:168-203 | stopping the stop set and setting the bit keeps the exclusion rule |
| Av.StopSetIff | am_adp/am_av/am_av.c:168-203 | a start stops exactly what the exclusion rule makes it stop, its own mode unless that is video, and for a file the JPEG decoder |
| Av.ReachableIff | am_adp/am_av/am_av.c:162-212 | a set of modes can come about if and only if audio excludes TS, file, injection and timeshift, at most one main mode is set, and file goes only with JPEG |
| Av.StopSets | am_adp/am_av/am_av.c:168-203 | after the stops only a video started again without a stop still holds its data |
| Av.AvDevice.Stop | am_adp/am_av/am_av.c:112-136 | the mode goes and its player's mapping is released |
| Av.AvDevice.StopAll | am_adp/am_av/am_av.c:139-159 | the same for a set of modes |
| Av.AvDevice.Start | am_adp/am_av/am_av.c:162-260 | the modes afterwards, who holds the mapping on success and on either failure, and the one leak |
| Av.AvDevice.PlayFile | am_adp/am_av/am_av.c:1247-1666 | whatever the driver does, the mapping ends with one owner or released; a leak happens exactly at a video restart |
| Av.RestartLeaks | am_adp/am_av/am_av.c:1247-1666 | two video files in a row: after closing the first has not been released and the second has |
| Av.AvDevice.Play | am_adp/am_av/am_av.c:555-702 | TS, file, injection and timeshift stop everything else |
| Av.AvDevice.PlayData | am_adp/am_av/am_av.c:1443-1706 | on data in memory there is nothing to release, and the modes follow the same rule |
| Av.AvDevice.StopCall | am_adp/am_av/am_av.c:603-617 | a stop call takes away one mode |
| Av.AvDevice.Close | am_adp/am_av/am_av.c:489-515 | every audio mapping and every other one that did not leak has been released exactly once, and a leaked one never |
| Clip.ClipRect | am_adp/am_osd/clip.c:111-128 | exactly the common points of two rectangles, or nothing if there are none |
| Clip.ClipPoint | am_adp/am_osd/clip.c:44-49 | true exactly for points of the rectangle |
| Clip.ClipHLineExact | am_adp/am_osd/clip.c:62-76 | the clipped line is the common part, and its length is a count exactly when line and clip overlap or touch |
| Clip.ClipVLineExact | am_adp/am_osd/clip.c:88-102 | the same for vertical lines |
| Pixel.PixelRoundTrip | am_adp/am_osd/am_osd_internal.h:58-76 | pixel to colour to pixel is the identity for every RGB row of the table and zero for every YUV row |
| Pixel.FactsOfRow | am_adp/am_osd/am_osd.c:180-301 | in every row masks, offsets and shifts fit together, and the channels cover an RGB pixel exactly |
| Pixel.ChannelRoundTrip | am_adp/am_osd/am_osd_internal.h:58-71 | one channel there and back gives its own bits |
| Pixel.NamesGiveOrder | am_adp/am_osd/am_osd.c:236-301 | the names of the 24 and 32 bit formats give their channels in memory order |
| PixelLaws.NamesGiveNibbles | am_adp/am_osd/am_osd.c:180-193 | the 4444 formats give their channels from the lowest bits up, in memory order |
| PixelLaws.NamesGiveFives | am_adp/am_osd/am_osd.c:191-214 | so does BGRA5551 |
| PixelLaws.NamesGiveAlphaFirst | am_adp/am_osd/am_osd.c:191-214 | so does ARGB1555 |
| PixelLaws.NamesGiveSixes | am_adp/am_osd/am_osd.c:213-236 | so do the 565 formats |
| Pixel.BytesRoundTrip | am_adp/am_osd/am_osd_internal.h:46-56 | the bytes stored for a pixel value are those it was read from |
| Pixel.ValueRoundTrip | am_adp/am_osd/am_osd_internal.h:46-56 | and the value read is the one stored |
| PixelOp.FastIsSlow | am_adp/am_osd/sw_op.c:307-456 | without key and alpha the per-pixel path gives memcpy's bytes for palette and RGB formats |
| PixelOp.FastIsSlowIff | am_adp/am_osd/sw_op.c:307-456 | and it does so for all pixels exactly when the format is not YUV |
| PixelOp.OneByteNeverMatters | am_adp/am_osd/sw_op.c:583-597 | that the stretch blit does not read one-byte destinations makes no difference for any format of the table |
| PixelOp.Transparent | am_adp/am_osd/sw_op.c:333-400 | keyed and fully transparent pixels leave the destination alone |
| PixelOp.MixIsBetween | am_adp/am_osd/sw_op.c:424-427 | a blended component lies between its two sources, and at the ends of the alpha range is the one or the other, up to one for rounding |
| PixelOp.MixIs | am_adp/am_osd/sw_op.c:424-427 | a blended component is the weighted sum of its two sources over 256, rounded down |
| PixelOp.MixIsMonotone | am_adp/am_osd/sw_op.c:424-427 | more of either source never gives less |
| PixelLaws.DrawnBlends | am_adp/am_osd/sw_op.c:326-456 | between formats of eight-bit channels, in any order: opaque pixels replace, transparent ones leave, others give in each channel the weighted sum of that channel's source and destination, and the larger alpha |
| PixelLaws.DrawnOver | am_adp/am_osd/sw_op.c:326-456 | the same for any source format, by its pixel's colour |
| PixelLaws.DrawnFromPalette | am_adp/am_osd/sw_op.c:333-352 | a palette pixel is drawn in its palette colour, behind the palette's end in opaque black |
| PixelLaws.DrawnToPalette | am_adp/am_osd/sw_op.c:391-397 | a palette destination gets the pixel's lowest byte |
| PixelLaws.PlainCopies | am_adp/am_osd/sw_op.c:307-318 | between surfaces of one format, without key and alpha, pixels are copied, YUV ones included |
| Blit.StepPixel | am_adp/am_osd/sw_op.c:326-456 | drawing one pixel adds it to the finished ones and disturbs neither those nor any other byte |
| Blit.RowsApart | am_adp/am_osd/sw_op.c:304-305 | rows of pixels in a surface do not overlap |
| SwOp.StepFastRow | am_adp/am_osd/sw_op.c:307-318 | a row copied by memcpy is a row of finished pixels |
| SwOp.NormalBlit | am_adp/am_osd/sw_op.c:279-459 | a pixel is a target exactly if it is in the clip and its translate in source rectangle and surface; targets become what their source pixel makes of them and every other byte is unchanged; source reads stay inside the source |
| SwOp.ResultIsFixed | am_adp/am_osd/sw_op.c:279-459 | that specification leaves no byte of the result open |
| SwOp.FastBlitIsSlowBlit | am_adp/am_osd/sw_op.c:307-456 | whole results of the memcpy path and of the per-pixel path are equal buffers, but for copied YUV pixels |
| Stretch.SampleIsClose | am_adp/am_osd/sw_op.c:482-507 | the two-step integer scaling is the exact position rounded down or one less, and exact at an uncut edge |
| Stretch.ColumnIsClose | am_adp/am_osd/sw_op.c:475-500 | sampled columns lie in the source rectangle, within one of the exact position, exact if the area begins at the rectangle's left edge, a translation for equal widths |
| Stretch.ColumnIsExactIff | am_adp/am_osd/sw_op.c:482-500 | a sampled column is the exact one if and only if the remainders of the two divisions stay below the width |
| Stretch.LineIsClose | am_adp/am_osd/sw_op.c:475-507 | the same for rows |
| Stretch.LineIsExactIff | am_adp/am_osd/sw_op.c:482-507 | and the same for rows |
| Stretch.ColumnsAreMonotone | am_adp/am_osd/sw_op.c:499-500 | sampling does not run backwards |
| Stretch.LinesAreMonotone | am_adp/am_osd/sw_op.c:504-507 | nor for rows |
| Stretch.CutColumnIsOff | am_adp/am_osd/sw_op.c:482-500 | the error of one does occur: three columns from two, the first clipped away |
| Stretch.AreaIff | am_adp/am_osd/sw_op.c:468-480 | for all rectangles, empty and negative ones included: the area drawn is the clip's part of what shows something of the source |
| Stretch.ShowsIsClose | am_adp/am_osd/sw_op.c:475-478 | that part begins at its exact position rounded down, ends at its exact end or one before, stays in the destination rectangle, and is all of it for a source rectangle inside the source |
| Stretch.SampleBounds | am_adp/am_osd/sw_op.c:482-507 | for all rectangles: no sample is beyond the source's right or lower end, nor before the first one |
| Stretch.SampledInsideIff | am_adp/am_osd/sw_op.c:482-507 | for all rectangles: every sample is inside the source if and only if the first column and the first row are, by a condition on the arguments |
| Stretch.RightAndBottomAreHarmless | am_adp/am_osd/sw_op.c:468-507 | a source rectangle that begins inside the source is sampled from inside it wherever it ends |
| Stretch.OutsideIsSampled | am_adp/am_osd/sw_op.c:468-500 | two columns from -1 on stretched to three: the source's column -1 is sampled |
| Stretch.StretchBlit | am_adp/am_osd/sw_op.c:461-638 | every pixel of the area is made of the sampled source pixel, all other bytes are unchanged; an empty area or one wider than 1920 draws nothing |
| Stretch.EqualSizesDraw | am_adp/am_osd/sw_op.c:461-507 | with equal sizes the area is the normal blit's targets, every sample its translate, and no sample outside the source, for all rectangles |
| Stretch.EqualSizesAgree | am_adp/am_osd/sw_op.c:461-638 | with equal sizes a stretched result meets the normal blit's specification for all rectangles, but for copied YUV pixels |
| Stretch.SwBlit | am_adp/am_osd/sw_op.c:640-650 | the choice between the two |

## Left out

- PES: a parser without a packet callback, overflow of `int` buffer lengths, and what C reads behind the received bytes: where such bytes would be used the model stops with a fault.
- DMX: opening, closing, sources, buffer sizes and scramble status; AM_DMX_StartFilter on a filter that is not allocated dereferences a null pointer, so that step is not enabled.
- DMX and frontend: fairness, timeouts and real time; proved is safety, and for the frontend also that calls and events can always come to their end.
- Frontend: two AM_FEND_Lock calls at once, AM_FEND_SetCallback during one, a lock with callbacks disabled, blind scan, DiSEqC and the positioner series.
- MemWatch.MemWatch.Free: calls without a file name, which pass the pointer straight to the system's allocator, are not modelled, nor are the overflow zones with the buffer test and the record of the last frees used for messages.
- MemWatch.MemWatch.Realloc: freeing or moving a live buffer without a file name is excluded for the same reason, and an issued pointer has as many bytes behind it as its header says.
- MemWatch.MemWatch.Malloc: lines of -1 and a statistics level changed midway are excluded; the retry after giving up grabbed memory is not modelled.
- MemWatch.MemWatch.NoMansLand: the grabbing of memory at the highest level and the giving up at the lowest are not modelled.
- MemWatch.MemWatch.IsOwned: the repair of a damaged chain is not modelled, and a pointer that was never issued is assumed not to come with a matching check value.
- Memory watcher: grabbing and dropping memory, marks, asserts, logging, ARI prompts and mutex nesting.
- Userdata.Device.ReadPackage: the temporary buffer for data to be dropped is always available; polling and the driver's writer thread are not modelled.
- Smc.Smartcard.TransferT0: commands are 5 to 260 bytes (the code's buffer holds 255), the caller's buffer holds 1024, the device is open; where a card makes the code receive more than 1023 bytes the C ring is overwritten and the model stops with Overrun.
- Smart card: T=1 and T=14 transfers, ATR handling, the status thread.
- Utf8Filter.CheckUtf8: source and destination do not overlap.
- Evt.EventTable.Subscribe: event types are non-negative, as a negative remainder would index outside the table; bucket lists are sequences, not linked nodes, and callbacks that change the table are excluded.
- Dvr.Recorder.StartRecord: calls are made one at a time, so device locks do not appear; reading recorded data and the device number checks are not modelled.
- Av.AvDevice.Start: players' parameters other than the data block, AM_AV_GetJPEGDataInfo, which passes its result structure where a parameter block is expected, and AM_AV_SetVPathPara are not modelled.
- SwOp.NormalBlit: coordinates do not overflow `int`, the clip lies inside the surface and the two buffers are different.
- Stretch.StretchBlit: what C reads outside the source is not modelled, so the call is made only where nothing is drawn or the exact condition of `Stretch.SampledInsideIff` holds; the same goes for a stretching Stretch.SwBlit.
- Blitter: filled rectangles, single pixels and lines, surface creation and the palette search, which would add only easy members.
- Drivers, vtables, sysfs, sockets, AOUT, VOUT, NET, INP and KL modules, and the block allocator in `am_mem_pool.c`, which never links its blocks into the pool.
