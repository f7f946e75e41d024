# Verified model of the gateway's protocol and table logic

A building-automation gateway polls field devices over Modbus and BACnet, keeps a table of
point values, mirrors that table on disk and logs its changes. This project models the parts
of the gateway in which mathematics or state carries the meaning, and proves what they are for.

**Modbus checksum.** `BitSerial` defines the checksum as the MODBUS standard does: a 16-bit
register divided bit by bit by the reflected generator 0xA001 (MODBUS over Serial Line V1.02,
section 2.5.1.2 and Appendix B). `Crc16Tables` holds the three literal lookup tables and shows
that every entry is eight division steps of its own index; `Crc16` proves that the 16-bit table
loop and the split-table loops compute the bit-serial register, and that a frame passes the
trailer test exactly when dividing all of it leaves 0. `ErrorDetection`, `Period` and
`FrameErrors` prove what the test detects: bursts of up to 16 bits at any length, exactly one
missed burst pattern of 17 bits, every odd number of errors, two errors unless a multiple of
32767 bits apart (both directions).  The least distance between accepted frames is exactly four
bits up to 4095 bytes and exactly two above. `StartValue` ties the computation to the start value
0xFFFF and to the standard's worked example, and shows what that value is for: zero bytes in
front of a frame are noticed, unless their number is a multiple of 32767.

**Modbus frames.** `Words`, `ModbusFrame`, `ModbusServer`, `ClientReads` and `Coils` model the
request builders that fill the transmit buffer, the server's field extraction, the client's
reads as whole exchanges, and coil packing. `RequestDelivery` runs builder, line, check and
extraction in sequence, with arbitrary bits flipped on the line, and `ReplyDelivery` does the same
for the way back. Round trips are stated for all
field values; where the code gives the payload back only under a condition, the condition is
proved exact.

**Queue and write service.** `RingQueue` shows that the circular buffer is a FIFO over any
interleaving of calls, `WriteService` that a write request is served after exactly as many point
slots as messages were ahead of it, plus one, over any number of sweeps. Messages arrive from
other threads and from the reader's own interlock, which adds up to two in every slot that takes
one; accepted requests keep their bound, but the queue can fill up, and what then arrives is
refused. What the slots serve, followed by what waits, is always what waited before followed by
what was accepted.

**Sweep scheduler.** `SweepScheduler` gives the whole run of the BACnet reader's nested counters
in closed form: period exactly 81, and tight bounds on how long each property kind waits. Its
loop is proved to go through exactly those states.

**Addresses.** `ObjectAddress` packs points into object instances and object identifiers with
32-bit unsigned arithmetic and says exactly which fields survive.

**Change log.** `ChangeLog` models the CCMS dead-band scan and the newest-first log of 100.
Replaying the logged history over the startup snapshot reproduces the table of values last
reported, so over any run of scans no cell drifts by 1 or more from its last logged value.

**Point-file observer.** `PointObserver` models the state machine that repairs the mirror files
in place, `MirrorRepair` proves that two runs mirror the table from any state of the disk, and
what happens to the access flags.

The host is taken as little-endian, which the original's byte-pointer swaps rely on. Registers,
bytes and 32-bit fields are bit vectors of the original's width, so shifts and overflow are the
original's. `hide` statements in proofs only keep definitions that a step does not need out of
that step.

Where code and comments disagree the code is followed: crc16.c announces CCITT but computes
the MODBUS checksum (the CCITT table is commented out), and iface_ccms_mgr.c announces 2048
log entries but has 1024 slots and stops at 100.

## Model

| member | source | states |
|---|---|---|
| BitSerial.ShiftIsDivisionStep | duksan_Lin/APP/Src/crc16.c:40-71 | the generator behind the tables: shift right, and when a 1 falls out subtract 0xA001, the step of the MODBUS standard |
| BitSerial.FeedByteInjective | duksan_Lin/INCLUDE/general_modbus_eth_server.h:79-84 | feeding a byte loses nothing: the register before can be recovered from the register after |
| BitSerial.RegisterIsBits | duksan_Lin/APP/Src/crc16.c:89-94 | byte-wise and bit-wise division, least significant bit first, agree on every message |
| Crc16Tables.TableEntry | duksan_Lin/APP/Src/crc16.c:40-71 | each of the 256 literal entries is eight division steps of its index |
| Crc16Tables.SplitEntries | duksan_Lin/INCLUDE/general_modbus_eth_server.h:12-70 | the two split tables hold the low and high bytes of the same 256 values |
| Crc16.NextCrcIsFeedByte | duksan_Lin/APP/Src/crc16.c:91-93 | one pass of the 16-bit table loop is eight steps of bit-serial division |
| Crc16.SplitStep | duksan_Lin/INCLUDE/general_modbus_eth_server.h:81-83 | one pass of the split-table loop yields both bytes of that same register |
| Crc16.IsCrc16 | duksan_Lin/APP/Src/crc16.c:75-100 | the loop returns the bit-serial register of the message with its bytes swapped |
| Crc16.Crc16Bytes | duksan_Lin/INCLUDE/general_modbus_eth_server.h:72-104 | the loop written out twice in `CRC16_hi` and `CRC16_lo` ends with the low and high byte of the bit-serial register |
| Crc16.SwappedIsBothBytes | duksan_Lin/APP/Src/crc16.c:96 | the swapped result of crc16.c is `CRC16_hi` times 256 plus `CRC16_lo` |
| Crc16.AcceptsIffResidueZero | duksan_Lin/APP/Src/general_modbus_eth_server.c:50-71 | the trailer matches if and only if the register of the whole frame is 0 |
| StartValue.EmptyBodyTrailer | duksan_Lin/INCLUDE/general_modbus_eth_server.h:74-75 | the start value on the wire: the two bytes FF FF are the only frame with an empty body |
| StartValue.StandardExample | duksan_Lin/INCLUDE/general_modbus_eth_server.h:72-104 | the worked example of Appendix B of the serial line standard: 02 07 is accepted exactly with trailer 41 12 |
| StartValue.StartPeriod | duksan_Lin/APP/Src/crc16.c:86 | idle shifting returns the start value exactly after multiples of 32767 steps |
| StartValue.LeadingZerosAcceptedIff | duksan_Lin/APP/Src/general_modbus_eth_server.c:50-71 | n zero bytes in front of an accepted frame are accepted if and only if 32767 divides n |
| StartValue.LeadingZeroRejected | duksan_Lin/APP/Src/general_modbus_eth_server.c:50-71 | a single zero byte in front of an accepted frame is rejected |
| ErrorDetection.AffineLinearity | duksan_Lin/APP/Src/crc16.c:89-94 | changing a message by e changes its checksum by an amount depending on e alone |
| ErrorDetection.UndetectedIff | duksan_Lin/APP/Src/general_modbus_eth_server.c:50-71 | an altered intact frame stays intact if and only if the register of the error pattern itself is 0 |
| Period.PeriodsAreMultiples | duksan_Lin/INCLUDE/general_modbus_eth_server.h:12-104 | idle shifting of the generator's register has exactly the multiples of 32767 as periods |
| FrameErrors.BurstRejected | duksan_Lin/APP/Src/general_modbus_eth_server.c:50-71 | frames of any length: an error inside 16 consecutive line bits, trailer included, is rejected |
| FrameErrors.SeventeenBitBurstAcceptedIff | duksan_Lin/APP/Src/general_modbus_eth_server.c:50-71 | of the errors inside 17 bits exactly the generator's own pattern is accepted, so 16 is the limit |
| FrameErrors.OddErrorsRejected | duksan_Lin/APP/Src/general_modbus_eth_server.c:50-71 | any odd number of flipped bits is rejected, at any length |
| FrameErrors.AcceptedFramesAreEven | duksan_Lin/APP/Src/general_modbus_eth_server.c:50-71 | every accepted frame has an even number of one bits |
| FrameErrors.DoubleErrorAcceptedIff | duksan_Lin/APP/Src/general_modbus_eth_server.c:50-71 | two flipped bits are accepted if and only if their distance is a multiple of 32767 |
| FrameErrors.AcceptedFramesApart | duksan_Lin/APP/Src/general_modbus_eth_client_NO_HEADER.c:125-149 | different accepted frames of equal length differ in at least four bits, above 4095 bytes in at least two |
| FrameErrors.LeastDistanceAttained | duksan_Lin/APP/Src/general_modbus_eth_client_NO_HEADER.c:125-149 | from every accepted frame with a byte besides its trailer another is exactly that far away, so four, two and 4095 are exact |
| FrameErrors.ShortestFrameUnique | duksan_Lin/APP/Src/general_modbus_eth_server.c:50-71 | only one frame of two bytes is accepted |
| FrameErrors.FewErrorsRejected | duksan_Lin/APP/Src/general_modbus_eth_server.c:50-71 | one to three flipped bits are rejected up to 4095 bytes, a single one above |
| FrameErrors.PatternAcceptedIff | duksan_Lin/APP/Src/general_modbus_eth_server.c:50-71 | an accepted frame with a byte pattern added is accepted if and only if the register of the pattern, from 0, is 0 |
| Words.ByteSizeIsLeastIff | duksan_Lin/APP/Src/general_modbus_eth_client.c:41-50 | the byte size is the least that holds the bits, except exactly for negative counts that are no multiple of 8, where it is one too many |
| Words.SignedBigEndian | duksan_Lin/APP/Src/general_modbus_eth_server.c:79-85 | the byte-pointer swap reads a wire word as 256 times its first byte plus its second, minus 65536 from 0x80 on |
| Words.SignedByteCongruent | duksan_Lin/APP/Src/general_modbus_eth_server.c:79-85 | a signed byte differs from the byte by a multiple of 256 |
| Words.WireWordValue | duksan_Lin/APP/Src/general_modbus_eth_server.c:79-85 | a wire word is 256 times its first byte plus its second |
| Words.DoubledCount | duksan_Lin/APP/Src/general_modbus_eth_server.c:107 | twice a count, stored in a byte, is twice its low byte modulo 256 |
| Words.AsByteValue | duksan_Lin/APP/Src/general_modbus_eth_server.c:107 | storing a count in a byte keeps it modulo 256, so exactly counts 0 to 255 survive |
| ModbusFrame.Client.Seal | duksan_Lin/APP/Src/general_modbus_eth_client_NO_HEADER.c:228-229 | the checksum of the bytes before is stored behind them, making the buffer a frame |
| ModbusFrame.Client.BuildRequest | duksan_Lin/APP/Src/general_modbus_eth_client_NO_HEADER.c:204-229 | builds the eight-byte frame of functions 1 to 6 with big-endian words (the same code at 283-309 and 357-383) |
| ModbusFrame.Client.BuildRequest0F | duksan_Lin/APP/Src/general_modbus_eth_client_NO_HEADER.c:430-460 | builds the coil-write frame with the payload copied as given |
| ModbusFrame.Client.BuildRequest10 | duksan_Lin/APP/Src/general_modbus_eth_client_NO_HEADER.c:502-537 | builds the register-write frame for any point count and byte size: payload cut or zero-filled at the byte size |
| ModbusFrame.CheckRxMsg | duksan_Lin/APP/Src/general_modbus_eth_server.c:50-71 | returns 1 exactly for received messages whose trailer is their checksum |
| ModbusFrame.CheckRxReadMsg | duksan_Lin/APP/Src/general_modbus_eth_client_NO_HEADER.c:123-149 | 0 for nothing received, 1 for a matching trailer, -1 otherwise |
| ModbusServer.GetValues0102 | duksan_Lin/APP/Src/general_modbus_eth_server.c:73-91 | reads address and count as big-endian words; byte count is the byte size modulo 256, in numbers for every count of 0 or more |
| ModbusServer.GetValues0304 | duksan_Lin/APP/Src/general_modbus_eth_server.c:93-110 | the same with two bytes per point, modulo 256, in numbers for every count |
| ModbusServer.GetValues0506 | duksan_Lin/APP/Src/general_modbus_eth_server.c:112-127 | reads address and value as big-endian words |
| ModbusServer.GetValues0F | duksan_Lin/APP/Src/general_modbus_eth_server.c:129-152 | copies exactly the announced payload and nothing else |
| ModbusServer.GetValues10 | duksan_Lin/APP/Src/general_modbus_eth_server.c:154-181 | stores one word for every payload byte pair begun and nothing else |
| ModbusServer.RoundTripRequest | duksan_Lin/APP/Src/general_modbus_eth_client_NO_HEADER.c:222-229 | the frame of functions 1 to 6 is accepted and holds every field where the server reads it, for all field values |
| ModbusServer.RoundTrip0F | duksan_Lin/APP/Src/general_modbus_eth_client_NO_HEADER.c:452-460 | the frame of function 0x0F is accepted and holds fields, byte size and payload where the server reads them |
| ModbusServer.RoundTrip10Fields | duksan_Lin/APP/Src/general_modbus_eth_client_NO_HEADER.c:523-537 | the frame of function 0x10 is accepted and holds the fields where the server reads them, for every byte size |
| ModbusServer.RoundTrip10Iff | duksan_Lin/APP/Src/general_modbus_eth_client_NO_HEADER.c:530-537 | the registers come back exactly when the byte size is twice their number, or one less and the checksum supplies the missing byte |
| RequestDelivery.QuietOrRejected | duksan_Lin/APP/Src/general_modbus_eth_server.c:50-71 | a client frame is taken by the server exactly when the flipped bits divide out: without noise always, with one to three flipped bits never |
| RequestDelivery.Deliver0102 | duksan_Lin/APP/Src/general_modbus_eth_server.c:73-91 | functions 1 and 2 built, delivered, checked, extracted: every field comes back, with the byte size of the count; one to three flipped bits are rejected |
| RequestDelivery.Deliver0304 | duksan_Lin/APP/Src/general_modbus_eth_server.c:93-110 | the same for functions 3 and 4, with two bytes per point |
| RequestDelivery.Deliver0506 | duksan_Lin/APP/Src/general_modbus_eth_server.c:112-127 | the same for functions 5 and 6, with the value |
| RequestDelivery.Deliver0F | duksan_Lin/APP/Src/general_modbus_eth_server.c:129-152 | the same for function 0x0F, payload included; a rejected request leaves the server's data alone |
| RequestDelivery.Deliver10 | duksan_Lin/APP/Src/general_modbus_eth_server.c:154-181 | the same for function 0x10: fields always come back, registers exactly under the condition of RoundTrip10Iff |
| ReplyDelivery.ReplyPassesIff | duksan_Lin/APP/Src/general_modbus_eth_client_NO_HEADER.c:123-149 | a reply passes exactly when the flipped bits divide out: without noise always, with one to three flipped bits never |
| ReplyDelivery.Deliver0304 | duksan_Lin/APP/Src/general_modbus_eth_client_NO_HEADER.c:282-350 | an undisturbed register reply is decoded word for word; with one to three flipped bits the result is 0 and the registers stay |
| ReplyDelivery.Deliver0102 | duksan_Lin/APP/Src/general_modbus_eth_client_NO_HEADER.c:203-274 | the same for coil bytes |
| ClientReads.PassesIff | duksan_Lin/APP/Src/general_modbus_eth_client_NO_HEADER.c:123-149 | a reply of two bytes or more passes if and only if the register of all of it is 0 |
| ClientReads.PassesShort | duksan_Lin/APP/Src/general_modbus_eth_client_NO_HEADER.c:123-149 | an empty reply never passes; a lone byte or a failed receive passes as the memory outside the buffer says |
| ClientReads.DataAnalyze0304 | duksan_Lin/APP/Src/general_modbus_eth_client_NO_HEADER.c:170-188 | the double-increment loop fills exactly the requested cells from the payload byte pairs |
| ClientReads.DecodedValue | duksan_Lin/APP/Src/general_modbus_eth_client_NO_HEADER.c:178-188 | cell k is 256 times payload byte 2k plus payload byte 2k+1, minus 65536 if byte 2k has its top bit set |
| ClientReads.Request0304 | duksan_Lin/APP/Src/general_modbus_eth_client_NO_HEADER.c:282-350 | only a reply that passes changes the caller's registers; result 1 exactly for replies with register 0, registers and both buffers for every outcome of send and receive, failed receives and lone bytes included |
| ClientReads.DataAnalyze0102 | duksan_Lin/APP/Src/general_modbus_eth_client_NO_HEADER.c:151-168 | copies exactly the bytes that hold the requested coils, from the fourth byte of the reply on |
| ClientReads.Request0102 | duksan_Lin/APP/Src/general_modbus_eth_client_NO_HEADER.c:203-274 | the coil read returns -1 and keeps both buffers when send or receive fails, otherwise decodes only a reply that passes and clears both |
| Coils.DataAnalyze0102 | duksan_Lin/APP/Src/general_modbus_eth_client.c:143-164 | fills exactly eight cells for each byte visited, each with its bit |
| Coils.CoilsOfByte | duksan_Lin/APP/Src/general_modbus_eth_client.c:143-164 | the first coil is the lowest bit: a byte is the sum of its coils times the powers of two |
| Coils.PackUnpacked | duksan_Lin/APP/Src/general_modbus_eth_client.c:53-66 | packing any unpacked group of eight restores the received byte |
| Coils.UnpackPackedIff | duksan_Lin/APP/Src/general_modbus_eth_client.c:53-66 | unpacking a packed group gives it back exactly when every int is 0 or 1 |
| RingQueue.PointQueue.constructor | duksan_Lin/APP/Temp/LIB_INTERFACE(not used)/libqueue.c:6-12 | a fresh queue is empty |
| RingQueue.PointQueue.Put | duksan_Lin/APP/Temp/LIB_INTERFACE(not used)/libqueue.c:14-30 | appends unless one slot fewer than the array has is in use; a refused put changes nothing |
| RingQueue.PointQueue.Get | duksan_Lin/APP/Temp/LIB_INTERFACE(not used)/libqueue.c:32-44 | takes the oldest message; an empty get changes nothing |
| RingQueue.FirstInFirstOut | duksan_Lin/APP/Temp/LIB_INTERFACE(not used)/libqueue.c:6-44 | any interleaving: outputs are a prefix of accepted inputs in order, the rest waits, at most size - 1 held |
| WriteService.GetMessage | duksan_Lin/APP/Iface/BACNET/bacnet_manager.c:162-178 | one dequeue: the oldest message, which leaves the queue, or nothing exactly if there is none |
| WriteService.Sweep | duksan_Lin/APP/Iface/BACNET/bacnet_manager.c:1398-1418 | what each point slot of a sweep serves, with arbitrary arrivals between slots, and conservation |
| WriteService.Conservation | duksan_Lin/APP/Iface/BACNET/bacnet_manager.c:1398-1418 | what slots served, then what waits, is what waited before, then what was accepted: nothing is served that nobody put, nothing accepted is lost |
| WriteService.ArriveAppends | duksan_Lin/APP/Iface/BACNET/bacnet_manager.c:143-158 | of a slot's arrivals exactly the first that find room join the end, in order |
| WriteService.ServedAfterDepth | duksan_Lin/APP/Iface/BACNET/bacnet_manager.c:1398-1418 | a request with d messages ahead is served by exactly the (d+1)th slot, whatever arrives |
| WriteService.Sweeps | duksan_Lin/APP/Iface/BACNET/bacnet_manager.c:1385-1418 | what the slots of successive sweeps serve is what one long sweep over all of them serves |
| WriteService.RequestAndServe | duksan_Lin/APP/Iface/BACNET/bacnet_manager.c:1398-1418 | an accepted put followed by sweeps: the slot after its depth serves it, so with at least one point within depth plus one sweeps |
| WriteService.WaitingConcat | duksan_Lin/APP/Iface/BACNET/bacnet_manager.c:1385-1418 | slots may be split into sweeps anywhere without changing the queue |
| WriteService.ServedWithinCapacity | duksan_Lin/APP/Iface/BACNET/bacnet_manager.c:143-158 | any accepted request is among what the next size - 1 slots serve |
| WriteService.InterlockSaturates | duksan_Lin/APP/Iface/BACNET/bacnet_manager.c:1398-1418 | with two or more arrivals in every slot the queue is full within size - 2 slots; from then on a slot accepts at most its first arrival |
| WriteService.AcceptedIsServed | duksan_Lin/APP/Iface/BACNET/bacnet_manager.c:143-158 | every request the queue accepts is served within its depth plus one slots |
| SweepScheduler.Scheduler.Run | duksan_Lin/APP/Iface/BACNET/bacnet_manager.c:1385-1485 | the loop over n sweeps ends in the state at n modulo 81 of the cycle, the kinds it swept are those of KindAfter, and none is left out for longer than its window |
| SweepScheduler.ClosedForm | duksan_Lin/APP/Iface/BACNET/bacnet_manager.c:1375-1485 | after n sweeps the full state is a closed function of n modulo 81 |
| SweepScheduler.KindAfter | duksan_Lin/APP/Iface/BACNET/bacnet_manager.c:1425-1485 | which kind the n-th sweep reads, in the codes of the source, for every n |
| SweepScheduler.PeriodIsExact | duksan_Lin/APP/Iface/BACNET/bacnet_manager.c:1425-1485 | two moments have the same state exactly when 81 divides their distance |
| SweepScheduler.AlwaysReached | duksan_Lin/APP/Iface/BACNET/bacnet_manager.c:1425-1485 | on every run both counters stay in 0..3 and the kind is one of six |
| SweepScheduler.UntilIsExact | duksan_Lin/APP/Iface/BACNET/bacnet_manager.c:1425-1485 | from any reachable state, after how many sweeps a kind comes next, and not before |
| SweepScheduler.SweepFairness | duksan_Lin/APP/Iface/BACNET/bacnet_manager.c:1425-1485 | every 21 consecutive sweeps include FILTER, every 10 TEMP, every 6 each other kind |
| SweepScheduler.WindowIsTight | duksan_Lin/APP/Iface/BACNET/bacnet_manager.c:1425-1485 | none of these windows can be one sweep shorter |
| ObjectAddress.PointRoundTripIff | duksan_Lin/APP/Iface/BACNET/bacnet_manager.c:1108-1111 | an object instance unpacks to its point exactly when all fields fit, on all 32-bit inputs |
| ObjectAddress.InstanceInjective | duksan_Lin/APP/Iface/BACNET/bacnet_manager.c:1016-1019 | distinct points that fit never share an instance, hence no cache slot |
| ObjectAddress.InstancesInOrder | duksan_Lin/APP/Iface/BACNET/bacnet_manager.c:1108-1111 | instances start at 0 and count through offsets, units, devices and types without gap |
| ObjectAddress.InstanceInCacheIff | duksan_Lin/APP/Iface/BACNET/bacnet_manager.c:1108-1111 | points that fit index the caches in range exactly for the first sixteen types |
| ObjectAddress.DeviceInstanceInjective | duksan_Lin/APP/Iface/BACNET/bacnet_manager.c:1097-1098 | the device instance identifies type and device |
| ObjectAddress.DeviceNumbersInOrder | duksan_Lin/APP/Iface/BACNET/bacnet_manager.c:1097-1098 | device instances start at 9000 and count through devices, then types, without gap |
| ObjectAddress.OversizedUnitsCollide | duksan_Lin/APP/Iface/BACNET/bacnet_manager.c:1108-1111 | a unit number of 16 takes the instance of another device's point |
| ObjectAddress.IdRoundTripIff | duksan_Lin/INCLUDE/bacnet_include/bacdef.h:93-95 | an identifier gives type and instance back exactly when they fit 10 and 22 bits |
| ObjectAddress.IdsInOrder | duksan_Lin/INCLUDE/bacnet_include/bacdef.h:93-95 | identifiers are ordered by type first, and for type 0 are the instance itself |
| ObjectAddress.IdUnpackPack | duksan_Lin/INCLUDE/bacnet_include/bacdef.h:93-95 | every 32-bit identifier is the packing of the type and instance it unpacks to |
| ObjectAddress.AddressRoundTripIff | duksan_Lin/INCLUDE/bacnet_include/bacdef.h:93-95 | point and object type survive both packings exactly when every field fits its place |
| ChangeLog.StampReadsBack | duksan_Lin/APP/Iface/IFACE_CCMS/iface_ccms_mgr.c:1154-1155 | month, day, hour and minute come back from the two packed words as lines 940-945 take them apart |
| ChangeLog.Log.ShiftDown | duksan_Lin/APP/Iface/IFACE_CCMS/iface_ccms_mgr.c:1142-1148 | the two copies through the scratch array are a shift by one place inside both arrays |
| ChangeLog.Log.PutLog | duksan_Lin/APP/Iface/IFACE_CCMS/iface_ccms_mgr.c:1132-1164 | the count is min(100, calls) and the slots before it hold the newest entries, newest first |
| ChangeLog.Log.Restore | duksan_Lin/APP/Iface/IFACE_CCMS/iface_ccms_mgr.c:1214-1224 | the startup snapshot becomes the base of replay |
| ChangeLog.Log.ValueCheck | duksan_Lin/APP/Iface/IFACE_CCMS/iface_ccms_mgr.c:1168-1211 | logs exactly the cells that moved by 1 or more, in row order, returns their number, keeps table equal to replayed history, and leaves every cell within less than 1 of its replayed value |
| ChangeLog.Log.Scans | duksan_Lin/APP/Iface/IFACE_CCMS/iface_ccms_mgr.c:1168-1211 | a run of scans after a restore logs the history that NeverDrifts speaks of, and counts it |
| ChangeLog.ReplayScan | duksan_Lin/APP/Iface/IFACE_CCMS/iface_ccms_mgr.c:1181-1208 | replaying a scan's entries over the earlier history moves exactly the scanned cells |
| ChangeLog.NeverDrifts | duksan_Lin/APP/Iface/IFACE_CCMS/iface_ccms_mgr.c:1168-1224 | over any sequence of table contents, after each scan every cell is within less than 1 of its last logged or startup value |
| ChangeLog.QuietScanIff | duksan_Lin/APP/Iface/IFACE_CCMS/iface_ccms_mgr.c:1183-1193 | a scan logs nothing exactly when every cell is within less than 1 of its last value |
| ChangeLog.ScanLogEntries | duksan_Lin/APP/Iface/IFACE_CCMS/iface_ccms_mgr.c:1181-1208 | a scan logs only cells off by 1 or more, each with its new value and its own clock reading, later cells in row order above earlier ones |
| ChangeLog.SecondScanIsQuiet | duksan_Lin/APP/Iface/IFACE_CCMS/iface_ccms_mgr.c:1168-1211 | scanning an unchanged table again adds nothing to the log |
| PointObserver.NamesDistinct | duksan_Lin/APP/Temp/POINT/point_observer.c:254-256 | patched two-digit file names are distinct |
| PointObserver.NameSpellsNumber | duksan_Lin/APP/Temp/POINT/point_observer.c:254-256 | the name of PCM i is /duksan/DATA/point, i in two decimal digits, .dat |
| PointObserver.Observer.GetFileAccess | duksan_Lin/APP/Temp/POINT/point_observer.c:159-169 | takes a flag exactly if it is 0 |
| PointObserver.Observer.ReleaseFileAccess | duksan_Lin/APP/Temp/POINT/point_observer.c:188-199 | frees a flag exactly if it is 1 |
| PointObserver.Observer.CheckFileStatus | duksan_Lin/APP/Temp/POINT/point_observer.c:393-409 | which state follows, and the flag taken exactly on the way to repair |
| PointObserver.Observer.CreateFile | duksan_Lin/APP/Temp/POINT/point_observer.c:270-298 | a created file holds its table row |
| PointObserver.Observer.RepairFile | duksan_Lin/APP/Temp/POINT/point_observer.c:308-334 | read, seek back, rewrite: the first 256 values become the row, a tail stays, a short file is gone exactly if one of the removals tried succeeds |
| PointObserver.Observer.FileCheck | duksan_Lin/APP/Temp/POINT/point_observer.c:219-371 | one run ends for every outcome of opens and flags, visits each PCM once in order, and does to each file what one visit does |
| MirrorRepair.RunFile | duksan_Lin/APP/Temp/POINT/point_observer.c:245-368 | a run treats every file on its own: its outcome depends on that file, flag and row alone |
| MirrorRepair.RunOutcome | duksan_Lin/APP/Temp/POINT/point_observer.c:245-368 | what a run leaves of a file, value by value, for every content, flag and outcome; a missing file is created whatever its flag |
| MirrorRepair.RunFirstOthers | duksan_Lin/APP/Temp/POINT/point_observer.c:241-256 | files with other names are never touched |
| MirrorRepair.OneRunMirrorsIff | duksan_Lin/APP/Temp/POINT/point_observer.c:308-334 | one run mirrors a file exactly when it was missing or at least 256 values long |
| MirrorRepair.TwoRunsMirror | duksan_Lin/APP/Temp/POINT/point_observer.c:252-341 | from any files on disk, flags free and opens succeeding, two runs mirror every row and leave all flags free |
| MirrorRepair.TwoRunsMirrorByName | duksan_Lin/APP/Temp/POINT/point_observer.c:252-341 | the same by name: after two runs the file whose name spells the PCM holds its 256 table values and its flag is free |
| MirrorRepair.MirroredFileIsStable | duksan_Lin/APP/Temp/POINT/point_observer.c:308-324 | a file that mirrors its row is left exactly as it is |
| MirrorRepair.FlagLostIff | duksan_Lin/APP/Temp/POINT/point_observer.c:300-306 | a flag taken is given back except exactly when the second open fails |
| MirrorRepair.LostFlagStaysLost | duksan_Lin/APP/Temp/POINT/point_observer.c:159-199 | a flag that is not free keeps its value through any number of runs, for every disk and every outcome |
| MirrorRepair.TakenFlagFreezesFile | duksan_Lin/APP/Temp/POINT/point_observer.c:405-408 | while the flag is taken, a file that is there and readable keeps its contents through any number of runs |

## Left out

- CheckRxMsg: lengths of 1 and below 0 are excluded, because the code then reads outside the buffer; the same holds for CheckRxReadMsg.
- Request0304: after a failed receive or a one-byte reply the code compares memory outside the buffer; what that comparison yields is a parameter. The same holds for a one-byte reply in Request0102.
- BuildRequest10: point counts above 508 are excluded, because the register loop then writes past the transmit buffer; the same holds for Deliver10.
- IsCrc16: negative lengths are excluded, because the loop counter then runs through all integers.
- ValueCheck: point values are reals, so rounding of the float difference and NaN are not captured; the clock is a parameter.
- FileCheck: the point table does not change within a run, each open has one outcome per file and run, and the directory check, the node list file and the sleeps are not modelled.
- RepairFile: the code writes over a value and reads the next one on the same stream without repositioning in between (point_observer.c:310-319), which ISO C leaves undefined; the model takes the library to continue at the file position, as the code expects. The `pSet` call for the gateway's own PCM writes back the value just read from the table and is omitted; fewer than four stray bytes at the end of a file never read as a value and are not represented.
- Sweep: only the queue's side of a slot. The interlock's own puts are among the arrivals of a slot, but the table conditions that trigger them are not modelled; looking a request up, writing the property and reading the point do not touch the queue. `read_OnOff` is one more sweep of the same slots.
- DataAnalyze0102: debug output.
- The Modbus TCP request builders: the same fields behind a transaction header without checksum.
- The single write, coil write and register write exchanges after the frame is built: they send, receive, check and clear as the register read does, without decoding.
- Sockets, threads and mutexes: each locked region is one atomic step.
- HTML pages, `cfile_log` and its backup file, the AHU tables and the point-file parser: output and configuration.
- `queue_handler.c` and the client's copies of the tables and loops: the same code as modelled here.
