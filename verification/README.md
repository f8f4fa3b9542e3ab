# The data plane of a PLC runtime

A Dafny model of how this OpenPLC runtime moves process values between a PLC program, Modbus frames, slave
devices and disk, with proofs of what the pieces keep. Code that loops over buffers and fields is modelled as methods
on arrays and classes, each proved against a specification function; the laws about these functions are lemmas over all
inputs, all runs or all files.

| area | modules |
|---|---|
| RTU framing and CRC | `Crc`, `CrcAlgebra`, `CrcBits`, `Rtu` |
| Modbus/TCP server: register file, handlers, laws, answers | `Bytes`, `RegisterFile`, `ModbusReply`, `ModbusServer`, `ModbusLaws`, `ServerAnswers` |
| Modbus/TCP master | `TcpRequest`, `TcpMaster` |
| Slave polling against the scan cycle, connections, address page | `SlavePolling`, `PollThread`, `SlaveLinks`, `WebLayout`, `SlaveRows` |
| Slave configuration, written and parsed | `Text`, `Utf8`, `Escape`, `MbConfig`, `MbConfigLaws`, `MbConfigFile` |
| ST optimizer: program, merge, meaning, exceptions and open blocks | `StOptimizer`, `StMerge`, `StMergeLaws`, `StMeaning`, `StTotal` |
| Persistent storage | `PersistentStorage`, `PersistenceLaws` |
| Debug tracing | `DebugTrace`, `DebugAnswers` |
| Located variables, glue generator and monitor | `Addressing`, `Monitoring` |

How the originals' machinery appears:

- A C pointer into typed memory is an index into a store of cells of that type, so two table slots may alias
  (`RegisterFile`). Cells have their machine width as bit vectors.
- The network, the clock and file opening are parameters: a poll step has a free outcome, a save pass a flag
  whether the file opens. Locks are atomic steps (`SlavePolling.Step`).
- A C++ exception, a Python exception and running off a buffer are the results `None` or a flag.
- Texts of the web server are sequences of characters; the file has their bytes in UTF-8, written as characters below 256.

Where code and intent differ, the model follows the code:

- The 16-bit memory range begins at register 1024 in `mapUnusedIO`, but reads and writes test `<= 1024` first
  (webserver/core/modbus.cpp:342 and 578), so register 1024 is what stands behind the table of outputs (`Tables.afterIntOutput`), modelled as a pointer to a 16-bit word. In the generated
  file that is the first entry of `dint_input` (utils/glue_generator_src/glue_generator.cpp:60-63), whose cell may be 32 bits wide. The monitor's
  %MW0 is the register this hits; `Monitoring.MonitorReadsGluedCell` has the exact condition.
- Unmapped 32- and 64-bit addresses store a whole word but show its low byte twice (webserver/core/modbus.cpp:390-391 and
  426-427). `ModbusLaws.RoundTripIff` has the exact condition for a round trip.
- Coils are read and written in whole bytes, so padding bits are coils too, and a request for one of the last seven bits of a table is
  refused (webserver/core/modbus.cpp:206-211): the monitor cannot show %IX1023.1 to %IX1023.7 and the outputs of the same numbers.
- The parser of the slave configuration copies texts into small buffers without a bound (webserver/core/modbus_master.cpp:92-110); the model ends
  with `None` where a text does not fit. Every parity of the web form (webserver/pages.py:1505-1511) is too long
  for its three bytes (`MbConfigFile.FormParitiesFail`).
- `crc16` takes its length as 16 bits; `Rtu.AdjacentErrorsDetectedIff` says where this matters. The frames of libmodbus have at most 260
  bytes (utils/libmodbus_src/src/modbus.c:40), so none of its callers comes near the 65536 bytes from which errors can pass.
- `debugGetTrace` puts its data at offset 17 but reports 13 plus the data as the length, four bytes short
  (webserver/core/modbus.cpp:881 and 907); the page and the size field are right (`DebugTrace.ReplyCarriesPage`).
- The optimizer also collects nested blocks under an earlier header, a second time
  (utils/st_optimizer_src/st_optimizer.cpp:143-161), and ends with an exception on some short lines.

Names that recur: a *stray* is a nested block under the header of an earlier top-level block; a place is a 16-bit word of memory, in a cell of its own or a part of a wider one.

## Model

| member | source | states |
|---|---|---|
| `Crc.TableCorrect` | utils/libmodbus_src/src/modbus-rtu.c:35-92 | every one of the 256 entries of the two tables is the eight-step shift of its index under polynomial 0xA001 |
| `CrcAlgebra.StepCorrect` | utils/libmodbus_src/src/modbus-rtu.c:143-147 | one turn of the table loop, on two byte-wide registers, is one byte of the bit-serial CRC, for every state and byte |
| `CrcAlgebra.TableRunCorrect` | utils/libmodbus_src/src/modbus-rtu.c:136-150 | the table routine and the bit-serial CRC agree on every message from every state |
| `Rtu.Crc16` | utils/libmodbus_src/src/modbus-rtu.c:136-150 | the loop over an array returns the bit-serial CRC (polynomial 0xA001, initial value 0xFFFF) with its bytes swapped |
| `Rtu.SendMsgPre` | utils/libmodbus_src/src/modbus-rtu.c:159-166 | appends the two CRC bytes behind the request and changes nothing else |
| `Rtu.CheckIntegrity` | utils/libmodbus_src/src/modbus-rtu.c:411-446 | 0 exactly for a frame whose first byte is neither the unit nor 0; for any other, the length when the bit-serial CRC of the covered bytes is the last two, low byte first, and -1 when it is not; below 65538 bytes, that is when the CRC over the whole frame is 0 |
| `Rtu.IntegrityMeaning` | utils/libmodbus_src/src/modbus-rtu.c:411-446 | the same for the function that the laws about frames use: told by the bytes and the bit-serial CRC alone |
| `Rtu.IntegrityByResidue` | utils/libmodbus_src/src/modbus-rtu.c:411-446 | below 65538 bytes: accepted exactly when the CRC over the whole frame ends at 0 |
| `Rtu.KnownFrame` | utils/libmodbus_src/src/modbus-rtu.c:136-166 | the frame 01 03 00 00 00 0A has the CRC bytes C5 CD |
| `CrcBits.ByteAsBits` | utils/libmodbus_src/src/modbus-rtu.c:136-150 | a byte of the CRC is eight single-bit steps, least significant bit first |
| `CrcBits.ResidueZero` | utils/libmodbus_src/src/modbus-rtu.c:136-150 | running the CRC over a message and two more bytes gives zero exactly when the two bytes are its CRC |
| `CrcBits.WindowInjective` | utils/libmodbus_src/src/modbus-rtu.c:136-150 | from one state, two different sequences of at most sixteen bits never lead to the same state |
| `CrcBits.SuffixInjective` | utils/libmodbus_src/src/modbus-rtu.c:136-150 | different states stay different under any common continuation: the step is a bijection |
| `CrcBits.OddFlipsChangeRegister` | utils/libmodbus_src/src/modbus-rtu.c:136-150 | an odd number of flipped bits always changes the final state |
| `Rtu.MatchesIffZeroResidue` | utils/libmodbus_src/src/modbus-rtu.c:428-433 | the CRC comparison succeeds exactly when the residue over the whole frame is zero |
| `Rtu.SentFrameAccepted` | utils/libmodbus_src/src/modbus-rtu.c:159-166 | every frame that was sent is accepted by the slave it is for, whatever its length |
| `Rtu.BurstRejected` | utils/libmodbus_src/src/modbus-rtu.c:411-446 | a frame that differs from a sent one within sixteen consecutive bits, anywhere in it, is never accepted |
| `Rtu.OddFlipsRejected` | utils/libmodbus_src/src/modbus-rtu.c:411-446 | a frame with an odd number of flipped bits is never accepted |
| `Rtu.AdjacentErrorsDetectedIff` | utils/libmodbus_src/src/modbus-rtu.c:136-166 | every corruption confined to two adjacent bytes is rejected if and only if the payload is shorter than 65536 bytes; the 16-bit length argument of crc16 is the reason |
| `Rtu.UncoveredByteAccepted` | utils/libmodbus_src/src/modbus-rtu.c:136-166 | the other half: from 65536 bytes on there is an accepted corruption |
| `RegisterFile.PeekPoke` | webserver/core/modbus.cpp:339-435 | writing one 16-bit word of memory changes what is read at that place and at no other: not the other half or three quarters of a wide cell, nor any other cell |
| `RegisterFile.AssignRefines` | webserver/core/modbus.cpp:575-629 | one register write to the four memories is one assignment to the flat map of 8192 words, aliases included |
| `RegisterFile.AssignAllRefines` | webserver/core/modbus.cpp:727-774 | so is any block of writes, whatever regions it crosses |
| `RegisterFile.MapAssignAllAt` | webserver/core/modbus.cpp:727-774 | without aliases a block assigns exactly the mapped addresses of the block |
| `RegisterFile.MapAssignAllLast` | webserver/core/modbus.cpp:727-774 | with aliases, the last write to a cell wins |
| `RegisterFile.AssignAllClipped` | webserver/core/modbus.cpp:755-768 | the part of a block behind the last address has no effect |
| `RegisterFile.MapUnusedIdempotent` | webserver/core/modbus.cpp:120-159 | mapping the unused slots twice is mapping them once |
| `RegisterFile.MapUnusedFills` | webserver/core/modbus.cpp:120-159 | afterwards no bool or 16-bit slot is null, and every slot that was glued keeps its pointer |
| `RegisterFile.MapUnusedPlaces` | webserver/core/modbus.cpp:120-159 | where each empty slot leads: the discrete input, coil, input register or holding register of its own number, memory words from 1024 on |
| `RegisterFile.MapUnusedNoAlias` | webserver/core/modbus.cpp:120-159 | no two slots share a cell, when the glued ones did not and stay out of the Modbus arrays |
| `RegisterFile.InitialMapDistinct` | webserver/core/modbus.cpp:120-159 | no two of the 8192 register addresses denote the same place, and only register 1024 can denote none |
| `ModbusServer.Server.MapUnusedIO` | webserver/core/modbus.cpp:120-159 | the loops leave the tables of the specification |
| `ModbusServer.Server.ModbusError` | webserver/core/modbus.cpp:164-171 | the nine bytes of an exception reply; the rest of the buffer stays |
| `ModbusServer.Server.ReadCoils` | webserver/core/modbus.cpp:176-238 | the reply in place, for every request and size |
| `ModbusServer.Server.ReadDiscreteInputs` | webserver/core/modbus.cpp:243-305 | the reply in place, for every request and size |
| `ModbusServer.Server.ReadHoldingRegisters` | webserver/core/modbus.cpp:310-446 | the reply in place: the registers of the flat map, or the exception |
| `ModbusServer.Server.ReadInputRegisters` | webserver/core/modbus.cpp:451-511 | the reply in place, for every request and size |
| `ModbusServer.Server.WriteToRegister` | webserver/core/modbus.cpp:575-629 | the new store, by shift and mask in the wide cells, is one assignment at that address; the error for addresses behind the last |
| `ModbusServer.Server.WriteCoil` | webserver/core/modbus.cpp:516-570 | new store and reply |
| `ModbusServer.Server.WriteRegister` | webserver/core/modbus.cpp:635-663 | new store and reply; what they are is in RegisterWritten and WriteAnswer of ServerAnswers |
| `ModbusServer.Server.WriteMultipleCoils` | webserver/core/modbus.cpp:668-722 | new store and reply: whole bytes of coils, and what is written before an overrun is noticed |
| `ModbusServer.Server.WriteMultipleRegisters` | webserver/core/modbus.cpp:727-774 | new store and reply: the writes before an overrun stay |
| `ModbusServer.Server.ProcessModbusMessage` | webserver/core/modbus.cpp:1060-1164 | dispatch by function code: new store, reply and reply size for every message |
| `ModbusReply.PackedBits` | webserver/core/modbus.cpp:206-211 | bit j of a packed byte is the bool j places on |
| `ModbusReply.RegisterDataAt` | webserver/core/modbus.cpp:326-437 | the two bytes of each register in a reply |
| `ModbusLaws.BlockWritten` | webserver/core/modbus.cpp:575-629 | after a block write every one of the 8192 registers is known |
| `ModbusLaws.RoundTripIff` | webserver/core/modbus.cpp:310-446 | reading a block back gives the written bytes if and only if each word is one its address can show: mapped, or of a form that an unmapped address repeats |
| `ModbusLaws.WriteThenRead` | webserver/core/modbus.cpp:727-774 | Write Multiple Registers, then Read Holding Registers, as whole messages: the echo, and the written bytes exactly under that condition, for any range inside 0 to 8191 |
| `ModbusLaws.InitialisedFaithful` | webserver/core/modbus.cpp:120-159 | after start-up the condition holds at every glued or 16-bit address except 1024 |
| `ModbusLaws.UngluedHighByteLost` | webserver/core/modbus.cpp:383-392 | an input on the failing side: with nothing glued, a word of two different bytes written to register 2048 does not read back |
| `ModbusLaws.OverrunningWrite` | webserver/core/modbus.cpp:755-768 | a write that runs past 8191 is answered with exception 2 and still applies exactly its words in range |
| `ModbusLaws.CoilsWritten` | webserver/core/modbus.cpp:668-722 | a coil write changes the coils of the byte-rounded range and no other |
| `ModbusLaws.CoilRoundTripIff` | webserver/core/modbus.cpp:176-238 | coils read back as written if and only if each coil set is mapped |
| `ModbusLaws.UnmappedCoilLost` | webserver/core/modbus.cpp:176-238 | an input on the failing side: a coil set where nothing is mapped |
| `ModbusLaws.CoilsWriteThenRead` | webserver/core/modbus.cpp:668-722 | Write Multiple Coils, then Read Coils, as whole messages |
| `ModbusLaws.InitialisedCoils` | webserver/core/modbus.cpp:120-159 | after start-up every coil is mapped and none is an alias |
| `ModbusLaws.RepliesFormed` | webserver/core/modbus.cpp:1060-1164 | every reply, exceptions included: size 6 plus the length field, bytes 0 to 3 and 6 kept, byte 7 the function code or that code with its top bit set |
| `ServerAnswers.ShortOrUnknown` | webserver/core/modbus.cpp:1060-1164 | exception 1 below 8 bytes and for unknown function codes, exception 3 below 12 bytes |
| `ServerAnswers.BitsAnswer` | webserver/core/modbus.cpp:176-305 | bits read: whole bytes of data, or exception 2 when there are more than 255 or their last bit does not exist |
| `ServerAnswers.RegistersAnswer` | webserver/core/modbus.cpp:310-511 | registers read: two bytes for each, or exception 2 for more than 127 or past the last |
| `ServerAnswers.WriteAnswer` | webserver/core/modbus.cpp:516-663 | single writes: the echo up to address 8191, exception 2 beyond |
| `ServerAnswers.WritesAnswer` | webserver/core/modbus.cpp:668-774 | several values written: exception 3 when byte count or size do not go with the number, then exception 2 when an address does not exist, the echo otherwise |
| `ServerAnswers.BitsRead` | webserver/core/modbus.cpp:176-305 | bit k of the answer is 1 exactly when the coil or input k places on is mapped to a cell that is not 0 |
| `ServerAnswers.WordsRead` | webserver/core/modbus.cpp:310-446 | below 2048 the two bytes of a register are the number of its cell |
| `ServerAnswers.WideRead` | webserver/core/modbus.cpp:310-446 | above, of the half or quarter of its cell, the high one first; with nothing glued, the low byte of a word twice |
| `ServerAnswers.InputsRead` | webserver/core/modbus.cpp:451-511 | the two bytes of an input register are the number of its cell |
| `ServerAnswers.OnlyWritesWrite` | webserver/core/modbus.cpp:1060-1164 | no message but one of the four writes with at least 12 bytes changes the PLC |
| `ServerAnswers.CoilWritten` | webserver/core/modbus.cpp:516-570 | a single coil is set to 1 for any number but 0, where one is mapped, and nothing else changes |
| `ServerAnswers.RegisterWritten` | webserver/core/modbus.cpp:635-663 | function code 6: the register addressed takes the number of bytes 10 and 11, when it is mapped; every other one keeps its value |
| `ServerAnswers.RegisterReadBack` | webserver/core/modbus.cpp:635-663 | reading that register back gives bytes 10 and 11 if and only if its address can show them |
| `ServerAnswers.RegistersWritten` | webserver/core/modbus.cpp:727-774 | each register of a block takes the number of its own two bytes, and every other one keeps its value |
| `ServerAnswers.CoilsWrittenByRequest` | webserver/core/modbus.cpp:668-722 | each coil of the byte-rounded range takes its bit of the message, and nothing else changes |
| `TcpRequest.Context.BuildRequestBasis` | utils/libmodbus_src/src/modbus-tcp.c:88-117 | the twelve bytes of a request under the next transaction number |
| `TcpRequest.Context.Request` | utils/libmodbus_src/src/modbus.c:1382-1490 | the whole frame of a read, a single write, or a write of many bits or registers with its byte count and data, and the length field over all of it |
| `TcpRequest.Context.Requests` | utils/libmodbus_src/src/modbus-tcp.c:88-117 | any number of calls in a row: each frame is that of its call, under consecutive transaction numbers modulo 65536; calls for too many values send nothing and take no number |
| `TcpRequest.ByteBits` | utils/libmodbus_src/src/modbus.c:1415-1430 | the bits of a packed byte, and zeros behind the last one |
| `TcpRequest.WordsOfBytes` | utils/libmodbus_src/src/modbus.c:1475-1478 | the words that were put in are the words read from the data |
| `TcpRequest.SendMsgPre` | utils/libmodbus_src/src/modbus-tcp.c:148-157 | the length field, and nothing else |
| `TcpRequest.LimitsOfRequests` | utils/libmodbus_src/src/modbus.c:1175-1475 | at most 2000 bits or 125 registers are asked for, and 1968 bits or 123 registers written; every request that is sent fits 260 bytes |
| `TcpMaster.ServerConfirmed` | utils/libmodbus_src/src/modbus.c:508-637 | the server's reply to any request of a standard function passes the master's check: the values asked for, or one of two exceptions |
| `TcpMaster.LateReplyAcceptedIff` | utils/libmodbus_src/src/modbus-tcp.c:181-205 | over a history of requests, the reply to request j passes the check made for a later request k if and only if k - j is a multiple of 65536 |
| `TcpMaster.OnlyOwnReplyConfirmed` | utils/libmodbus_src/src/modbus.c:508-637 | over any history of reads and writes, with or without data: the server's reply to a request is confirmed, or reported as the exception it is, for that request, and is bad data for each of the 65535 requests after it |
| `TcpMaster.ReadDeliversRegisters` | utils/libmodbus_src/src/modbus.c:1232-1275 | the words the master takes from the reply are the server's registers |
| `TcpMaster.WritesRegisters` | utils/libmodbus_src/src/modbus.c:1445-1490 | words written by the master are the words assigned to the server's registers, as far as the addresses go |
| `TcpMaster.WritesBits` | utils/libmodbus_src/src/modbus.c:1382-1442 | bits written by the master are the server's coils; the coils that fill up the last byte are cleared with them, and no other changes |
| `TcpMaster.WriteConfirmed` | utils/libmodbus_src/src/modbus.c:508-637 | the master reports the number of values written exactly when all that the write touches exists, and exception 2 otherwise |
| `TcpMaster.ReadsBits` | utils/libmodbus_src/src/modbus.c:1112-1225 | what the client reads is what it asked for: coils or discrete inputs of the server, bit by bit |
| `TcpMaster.ReadsWords` | utils/libmodbus_src/src/modbus.c:1227-1325 | holding registers below 2048 or input registers of the server, number by number |
| `TcpMaster.ReadConfirmed` | utils/libmodbus_src/src/modbus.c:508-637 | the check reports the bytes or registers that go with the number asked for exactly when all of them exist, and exception 2 otherwise |
| `TcpMaster.WritesRegister` | utils/libmodbus_src/src/modbus.c:1330-1380 | a value written to one register is the value of the server's register afterwards, and no other register changes |
| `TcpMaster.WritesBit` | utils/libmodbus_src/src/modbus.c:1330-1380 | a status written to one bit is what the server's coil is set to, sent as FF 00 or 00 00 |
| `TcpMaster.SingleWriteConfirmed` | utils/libmodbus_src/src/modbus.c:1330-1380 | the master reports one value written up to address 8191, and exception 2 beyond |
| `TcpMaster.ConfirmedMeans` | utils/libmodbus_src/src/modbus.c:508-637 | the bytes of any reply at all that is taken for a confirmation of n values: those that go with transaction, function, length and number asked for |
| `TcpMaster.ExceptionMeans` | utils/libmodbus_src/src/modbus.c:508-637 | and the bytes of any reply that is taken for an exception |
| `SlavePolling.SlotsDisjoint` | webserver/core/modbus_master.cpp:360-605 | the slots of the devices are pairwise apart and inside the table, zero sizes included |
| `SlavePolling.StepKeepsInv` | webserver/core/modbus_master.cpp:360-605 | every step of either thread, whatever the network does, keeps the four indices aligned with the device and the stage |
| `SlavePolling.StepKeepsImage` | webserver/core/modbus_master.cpp:360-605 | every step keeps each device's slice equal to its last successful read |
| `SlavePolling.EveryRun` | webserver/core/modbus_master.cpp:360-605 | over every run, with arbitrary connect, read and write outcomes and scan cycles in between: the indices on reaching a device are the sums of the earlier sizes, and every image slot holds its owner's last read value or 0 |
| `SlavePolling.EveryWrite` | webserver/core/modbus_master.cpp:410-598 | whatever is sent to a device was at some earlier moment the content of that device's own output slots |
| `PollThread.Master.constructor` | webserver/core/modbus_master.cpp:48-52 | all buffers zero and nothing connected |
| `PollThread.Master.RtuPortConnected` | webserver/core/modbus_master.cpp:367-388 | whether another RTU device on the same port is connected |
| `PollThread.Master.ReadDiscreteInputs` | webserver/core/modbus_master.cpp:432-465 | the request and the locked copy, with any scan cycles before and between them: the steps taken by the state machine are those, and the arrays are its state |
| `PollThread.Master.WriteCoils` | webserver/core/modbus_master.cpp:468-498 | the locked copy and the request, with scan cycles before and between: what is sent was copied under the lock |
| `PollThread.Master.ReadInputRegisters` | webserver/core/modbus_master.cpp:501-534 | the same for the input registers, stored or skipped |
| `PollThread.Master.ReadHoldingRegisters` | webserver/core/modbus_master.cpp:537-569 | the same for the holding registers, behind the input registers in the same table |
| `PollThread.Master.WriteHoldingRegisters` | webserver/core/modbus_master.cpp:572-605 | the same for the registers written, and the step to the next device |
| `PollThread.Master.Connect` | webserver/core/modbus_master.cpp:367-412 | the port search and the connection attempt are one step of the state machine: to the first request, or over the device with all four indices |
| `PollThread.Master.PollDevice` | webserver/core/modbus_master.cpp:365-605 | the body of the loop over the devices, told by what the network reports: reached when connected, on an open serial line, or connected now; one request for each kind of register it has, with address and count, and none when not reached; a device that is not serial ends up connected exactly when it was reached and every read gave the number of values asked for and no write failed, a serial one keeps its connection, all others keep theirs; values read go to its slots, and what is sent stood in its slots after the scan cycles up to then; the recorded run grows by exactly these steps |
| `PollThread.Master.NextRound` | webserver/core/modbus_master.cpp:358-363 | a round over all devices ends with the indices back at zero; images, connections and calls made stay |
| `PollThread.Master.UpdateBuffersOut` | webserver/core/modbus_master.cpp:711-722 | the scan cycle publishes its whole output tables: entries 100+i/8, i%8 and 100+i go to slot i, null entries excepted, as one step of the state machine |
| `PollThread.Master.UpdateBuffersIn` | webserver/core/modbus_master.cpp:693-706 | over the whole input tables of 8192 bits and 1024 words: glued entries 800 to 1199 of the bits and 100 to 499 of the words get their image slots, and every other entry stays |
| `PollThread.BuffersShowDevices` | webserver/core/modbus_master.cpp:358-722 | after whatever calls were made, each slice of the input arrays holds the last values read from its device, at the offsets of the device list |
| `SlaveLinks.LinkedMeaning` | webserver/core/modbus_master.cpp:365-605 | what a list of calls leaves of a connection: it stands if and only if the last attempt succeeded and, unless the device is serial, every request since did |
| `SlaveLinks.LinksOfRun` | webserver/core/modbus_master.cpp:365-605 | after every run, the devices held for connected are exactly those for which the calls made and their results leave a connection |
| `SlaveLinks.RequestsOfRun` | webserver/core/modbus_master.cpp:365-605 | in every run, each request was made in a visit to its device that began with a connection, an open serial line, or an attempt that succeeded |
| `WebLayout.ListDevices` | webserver/webserver.py:1043-1081 | the four running counters print, for each device, the range of its slots |
| `WebLayout.PrintedIsPolled` | webserver/webserver.py:1043-1081 | an address is in the printed range of a device exactly when it is the table entry that the image copy uses for a slot that polling uses for that device |
| `WebLayout.RangesTile` | webserver/webserver.py:1043-1081 | the printed ranges are pairwise disjoint and together are the block from address 100 on, dashes included |
| `WebLayout.PrintedInputBitShows` | webserver/webserver.py:1043-1081 | %IX: after any run and the image copy, a printed address holds the value last read from the device of its row, at that place of its discrete inputs |
| `WebLayout.PrintedInputWordShows` | webserver/webserver.py:1043-1081 | %IW: the same for input registers and, behind them, holding registers read |
| `WebLayout.OutputImages` | webserver/core/modbus_master.cpp:711-722 | over every run, each slot of the output images holds what the scan cycle last published at its table entry |
| `WebLayout.PrintedOutputBitsSent` | webserver/webserver.py:1043-1081 | %QX: in every run, all coils of a request to a device are what had been published at their printed addresses at one earlier moment |
| `WebLayout.PrintedOutputWordsSent` | webserver/webserver.py:1043-1081 | %QW: the same for the registers written to a device |
| `SlaveRows.RowsArePolled` | webserver/core/modbus_master.cpp:610-635 | the devices that the thread polls are the rows of the device table, in order, with their sizes and addresses, when the rows fit the parser |
| `SlaveRows.RowsPolledAs` | webserver/core/modbus_master.cpp:187-313 | field by field: addresses and counts of each kind of register, protocol by the type of the row, IP text or serial device as its address |
| `SlaveRows.RowInputBitShows` | webserver/webserver.py:1043-1081 | from a row to the PLC: at the %IX addresses printed for it stand, after any run, the discrete inputs last read from the device it describes |
| `SlaveRows.RowInputWordShows` | webserver/webserver.py:1043-1081 | the same for its %IW addresses |
| `SlaveRows.RowCoilsSent` | webserver/webserver.py:1043-1081 | what is sent to the coils of a row's device had been published at the %QX addresses printed for the row |
| `SlaveRows.RowRegistersSent` | webserver/webserver.py:1043-1081 | the same for its %QW addresses |
| `StOptimizer.IsIfMeaning` | utils/st_optimizer_src/st_optimizer.cpp:39-56 | the IF test in terms of the line: true for spaces and "IF ", fatal for a line that ends inside it |
| `StOptimizer.IsEndIfMeaning` | utils/st_optimizer_src/st_optimizer.cpp:61-78 | the END_IF test; seven spaces alone are already fatal |
| `StOptimizer.CopyBlock` | utils/st_optimizer_src/st_optimizer.cpp:123-138 | the loop that copies a block, nesting counted |
| `StOptimizer.CollectDuplicates` | utils/st_optimizer_src/st_optimizer.cpp:143-161 | the loop that reads the rest of the file for identical headers |
| `StOptimizer.Optimize` | utils/st_optimizer_src/st_optimizer.cpp:100-191 | the whole program as loops over a file, including the early end and what an unclosed block leaves |
| `StMerge.ParsePrints` | utils/st_optimizer_src/st_optimizer.cpp:100-191 | a file that parses into lines and balanced blocks is the print of them |
| `StMerge.PrintParses` | utils/st_optimizer_src/st_optimizer.cpp:100-191 | and the print of well-formed items parses into them |
| `StMerge.CollectPrinted` | utils/st_optimizer_src/st_optimizer.cpp:143-161 | what reading ahead collects, nested headers included |
| `StMerge.OptimizerMergesIff` | utils/st_optimizer_src/st_optimizer.cpp:100-191 | on every file with balanced blocks the program ends, and its result is the merge if and only if no nested block with lines in it repeats the header of an earlier top-level block |
| `StMeaning.NestedHeaderNotMerged` | utils/st_optimizer_src/st_optimizer.cpp:143-161 | an input on the failing side: two balanced blocks, of which the second holds a block under the header of the first |
| `StMergeLaws.MergeOrder` | utils/st_optimizer_src/st_optimizer.cpp:100-191 | plain lines, first headers and first END_IFs keep their order; the headers and END_IFs of later duplicates go |
| `StMergeLaws.MergeDistinct` | utils/st_optimizer_src/st_optimizer.cpp:108-120 | each header is left once |
| `StMergeLaws.MergeBodies` | utils/st_optimizer_src/st_optimizer.cpp:143-161 | under every header, the lines of all its blocks in the order of the file |
| `StMergeLaws.MergeConserves` | utils/st_optimizer_src/st_optimizer.cpp:123-161 | the multiset of lines inside blocks is kept |
| `StMergeLaws.SecondRunIsIdentity` | utils/st_optimizer_src/st_optimizer.cpp:100-191 | run on its own result, the program changes nothing |
| `StTotal.OptimizerFailsIff` | utils/st_optimizer_src/st_optimizer.cpp:39-191 | the program ends with an exception exactly for the files with a line that ends inside the text looked for, by the nesting depth there |
| `StTotal.EveryFile` | utils/st_optimizer_src/st_optimizer.cpp:100-191 | every other file is made of lines and closed blocks, or of these and one open block at the end |
| `StTotal.OptimizerLeavesOpen` | utils/st_optimizer_src/st_optimizer.cpp:100-191 | the result for a file with an open block: closed blocks take along what it has under their headers; it stays unless its header was there before, and the last line read is left behind it |
| `StMeaning.RunPrinted` | utils/st_optimizer_src/st_optimizer.cpp:100-191 | interpreting a file line by line is interpreting its items |
| `StMeaning.RunJoined` | utils/st_optimizer_src/st_optimizer.cpp:123-161 | balanced lines run before what follows them |
| `StMeaning.OptimizerKeepsMeaning` | utils/st_optimizer_src/st_optimizer.cpp:103-170 | the optimized program takes every state to the same state, when each moved body commutes with what it crosses, nothing crossed or merged before changes the condition, and merged blocks have one branch |
| `StMeaning.MergingCanChangeMeaning` | utils/st_optimizer_src/st_optimizer.cpp:103-170 | without these conditions, which the program does not check, a three-item file that does something else afterwards |
| `PersistentStorage.BytesOfCell` | webserver/core/persistent_storage.cpp:114-144 | where the bytes of a cell stand in the file |
| `PersistentStorage.WriteMemory` | webserver/core/persistent_storage.cpp:114-144 | one of the writing loops |
| `PersistentStorage.ReadMemory` | webserver/core/persistent_storage.cpp:180-280 | one of the reading loops: early end at the end of the file or at a read error, zeros skipped |
| `PersistentStorage.Storage.CalculateCombinedChecksum` | webserver/core/persistent_storage.cpp:42-74 | the three loops compute the checksum of the memories |
| `PersistentStorage.Storage.SavePass` | webserver/core/persistent_storage.cpp:91-156 | one pass: when the checksum is the last one saved, nothing is written; otherwise the file is that of the memory, or the thread ends when it does not open |
| `PersistentStorage.Storage.ReadPersistentStorage` | webserver/core/persistent_storage.cpp:167-289 | start-up with a missing, short, failing or complete file |
| `PersistenceLaws.FileBytes` | webserver/core/persistent_storage.cpp:114-144 | the 14336 bytes of a file: 1024 words, double words and long words, low bytes first, 0 for an empty slot |
| `PersistenceLaws.PrefixOfFileRestores` | webserver/core/persistent_storage.cpp:180-280 | any prefix of a saved file sets exactly the cells whose value lies wholly inside it and is not zero |
| `PersistenceLaws.RestoreIff` | webserver/core/persistent_storage.cpp:167-289 | a complete file restores the saved values if and only if memory holds 0 wherever they are 0 |
| `PersistenceLaws.ZeroNotRestored` | webserver/core/persistent_storage.cpp:197-199 | an input on the failing side: cells saved as 0 keep what they hold at start-up |
| `PersistenceLaws.ChecksumMoves` | webserver/core/persistent_storage.cpp:42-74 | the checksum after any changes is the old one XOR all changes, 64-bit ones folded to 32 bits |
| `PersistenceLaws.ChecksumOfNothing` | webserver/core/persistent_storage.cpp:42-74 | and it is 0 for a memory without variables, which fixes it for every memory |
| `PersistenceLaws.IntChangeNoticed` | webserver/core/persistent_storage.cpp:95-101 | a single changed 16-bit cell always forces a save |
| `PersistenceLaws.DintChangeNoticed` | webserver/core/persistent_storage.cpp:95-101 | so does a single changed 32-bit cell |
| `PersistenceLaws.LintChangeMissedIff` | webserver/core/persistent_storage.cpp:69-101 | a single 64-bit change is missed if and only if its halves change by the same XOR |
| `PersistenceLaws.ChangeMissed` | webserver/core/persistent_storage.cpp:69-101 | an input on the failing side: a 64-bit cell that goes from 0 to 0x100000001 |
| `PersistenceLaws.FileAfterPasses` | webserver/core/persistent_storage.cpp:91-156 | after any passes the file is that of a memory since which no pass saw another checksum |
| `DebugTrace.PageIsLongest` | webserver/core/modbus.cpp:883-905 | a page is the longest run of values that fits the frame |
| `DebugTrace.DebugGetTrace` | webserver/core/modbus.cpp:866-918 | the whole frame and the reported length, 13 plus the data, for every request |
| `DebugTrace.DebugGetTraceList` | webserver/core/modbus.cpp:940-1017 | the same for a list of indices, which the values overwrite in the same buffer; an index out of range is noticed only if everything before it fits |
| `DebugTrace.ReplyCarriesPage` | webserver/core/modbus.cpp:907-917 | the index reached, and a size field equal to the number of value bytes |
| `DebugTrace.PagingYieldsAllIff` | webserver/core/modbus.cpp:866-918 | asking again from the last index on ends, and yields every variable of the range once and in order if and only if each has at most 243 bytes |
| `DebugTrace.LongValueNotYielded` | webserver/core/modbus.cpp:883-905 | an input on the failing side: a value of more than 243 bytes |
| `DebugAnswers.TraceAnswer` | webserver/core/modbus.cpp:866-918 | on the bytes: error 81 for a range that is not one of the table; otherwise code, success, last index, tick and size, each high byte first, and as many values from the start of the range as fit 243 bytes |
| `DebugAnswers.ListAnswer` | webserver/core/modbus.cpp:940-1017 | error 82 for more than sixty indices, error 81 where one out of range is reached, with the values before it left in the frame; otherwise the values in the order of the list, as many as fit, and the reported length |
| `Text.NumberOfDecimal` | utils/glue_generator_src/glue_generator.cpp:132-159 | decimal notation reads back as the number |
| `Text.AtoiOfDecimal` | utils/glue_generator_src/glue_generator.cpp:142-158 | so it does with atoi |
| `Text.AtoiOfText` | utils/glue_generator_src/glue_generator.cpp:142-158 | atoi skips white space, takes one sign, and stops at the first character that is no digit |
| `Text.ParseIntOfText` | webserver/monitoring.py:110-169 | int() takes white space around a number and one sign |
| `Addressing.FindPositions` | utils/glue_generator_src/glue_generator.cpp:131-159 | the two loops over a name, with the old buffer content when nothing follows the underscore |
| `Addressing.PositionsOfName` | utils/glue_generator_src/glue_generator.cpp:131-159 | they recover the two numbers of every located variable |
| `Addressing.PositionsCutShort` | utils/glue_generator_src/glue_generator.cpp:131-159 | where nothing follows the underscore, the first number is taken twice |
| `Addressing.GluedByParts` | utils/glue_generator_src/glue_generator.cpp:161-236 | the table and the slot for every area and width: %QL among the inputs, long memory from 1024 on among the special functions |
| `Addressing.LongTextNotTaken` | utils/glue_generator_src/glue_generator.cpp:90-129 | an input on the failing side: a line with a text too long for its buffer |
| `Addressing.ParseIecVars` | utils/glue_generator_src/glue_generator.cpp:90-129 | name and type on a line of any length, cut to its buffer, or that a text does not fit |
| `Addressing.DeclarationGivesName` | utils/glue_generator_src/glue_generator.cpp:90-129 | the compiler's line for a variable gives its name and type, whatever follows them |
| `Monitoring.MonitorAsks` | webserver/monitoring.py:110-169 | the request for every location, by area, width and numbers, exceptions included |
| `Monitoring.GluedSlot` | utils/glue_generator_src/glue_generator.cpp:161-236 | the table slot that the generated assignment sets |
| `Monitoring.MonitorReadsGluedCell` | webserver/monitoring.py:110-169 | for every accessible variable the monitor's request makes the server read the cell that the glue generator bound, except the last seven bits of a bit table, and %MW0 unless the word behind the output table is that cell |
| `Monitoring.FirstMemoryWordOutOfReach` | webserver/monitoring.py:140-144 | an input on the failing side: for %MW0 the request is for register 1024, which is answered from another word |
| `Monitoring.LastBitsOutOfReach` | webserver/monitoring.py:113-117 | inputs on the failing side: %IX1023.1 to %IX1023.7 |
| `Monitoring.WriteHitsGluedCell` | webserver/monitoring.py:188-197 | for a bit output and for nothing else the monitor writes; the request is echoed, sets the bound cell to 1 or 0 by the value, and changes nothing else in the PLC |
| `Monitoring.MonitorShowsGluedCell` | webserver/monitoring.py:110-184 | bits, words, 32- and 64-bit integers at every type: what the monitor decodes from the server's reply to its own request is the value of the cell bound to the variable, exactly when the variable is not one of the last seven bits of its table and, for %MW0, the word behind the output table holds the same |
| `Monitoring.DoubleIsInteger` | webserver/monitoring.py:110-184 | a 32-bit cell is shown as SINT, INT or DINT by the number from -2^31 to 2^31-1 that is its own or 2^32 less, as USINT, UINT or UDINT by its own; for other types there is none |
| `Monitoring.LongIsInteger` | webserver/monitoring.py:110-184 | the same for a 64-bit cell, at 2^63 and 2^64, with LINT and ULINT |
| `Monitoring.BitOrWordIsCell` | webserver/monitoring.py:110-184 | a bit is shown as 1 or 0, and a word as its own number, at every type |
| `MbConfig.GenerateMbconfig` | webserver/webserver.py:120-186 | the bytes of the file, or the exception of a COM port without a number |
| `MbConfig.GetData` | webserver/core/modbus_master.cpp:92-110 | the text between two separators, as far as it fits a buffer of the given capacity; otherwise the write leaves the buffer |
| `MbConfig.GetDeviceNumber` | webserver/core/modbus_master.cpp:115-129 | the number between "device" and the point, in a buffer of five |
| `MbConfig.GetFunction` | webserver/core/modbus_master.cpp:134-151 | the keyword behind the point, in a buffer of a hundred |
| `MbConfig.HandleLine` | webserver/core/modbus_master.cpp:161-314 | what one line of bytes, up to a NUL, does to the configuration, or that it overruns a buffer or the device list |
| `MbConfig.HandleDevice` | webserver/core/modbus_master.cpp:187-313 | the same for a line about a device, each text at the capacity of its own destination |
| `MbConfig.ParseConfig` | webserver/core/modbus_master.cpp:153-316 | the loop over the lines of a file |
| `MbConfigLaws.KeyOfKeyword` | webserver/core/modbus_master.cpp:193-312 | the chain of prefix tests finds the right field for every keyword |
| `MbConfigLaws.DeviceLineParses` | webserver/core/modbus_master.cpp:187-313 | a printed line sets its field of its device, to the bytes before a NUL, and nothing else when they fit their destination and the device exists, and leaves the bounds otherwise |
| `MbConfigLaws.BytesParsedIff` | webserver/core/modbus_master.cpp:153-316 | a printed file of bytes is read back exactly when it fits |
| `MbConfigLaws.OtherLinesIgnored` | webserver/core/modbus_master.cpp:161-314 | comments, lines of at most one character and lines of no known kind change nothing |
| `MbConfigLaws.NumbersWrap` | webserver/core/modbus_master.cpp:193-312 | numbers go to 16 bits, and the slave identifier to 8, by their lowest bits |
| `MbConfigLaws.DevicesWrap` | webserver/core/modbus_master.cpp:161-186 | so does the number of devices, to 8 bits; all begin cleared |
| `MbConfigLaws.LongKeysFail` | webserver/core/modbus_master.cpp:115-151 | inputs on the failing side: a device number of five characters, or a keyword of a hundred, overruns its buffer |
| `MbConfigLaws.NothingConfigured` | webserver/core/modbus_master.cpp:82-87 | without any line there is no device, and the periods are 100 and 1000 ms |
| `MbConfigFile.PrintedIsParsedIff` | webserver/webserver.py:120-186 | the file written from the database is read back, every device in order with the bytes of every field, type mapped to protocol, COM port to device name, parity to its first byte, if and only if there are fewer than 256 devices, no name or address has a NUL in it, the UTF-8 bytes of each text with their terminator fit its buffer, and each number its C type |
| `MbConfigFile.NameDoesNotComeBack` | webserver/core/modbus_master.cpp:52-56 | inputs on the failing side: a NUL in a name, or fifty characters outside ASCII |
| `MbConfigFile.FileDeterminesTexts` | webserver/webserver.py:120-186 | two configurations that come back and have the same file have the same names and addresses |
| `MbConfigFile.RowsComeBack` | webserver/webserver.py:120-186 | for a configuration that fits, field by field on the parsed file: types TCP, ESP32 and ESP8266 give protocol TCP and the IP text; any other gives RTU, with /dev/ttyS and n-1 for port COM n, and the bytes of a port that does not begin with COM |
| `MbConfigFile.PortOfNumber` | webserver/webserver.py:120-186 | the port "COM" and the digits of n, from 1 on, is printed as /dev/ttyS and the digits of n-1 |
| `MbConfigFile.PrintableMeans` | webserver/webserver.py:120-186 | the exception comes exactly for a serial row with a port that begins with COM and no number behind it |
| `MbConfigFile.AddressLinesWritten` | webserver/webserver.py:120-186 | the first lines of a device, as they are written |
| `MbConfigFile.SerialLinesWritten` | webserver/webserver.py:120-186 | the lines for port and line settings |
| `MbConfigFile.RegisterLinesWritten` | webserver/webserver.py:120-186 | the lines for the registers |
| `MbConfigFile.FormParitiesFail` | webserver/core/modbus_master.cpp:229-234 | a configuration with a parity that the form offers, None, Even or Odd, is never parsed within bounds: the buffer has three bytes |
| `Utf8.EncodedInjective` | webserver/webserver.py:185-186 | different texts have different bytes |
| `Utf8.KnownBytes` | webserver/webserver.py:185-186 | characters of two, three and four bytes, as the code charts have them |
| `Escape.EscapedIsSinglePass` | webserver/webserver.py:3812-3828 | the five successive replacements equal one pass over the text |
| `Escape.EscapedIsClean` | webserver/webserver.py:3812-3828 | an escaped line has no quotation mark and no newline, as printing between quotes needs |
| `Escape.EscapedComesBack` | webserver/webserver.py:3812-3828 | nothing is lost by escaping |
| `Escape.EscapedCharacters` | webserver/webserver.py:3812-3828 | the five replacements, and that every other character stays |

## Left out

- Sockets, serial lines, GPIO, threads, sleeping and logging: I/O around the modelled logic.
- `enip.cpp`, `pccc.cpp`, `dnp3.cpp`: vendor formats and a library that is not shown.
- The communication error counter of the polling thread (webserver/core/modbus_master.cpp:401), which advances a pointer and not the count.
- Debug requests other than the two trace requests, and forcing variables: variable contents are an abstract table of bytes.
- `ModbusServer.Server.ProcessModbusMessage`: the debug function codes 0x41 to 0x45 are handed on, unanswered and with nothing changed; the trace requests among them are in `DebugTrace`.
- `StMeaning.OptimizerKeepsMeaning`: the condition is sufficient and not necessary, since a program may keep its meaning by chance; lines are single statements to the interpreter, which knows IF blocks with any branches but no loops.
- `PersistentStorage.Storage.SavePass`: memory stays quiet during a pass, fwrite succeeds and bytes are little-endian; `ReadPersistentStorage` assumes that malloc succeeds, and that no two slots share a cell.
- `PersistentStorage.ReadMemory`: stands for three copies of the same loop, one for each width, as `WriteMemory` does.
- `MbConfig.ParseConfig`: what memory holds after a text has overrun its buffer is not modelled; the result is then `None`. A number that does not fit an int counts as one that does not fit its field.
- `MbConfigFile.PrintedIsParsedIff`: for texts without quotation marks and line ends, which `Escape.EscapedIsClean` gives for escaped ones; the numbers of a row are natural numbers, and the file is opened with UTF-8 as its encoding.
- `SlaveRows.RowsArePolled`: for rows that fit the parser, so for none with a parity of the form. What memory holds after an overrun is not modelled.
- `MbConfig.PortName`: int() is modelled with white space, signs and underscores, but without the digits of other scripts.
- `Monitoring.MonitorAsks`: the client library of the monitor is not part of this model; an address that does not fit 16 bits is an exception.
- `TcpRequest.Context.Request`: masked writes and combined writes and reads (function codes 22 and 23) are not modelled; nothing here calls them.
- `Monitoring.MonitorShowsGluedCell`: floating point values are not modelled; for REAL and LREAL neither side has a value.
- `PollThread.Master.PollDevice`: scan cycles come between the network calls and the locked copies, and not inside a locked copy, which the mutex excludes; which frames carry a request, and the modbus context of a device, are left to the library; address and count of each request are recorded.
- `Addressing.Glued`: gives the slot of the generated assignment and not its text.
- `matiec`, the generated program and the web pages apart from the address table: not part of this model.
