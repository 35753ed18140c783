# wialond in Dafny

A model of the core of wialond, a telemetry client. wialond reads fixes from gpsd and pictures from a camera. It forwards them to a tracking server over a framed binary protocol with acknowledgements. The model covers:

- the wire codec of `wialond/util/binary.py` (module `Binary`): big-endian integers, the two-width varint, and NUL-terminated strings;
- the connection of `wialond/connection.py` (module `Connection`):
  - the frames the client writes and their payloads;
  - the cycling sequence counter;
  - the table of pending acknowledgements;
  - the handling of server acks and commands;
  - the listening loop, and `close`;
- the state machines of `wialond/util/concurrency.py` (module `Concurrency`): `AsyncResult`, the interruptible `BlockingQueue`, and the bounded drop-oldest `BlockingDeque` with its take-then-release scope;
- the merge of gpsd reports in `wialond/position.py` (module `Position`);
- the position filter, the consumer loop and `connection_loop` of `wialond/wialond.py` (module `Wialond`).

`Base` holds the shared vocabulary: exceptions, `Result`, bytes and Python's truncating `int()`.

## How things are represented

- **Connection state.** A connection is a value `Conn(counter, acks, futures, closed)`.
  - Every `AsyncResult` ever handed out is kept in `futures`, indexed by the number of sends before it.
  - `acks` maps a sequence number to such an index, as `_acks` maps it to the result object.
  - Because the results are indexed this way, a caller's result can be followed after the table has let go of it.
  - `Valid` is the representation invariant:
    - the counter equals the number of sends modulo 2^16;
    - every table entry is the latest send with its number;
    - every table entry is still unresolved.
- **Byte streams and socket writes.**
  - The server's byte stream is a `seq<Byte>`. It is read with the rule of `Connection.read`: a positive read at the end of the stream raises ConnectionClosedError, and a short read returns what is left.
  - How a socket write went is a parameter: delivered, a ConnectionError (reset), or another OSError.
- **Values computed elsewhere.**
  - The CRC-16 is a function parameter, because `wialond/util/crc16.py` is not part of this model.
  - `EarthDistance` is a function parameter.
  - The uuid4 token of a picture is a parameter.
  - The timestamp that `strptime` produces is a parameter.
- **Floats** are exact reals.
- **Blocking.** An operation that would block returns `Blocks` and leaves the state unchanged.
- **Calls with outside outcomes.** Where a loop calls into the connection or into a handler, the outcome of that call is an input:
  - what `get` returned or raised;
  - how a handler ended.

Behaviour the model takes from the code as written:

- The position filter remembers a fix only after its ack wait returns normally (wialond/wialond.py:74-75). A fix whose send timed out is not remembered, so the next fix is compared with the last acknowledged one and is offered again.
- `_send_message` registers the new result before writing (wialond/connection.py:95-97). On a closed connection the write raises an OSError that is not a ConnectionError, so the entry stays in the table and the caller gets the exception.
- The size varint of a server command is read and covered by the CRC, but its value is never used.
- As written, a deque entry whose handler raised is not released and is handed out again (see Findings).

## Model

| member | source | states |
|---|---|---|
| Base.Trunc | wialond/connection.py:81-83 | `int()` of a float truncates toward zero: the result is the integer nearest zero within 1 of the argument, on both sides of zero |
| Binary.PackUInt | wialond/util/binary.py:23-25 | packing succeeds exactly for widths 1, 2, 4, 8 and values in range; it gives k bytes that read back big-endian as the value; unknown width is KeyError, out of range is struct.error |
| Binary.UnpackUInt | wialond/util/binary.py:27-29 | an unknown width is KeyError; unpacking succeeds exactly for a known width and a buffer of that length, and gives the buffer's big-endian value |
| Binary.UnpackPackUInt | wialond/util/binary.py:23-29 | unpack undoes pack for every width and in-range value |
| Binary.PackUnpackUInt | wialond/util/binary.py:23-29 | pack undoes unpack for every buffer of a known width |
| Binary.ToFromBigEndian | wialond/util/binary.py:23-29 | decoding a byte string big-endian and re-encoding it at its length gives it back |
| Binary.BigEndianInjective | wialond/util/binary.py:27-29 | two byte strings of one length with the same big-endian value are equal |
| Binary.Read | wialond/connection.py:109-114 | a read of k bytes fails with ConnectionClosedError exactly at the end of the stream with k > 0; otherwise it splits the stream into min(k, remaining) bytes and the rest |
| Binary.ReadUInt | wialond/util/binary.py:19-21 | reading a k-byte integer succeeds exactly when the width is known and k bytes remain; the stream is the value's encoding followed by the rest |
| Binary.ReadUIntPacked | wialond/util/binary.py:19-21 | reading back an encoded integer returns the value and exactly the bytes after it |
| Binary.ReadLine | wialond/connection.py:116-121 | `readline` splits the stream after the first newline; no newline occurs before the end of the line, and a line without a newline means the stream ended |
| Binary.ReadLineExact | wialond/connection.py:116-121 | a newline-free text followed by a newline is read as exactly that line, leaving the rest |
| Binary.ReadCString | wialond/util/binary.py:32-33 | reading a C string succeeds exactly when the stream holds a NUL; it returns the NUL-free bytes before the first NUL and consumes the NUL; no NUL means ConnectionClosedError |
| Binary.CStringExact | wialond/util/binary.py:32-33 | a NUL-free string followed by NUL is read back exactly, leaving the rest |
| Binary.PackVar | wialond/util/binary.py:50-56 | a value at or above 2^(16n-1) is ValueError, a negative one struct.error, and every value below the bound is encoded |
| Binary.PackVarShort | wialond/util/binary.py:51-52 | below 2^(8n-1) the varint is the n-byte big-endian encoding, with the top bit of the first byte clear |
| Binary.PackVarLong | wialond/util/binary.py:53-54 | from 2^(8n-1) up to the bound the varint is 2n bytes whose value is the flag bit plus the value, with the top bit of the first byte set |
| Binary.PackVarOneByte | wialond/util/binary.py:50-52 | a one-byte varint of a value below 128 is that byte |
| Binary.ReadVarBytes | wialond/util/binary.py:36-39 | the decoder takes more than n bytes exactly when the first byte's top bit is set, and then takes n or 2n bytes unless the stream ends |
| Binary.ReadVarWithBuf | wialond/util/binary.py:36-43 | the decoded buffer is a prefix of the stream with a known width; it is longer than n exactly when the flag bit is set; a short-form value is the buffer's big-endian value |
| Binary.ReadVar | wialond/util/binary.py:46-47 | `read_var` succeeds and fails with `read_var_with_buf` and returns its value and the stream after the varint |
| Binary.ReadVarBytesLong | wialond/util/binary.py:37-39 | a flagged first byte makes the decoder take exactly 2n bytes |
| Binary.ReadLongForm | wialond/util/binary.py:36-43 | any 2n-byte long form of a value, including a long form of a small value, decodes to that value and consumes exactly the 2n bytes |
| Binary.ReadVarLong | wialond/util/binary.py:36-43 | a 2n-byte buffer with the flag bit set decodes to its big-endian value with the flag bit cleared, consuming exactly those bytes |
| Binary.PackVarRoundTrip | wialond/util/binary.py:36-56 | decoding a packed varint followed by anything returns the value and the packed bytes, and leaves exactly what followed |
| Binary.ReadVarRoundTrip | wialond/util/binary.py:46-56 | `read_var` undoes `pack_var` for every base width and every value below the bound, leaving exactly what followed |
| Binary.ShortBufferAtEnd | wialond/util/binary.py:36-43 | a stream ending inside a varint whose bytes form a known width with the top bit clear decodes to their big-endian value and leaves nothing |
| Concurrency.Wait | wialond/util/concurrency.py:102-104 | a wait succeeds exactly when the result is set; otherwise it is TimeoutError |
| Concurrency.Get | wialond/util/concurrency.py:94-100 | get on an unset result times out; a stored error is raised in preference to the stored result; on a consistent result an AssertionError can only be a stored one |
| Concurrency.SetResult | wialond/util/concurrency.py:84-86 | after set_result, get returns the value unless an error was stored before |
| Concurrency.SetError | wialond/util/concurrency.py:88-92 | set_error rejects exactly a non-exception with TypeError; otherwise get raises the stored error, and the stored result is kept |
| Concurrency.AsyncResultLifecycle | wialond/util/concurrency.py:83-104 | an unresolved result times out; a value set is returned; an error set first wins over a value set later |
| Concurrency.QueueSize | wialond/util/concurrency.py:34-35 | the reported size is the number of stored items, plus one while an interrupt is pending, so it is zero exactly when nothing is stored and no interrupt is pending |
| Concurrency.InterruptQueue | wialond/util/concurrency.py:20-23 | an interrupt raises the flag and leaves the items and maxsize alone |
| Concurrency.QueuePut | wialond/util/concurrency.py:34-35 | put blocks exactly when a positive maxsize is reached, counting the pending interrupt; otherwise it appends and changes nothing else |
| Concurrency.QueueGet | wialond/util/concurrency.py:37-41 | get blocks exactly on an empty, uninterrupted queue; a pending interrupt is served first as the sentinel and cleared; otherwise the oldest item is removed |
| Concurrency.InterruptYieldsStopOnce | wialond/util/concurrency.py:20-41 | after an interrupt the next get yields the sentinel with the items untouched, and the get after that does not yield it again |
| Concurrency.NewDeque | wialond/util/concurrency.py:48-54 | a new deque has capacity \|maxsize\|, an empty store and a zero counter |
| Concurrency.DequeSize | wialond/util/concurrency.py:34-35 | the deque's size is the number of stored entries, plus one while an interrupt is pending, so it is zero exactly when the store is empty and no interrupt is pending |
| Concurrency.InterruptDeque | wialond/util/concurrency.py:20-23 | an interrupt raises the flag and leaves the store, capacity and counter alone |
| Concurrency.Evict | wialond/util/concurrency.py:56-58 | eviction fails with KeyError exactly for capacity 0; otherwise it keeps the newest min(size, capacity - 1) entries |
| Concurrency.DequePut | wialond/util/concurrency.py:56-59 | put fails exactly for capacity 0; otherwise the store keeps its newest entries plus the new item under the next ordinal, and never exceeds the capacity |
| Concurrency.DequePutStoresLast | wialond/util/concurrency.py:59 | the item put is the newest entry of the store |
| Concurrency.DequePutOrdered | wialond/util/concurrency.py:53-59 | a put keeps keys strictly ascending in insertion order and below the counter |
| Concurrency.DequeGet | wialond/util/concurrency.py:61-63 | get blocks exactly when the deque is empty; it serves a pending interrupt first; otherwise it hands out a stored entry, the lowest-keyed one in an ordered store, without removing it |
| Concurrency.RemoveKey | wialond/util/concurrency.py:71-72 | the store without a key: no entry with that key remains, every other entry stays, nothing is added, and ascending keys stay ascending |
| Concurrency.Release | wialond/util/concurrency.py:68-72 | release drops the key, keeps every other entry in order, keeps the deque ordered, and is a no-op for a key already evicted |
| Concurrency.ReleaseIdempotent | wialond/util/concurrency.py:71-72 | releasing twice is releasing once |
| Concurrency.PutAllKeepsNewest | wialond/util/concurrency.py:56-59 | C + k puts into a fresh deque of capacity C keep exactly the newest C items under ordinals equal to their positions, so the k lowest ordinals are the ones evicted |
| Concurrency.PutAllCounter | wialond/util/concurrency.py:53 | each put takes the next ordinal and leaves capacity and interrupt flag alone |
| Concurrency.ManagedExitAsWritten | wialond/util/concurrency.py:68-72 | as written, the scope releases the entry only when the handler returns, and leaves the deque unchanged when it raises |
| Concurrency.FailedEntryIsTakenAgain | wialond/util/concurrency.py:61-72 | as written, after a handler raises, the next get hands out the same entry again |
| Concurrency.ManagedExit | wialond/util/concurrency.py:68-72 | with the cleanup run on every exit, the entry is released and every other entry stays |
| Concurrency.HandledEntryNotTakenAgain | wialond/util/concurrency.py:61-72 | with the cleanup run on every exit, the next get never hands out the entry just handled |
| Connection.Open | wialond/connection.py:33-40 | a new connection satisfies the invariant, is open and has no pending entries |
| Connection.NextSeq | wialond/connection.py:37 | the sequence counter steps by one modulo 2^16 |
| Connection.FrameLayout | wialond/connection.py:98-105 | a frame is the marker 0x2424, the type, the sequence number and the payload, then for every type but keep-alive the CRC of all that |
| Connection.FrameRoundTrip | wialond/connection.py:98-105 | the server reads every frame the client writes as the type, number and payload it was built from |
| Connection.ParsedFrameIsFrame | wialond/connection.py:98-105 | every byte string the server accepts as a client frame is exactly the frame built from what it read |
| Connection.Register | wialond/connection.py:95-97 | a send stores its fresh result under the current counter, overwriting only an older entry with that number, and the invariant holds afterwards |
| Connection.Close | wialond/connection.py:128-134 | close marks the connection closed, empties the table, fails every pending result with ConnectionClosedError and leaves every other result as it was |
| Connection.CloseIdempotent | wialond/connection.py:128-134 | closing twice is closing once |
| Connection.SendMessage | wialond/connection.py:94-107 | the k-th send gets number k mod 2^16 and writes a frame the server reads back as the message; it succeeds exactly on an open connection with a delivered write; a reset closes the connection with ConnectionBroken; otherwise the entry is added and all others stay |
| Connection.CloseAfterRegister | wialond/connection.py:20-28 | a reset during a send fails the new result and every pending one except the one the new entry replaced |
| Connection.SendRegisters | wialond/connection.py:94-107 | a send that did not reset the connection changes its state exactly as registering does, whatever the bytes |
| Connection.LengthPrefixed | wialond/connection.py:92 | the length prefix is written exactly for bodies below 2^31, else ValueError (from 2^15 up the length takes the four-byte long form of Binary.PackVarLong); it reads back as the body's length followed by the body |
| Connection.LoginPayload | wialond/connection.py:56-59 | the login payload exists exactly for short ids; after its prefix it holds subtype 1, version 64 and the id as a C string |
| Connection.DataPayload | wialond/connection.py:90-92 | the data payload exists exactly for a 32-bit timestamp and a short body; after its prefix it reads back as the timestamp, subtype 1 and the data |
| Connection.PositionData | wialond/connection.py:75-85 | the position record exists exactly when every truncated field fits its unsigned width, else struct.error; it is 18 bytes starting with subtype 1, and its fields decode to the truncated fix |
| Connection.PositionSlices | wialond/connection.py:79-84 | the eight packed fields sit at fixed offsets of the 18-byte record |
| Connection.NegativeCoordinateRejected | wialond/connection.py:79-84 | a fix at least one millionth of a degree south of the equator or west of Greenwich cannot be packed |
| Connection.PictureData | wialond/connection.py:61-73 | the picture data exists exactly for pictures below 2^31 bytes, else ValueError (from 2^15 up the length takes the four-byte long form of Binary.PackVarLong); it starts with subtype 3 and index 0, its varint reads back as the picture length, followed by index 0, the token and NUL, and the picture |
| Connection.SendLogin | wialond/connection.py:56-59 | login succeeds in building exactly for short ids and sends a type-0 frame the server reads as the login payload under the next number |
| Connection.SendData | wialond/connection.py:90-92 | a failure to build the payload raises before a number is taken; otherwise a type-1 frame carrying the data payload is sent under the next number |
| Connection.SendPosition | wialond/connection.py:75-85 | a position is sent exactly when its fields and timestamp fit; otherwise struct.error and nothing changes |
| Connection.SendPicture | wialond/connection.py:61-73 | a picture of 2^31 bytes or more is ValueError; a sent picture adds exactly one result |
| Connection.SendKeepAlive | wialond/connection.py:87-88 | a keep-alive is five bytes with type 2 and the next number, and no CRC |
| Connection.HandleAck | wialond/connection.py:157-165 | an ack pops its number's entry and resolves it with True for code 0 or an error carrying the code; an unknown number changes nothing; a truncated ack is an error |
| Connection.CommandTail | wialond/connection.py:173-179 | the end of a command consumes a line and a two-byte CRC |
| Connection.HandleCommand | wialond/connection.py:167-179 | a command that is accepted consumes at least one byte and leaves the connection alone |
| Connection.CommandTailDecides | wialond/connection.py:173-179 | a line followed by a CRC is accepted exactly when the CRC is that of everything read so far |
| Connection.CommandCrcDecides | wialond/connection.py:167-179 | a well-formed command is accepted exactly when its CRC covers the header, size, timestamp, type and line, and the stream then continues right after it |
| Connection.CommandHead | wialond/connection.py:168-172 | after the size, the timestamp and a type varint of value 0 in either form, the rest is read as the tail with the CRC covering all of them |
| Connection.CommandTypeMustBeZero | wialond/connection.py:171-172 | a command whose type varint, in either form, has a value other than 0 fails the assertion whatever follows |
| Connection.LongFormZeroType | wialond/util/binary.py:36-43 | the two-byte long form `80 00` reads as type 0, so it is accepted like the one-byte form |
| Connection.Dispatch | wialond/connection.py:150-155 | a code between 5 and 254 is ValueError; a handled frame only resolves pending results; a command changes nothing |
| Connection.HandleMessage | wialond/connection.py:146-155 | an empty stream is ConnectionClosedError, a short header struct.error, a wrong marker AssertionError, an unknown code ValueError; a handled frame consumes input and only resolves pending results |
| Connection.Listen | wialond/connection.py:136-144 | listening ends with the connection closed and the table empty; it only resolves results that were pending and leaves a closed connection alone |
| Connection.EndOfStreamCloses | wialond/connection.py:136-144 | the end of the stream closes an open connection |
| Connection.AckFrameHandled | wialond/connection.py:146-158 | an ack frame reaches the ack handler with the two-byte sequence number at the head of the remaining stream |
| Connection.AckedSeqOf | wialond/connection.py:158 | the ack handler reads back the sequence number the frame carries, whatever follows |
| Connection.AckResolves | wialond/connection.py:157-165 | an ack for a pending number resolves exactly that entry's result with the code's outcome and removes only that entry |
| Connection.AcksRouted | wialond/connection.py:157-165 | acks for distinct pending numbers, in any order, each resolve the result of the send with that number, and stay resolved when the stream ends |
| Connection.AckRouted | wialond/connection.py:136-165 | the k-th of a run of acks for distinct pending numbers resolves the result of the send with its number, whatever acks come before or after it |
| Connection.ListenFirstAck | wialond/connection.py:136-165 | listening to a run of acks handles the first one, which resolves its entry for good and removes only it, and goes on with the rest |
| Connection.ListenAck | wialond/connection.py:136-165 | listening to an ack for a pending entry resolves and removes it, and then goes on from the next frame |
| Connection.AckStep | wialond/connection.py:146-165 | an ack frame for a pending number is handled as one step that keeps the connection open, removes that entry and resolves its result |
| Connection.AckThenEnd | wialond/connection.py:128-165 | an ack followed by the end of the stream: the acked result keeps the ack's outcome after the close, and every other pending result fails with ConnectionClosedError |
| Connection.SendAll | wialond/connection.py:94-97 | n sends add n results and keep the invariant |
| Connection.SendAllRegisters | wialond/connection.py:95-97 | while fewer than 2^16 messages have been sent, the k-th message is registered under number k and no entry is overwritten |
| Connection.SendAllKeeps | wialond/connection.py:95-97 | while fewer than 2^16 messages have been sent, later sends leave a pending entry where it is |
| Connection.SendAllNumbers | wialond/connection.py:95-97 | while fewer than 2^16 messages have been sent, the k-th message's entry is number k, pointing at its result |
| Connection.AckCorrelation | wialond/connection.py:157-165 | from a fresh connection, after up to 2^16 sends, acks in any order route each outcome to the message with that number |
| Connection.AckReachesSender | wialond/connection.py:157-165 | right after a delivered send, the ack for its number resolves that send's result with the ack's outcome |
| Connection.WrapOrphansPending | wialond/connection.py:95-97 | when the counter wraps onto a pending number, the older result leaves the table and close never resolves it |
| Position.CountUsed | wialond/position.py:19 | the satellite count is the number of satellites marked used |
| Position.Absorb | wialond/position.py:17-27 | a SKY report replaces the count and the HDOP, possibly with nothing; a TPV report replaces time and position together; any other report changes nothing |
| Position.Emit | wialond/position.py:28-29 | an item is emitted exactly when position, count and HDOP are all known, stamped with the TPV time |
| Position.Produce | wialond/position.py:11-29 | at most one item is emitted per report |
| Position.MergeIsLatest | wialond/position.py:15-27 | the merged state is what the latest TPV and the latest SKY report say |
| Position.EmitAfter | wialond/position.py:28-29 | an item follows a report exactly when a TPV was seen and the latest SKY carried an HDOP, and it combines the latest TPV with the latest SKY's count and HDOP |
| Position.SkyWithoutHdopSuppresses | wialond/position.py:18-29 | a SKY report without HDOP suppresses output until another SKY report arrives, whatever TPV reports come between |
| Position.LatestSkyUnchanged | wialond/position.py:17-27 | reports other than SKY do not change the latest SKY |
| Position.OtherReportRepeats | wialond/position.py:17-29 | a report of another class changes nothing and repeats the previous item, if any |
| Position.NothingBeforeTpv | wialond/position.py:15-29 | nothing is emitted before the first TPV report |
| Position.NoTpvNoLatest | wialond/position.py:15-27 | without a TPV report no position is known |
| Position.NothingBeforeHdop | wialond/position.py:15-29 | nothing is emitted before the first SKY report that carries an HDOP |
| Position.NoHdopNoLatest | wialond/position.py:15-27 | without a SKY report carrying an HDOP no HDOP is known |
| Wialond.PositionStep | wialond/wialond.py:69-75 | with nothing remembered the fix is sent; otherwise it is sent exactly when the deadline has passed or the distance threshold is reached; the request carries the truncated timestamp; the fix is remembered exactly when it was sent and its ack wait returned; a failed wait escapes and changes nothing |
| Wialond.RunFilter | wialond/wialond.py:64-77 | one send decision per fix |
| Wialond.FilterRemembersLastAcked | wialond/wialond.py:66-75 | after any run the filter holds the time and location of the latest fix that was sent and acknowledged, and nothing while there is none |
| Wialond.NothingAckedEverythingSent | wialond/wialond.py:66-75 | while no send is acknowledged, every fix is sent |
| Wialond.NothingAckedPrefix | wialond/wialond.py:66-75 | while no send is acknowledged, the filter remembers nothing and every fix so far was sent |
| Wialond.DeadlineScenario | wialond/wialond.py:73 | fixes at t0, t0 + D/2 and t0 + D at one place: the first and third are sent, the second is not |
| Wialond.DisplacementScenario | wialond/wialond.py:73 | right after an acknowledged fix, a fix displaced by at least the threshold is sent however little time passed |
| Wialond.TimedOutFixIsNotRemembered | wialond/wialond.py:74-75 | a fix whose ack wait timed out is not remembered, so the next fix is sent even at the same place half a deadline later |
| Wialond.ConsumeQueue | wialond/wialond.py:26-31 | the consumer hands queued values to the handler oldest first and leaves the rest queued; it stops on the sentinel exactly when interrupted, handling nothing; it ends early only when a BaseException escapes |
| Wialond.ConsumerSwallowsExceptions | wialond/wialond.py:26-31 | as long as no BaseException escapes, a handler exception is logged and the next value is handled, so values are handled in FIFO order |
| Wialond.ConsumeDeque | wialond/util/concurrency.py:74-80 | the managed consumer handles at most one value per handler call and stops on the sentinel exactly when interrupted |
| Wialond.ReleaseOldest | wialond/util/concurrency.py:68-72 | in an ordered deque, releasing the oldest key drops exactly the first entry and keeps the order |
| Wialond.AlwaysReleaseDrainsInOrder | wialond/util/concurrency.py:61-80 | with the cleanup run on every exit, the consumer takes an ordered deque's entries once each in ascending ordinal order until it is empty |
| Wialond.AsWrittenRetriesFailedEntry | wialond/util/concurrency.py:68-80 | as written, a handler that keeps raising is handed the same oldest value on every turn |
| Wialond.ConnectionLoop | wialond/wialond.py:34-46 | workers start exactly when login succeeded and are then always stopped; a login TimeoutError or ConnectionError returns quietly; any other login error escapes |
| Wialond.PositionRegisters | wialond/connection.py:75-85 | a delivered position send registers its result like any other send |
| Wialond.LoginStartsWorkers | wialond/wialond.py:34-46 | a login acked with code 0 makes get return True, and the workers start |
| Wialond.PositionThenKeepAlive | wialond/connection.py:94-97 | a position and a keep-alive sent with nothing pending leave exactly their two entries, under consecutive numbers |
| Wialond.RejectThenClose | wialond/connection.py:128-165 | with two results pending, an ack with code 2 fails the first with that code and keeps the connection open; the end of the stream then fails the second with ConnectionClosedError and the first keeps its error |
| Wialond.RejectedPositionThenClose | wialond/connection.py:157-165 | a position rejected with code 2 fails only that send; when the stream ends, the keep-alive still waiting fails with ConnectionClosedError |

## Left out

- Sockets, the makefile reader, `sendall` and the write semaphore are left out. Reads are taken from a byte sequence and writes are an outcome parameter.
- The listener thread, `spawn`, thread joins and `Event` waiting are left out, together with the interleaving of threads. Each operation is modelled as one atomic step.
- `calc_crc16` is a parameter, because `wialond/util/crc16.py` is not part of this model. No CRC variant or error-detection property is claimed.
- `EarthDistance` is a parameter. Float arithmetic is exact real arithmetic, so rounding of `lat * 1000000` is not modelled.
- The uuid4 token of `send_picture` is a parameter.
- The gps session, `datetime.strptime`, and reports missing a key are left out: reports arrive parsed.
- `_safe_produce_positions`, `make_position_getter`, `make_producer`, `serve`, `run` and `make_workers` are left out. They are infinite retry loops with `sleep`, plus thread wiring.
- `wialond/picture.py`, `wialond/__main__.py` and `setup.py` are not part of this model.
- The deque's ordinal counter is an unbounded natural number. The source's wrap after 2^64 puts is not modelled.
- Wialond.Due: a deadline that is infinite or NaN is not modelled; with NaN the source would call `EarthDistance` with no previous location.
- Connection.SendMessage: the socket error raised on a closed connection is modelled as a plain OSError. Its errno is not modelled.
- Connection.HandleCommand: its contract states only how much input is consumed. What it accepts is stated by Connection.CommandCrcDecides and Connection.CommandTypeMustBeZero.
- Wialond.ConsumeDeque: its contract states only the shape of the run. The order of values handled is stated by Wialond.AlwaysReleaseDrainsInOrder and Wialond.AsWrittenRetriesFailedEntry.
- Wialond.ConnectionLoop: login and the wait for close are outcome parameters. Wialond.LoginStartsWorkers connects the login to the connection model.
- Position.Produce: its contract bounds only the number of items. Which item follows each report is stated by Position.EmitAfter.
- Wialond.RunFilter: its contract states only one decision per fix. The decisions are stated by Wialond.FilterRemembersLastAcked and the scenario lemmas.
- Connection.CommandTail: its contract states only how much input is consumed. Acceptance is stated by Connection.CommandTailDecides.
- Connection.SendPicture: its contract states the size limit and one added result. The bytes are stated by Connection.PictureData and Connection.SendData.
- Eviction of an entry while it is borrowed is not a separate property. Values are immutable in the model, so a value handed out cannot be invalidated.

## Findings

| source | as written | input that shows it | evidently intended | confidence | as-written member | corrected member |
|---|---|---|---|---|---|---|
| wialond/util/concurrency.py:68-72 | `_managed_result` has no try/finally around `yield`, so the release runs only when the handler returns normally | a deque holding one position whose send times out: the handler raises TimeoutError, `make_consumer` logs it, and the next get hands out the same entry again, until later puts fill the deque and evict it as the oldest | the entry is released however the handler ends, so a failed send is dropped and not retried | medium; not executed | Concurrency.ManagedExitAsWritten, Concurrency.FailedEntryIsTakenAgain, Wialond.AsWrittenRetriesFailedEntry | Concurrency.ManagedExit, Concurrency.HandledEntryNotTakenAgain, Wialond.AlwaysReleaseDrainsInOrder |
