# A verified model of the coroutine RPC framework

The repository is a C++ RPC framework built on coroutines. This project models, in Dafny 4.11, the parts
whose correctness depends on many functions agreeing with one another, and proves what they promise for all
inputs and all runs.

- **The byte stack.** `ByteArray` is a linked list of fixed-size chunks with a cursor. It is modelled as linked
  objects over arrays (`ChunkList.dfy`, `ByteArray.dfy`) and proved to refine a flat byte sequence
  (`FlatBuffer.dfy`). On top of it stand varints and zigzag (`Bits.dfy`, `Varint.dfy`, `Codec.dfy`), the serializer of nested
  C++ values (`Serialization.dfy` says what the bytes are, `Serializer.dfy` does it on a `ByteArray`), the message
  header (`Protocol.dfy`), the framing loops over a connection that fragments arbitrarily (`Session.dfy`), and a
  whole remote call (`RpcCall.dfy`). Every layer's methods are proved against pure functions, and the round-trip
  theorems are about those.
- **Coroutine synchronisation.** `CoMutex` at the grain of single shared-memory accesses (`CoMutex.dfy`),
  `Channel` over `CoCondVar` (`Channel.dfy`) and `CoSemaphore` (`Semaphore.dfy`) are step systems; the theorems
  quantify over all runs.
- **Timers** (`Timer.dfy`), **the service registry** (`Registry.dfy`), **the scheduler's task list**
  (`Scheduler.dfy`), **the event table of IOManager** (`IoManager.dfy`) are classes whose methods keep an invariant that ties
  the state to its own history.
- **IPv6 printing** (`Ipv6.dfy`) is proved against an expansion function written after section 2.2 of RFC 4291.

Assumptions taken over from the code: a little-endian host with the array in host byte order, a chunk size of at
least one, and reads that stay inside the readable bytes (the mutating `read` does not check).

Properties that fail, with the exact condition under which they hold:

- A frame survives sending and receiving exactly when its content is shorter than 2^31 bytes
  (`Sessions.FrameRoundTrip`): the received size comes back as a negative `int` above that, and wraps at 2^32.
- `CoMutex` excludes exactly when no fiber has id 0 or the id `fiber_id_` happens to start with
  (`CoMutexes.MutexIff`); the header leaves `fiber_id_` uninitialised.
- A waiter can be left asleep in the queue of a free `CoMutex` (`CoMutexes.SleepsOnFreeLock` builds the run for any
  two fibers). It never happens in a run exactly when no fiber of the run joins the queue while the lock is free and
  nobody is on the way to it (`CoMutexes.AttendedIff`).
- Given that a woken fiber gets the channel's lock, which the previous point puts in question, a channel loses no
  wakeup in a run exactly when no `waitFor` of the run that was already notified times out while a reader is
  parked and the woken readers are just enough for the queued items (`Channels.WakeupIff`). Any three fibers can
  bring such a step about at any capacity (`Channels.TimeoutLosesWakeup`).
- `Timer::reset` without `from_now` never moves the deadline (`Timers.ResetNext`).
- The pending-event counter falls short of the set bits by the number of failed `addEvent` registrations, because
  the bit is set before `epoll_ctl` and not taken back, and the table falls short of the set bits by those on
  contexts that a resize cut off. So the counter is the number of set bits in the table exactly when these two
  numbers agree (`IoManagers.CounterExact`). A resize cuts off registrations when two `addEvent` calls look before either
  resizes: with both succeeding, the counter is exact afterwards exactly when the first descriptor is below the
  size the second call asks for (`IoManagers.RacingCallers`).

## Model

| member | source | states |
|---|---|---|
| `Varint.VarintRoundTrip` | src/byte_array.cc:211-240 | every 32-bit (64-bit) value takes at most 5 (10) bytes and reads back exactly, consuming its own bytes whatever follows |
| `Varint.GroupsRoundTrip` | src/byte_array.cc:289-317 | the same for any number of open groups, the induction behind it |
| `Varint.PrefixFree` | src/byte_array.cc:215-240 | no encoding is a prefix of another: equal streams split into equal values and equal rests |
| `Varint.MinimalLength` | src/byte_array.cc:289-317 | any bytes the reader accepts are at least as long as the encoding written for their value, and the value fits the word |
| `Varint.ZigzagMagnitude` | src/byte_array.cc:10-15 | the shift-and-xor form is 2v, or -2v-1 for negative v |
| `Varint.ZigzagBijection` | src/byte_array.cc:10-23 | encode and decode are mutually inverse between the signed and unsigned ranges, 32 and 64 bits |
| `Varint.MarkedBits` | src/byte_array.cc:215-240 | the mask, the or and the shift of the writing loop are remainder by 128, adding 128 and quotient by 128 |
| `Varint.ZigzagEncodeBits` | src/byte_array.cc:10-15 | EncodeZigzag is the xor of the doubled word and the arithmetic shift by the width less one, 32 and 64 bits |
| `Varint.ZigzagDecodeBits` | src/byte_array.cc:17-23 | DecodeZigzag, as a word, is the xor of the halved word and the negated low bit, 32 and 64 bits |
| `Bits.AndOnes` | src/byte_array.cc:220 | masking with n ones is the remainder by 2^n |
| `Bits.OrDisjoint` | src/byte_array.cc:294-297 | or-ing bits above a value adds them |
| `Bits.XorOnes` | src/byte_array.cc:10-23 | flipping every bit of a word is subtracting from all ones |
| `Bytes.LittleEndianRoundTrip` | src/byte_array.cc:184-209 | fixed-width little-endian bytes read back to the value |
| `Bytes.LittleEndianOf` | src/byte_array.cc:243-282 | any n bytes are the little-endian form of the number read from them |
| `Bytes.LittleEndianByte` | src/byte_array.cc:184-209 | byte k on the wire is the number divided by 256^k, modulo 256 |
| `FlatBuffer.OverwriteByte` | src/byte_array.cc:77-115 | byte by byte, a write puts its bytes at the cursor, keeps all others and extends the end if needed |
| `FlatBuffer.OverwriteTwice` | src/byte_array.cc:77-115 | two writes in a row are one write of the concatenation |
| `FlatBuffer.PatchIsOverwrite` | src/byte_array.cc:77-115 | changing bytes of a grown memory, seen through the size mark, is a write on the contents |
| `FlatBuffer.FlattenPatched` | src/byte_array.cc:89-108 | patching one chunk at an offset is patching flat memory at the corresponding address and nowhere else |
| `FlatBuffer.FlattenSlice` | src/byte_array.cc:128-145 | a stretch of one chunk is the stretch of flat memory at the corresponding address |
| `FlatBuffer.StartDivMod` | src/byte_array.cc:82-83 | chunk number and offset are quotient and remainder of the address |
| `ChunkLists.ChunkList.Grow` | src/byte_array.cc:57-71 | that many chunks are linked behind the last one, the first new one is returned, old memory is kept |
| `ChunkLists.ChunkList.Put` | src/byte_array.cc:89-108 | a memcpy into one chunk changes exactly those addresses of flat memory |
| `ChunkLists.ChunkList.Locate` | src/byte_array.cc:440-448 | the walk ends at the chunk that holds the address, null exactly at the very end |
| `ChunkLists.ChunkList.Gather` | src/socket_stream.cc:40-44 | the first m bytes of the pieces are the m bytes of memory from the cursor on |
| `ChunkLists.ChunkList.Scatter` | src/socket_stream.cc:22-27 | filling the pieces from the front changes exactly the addresses from the cursor on |
| `ByteArrays.ChunksFor` | src/byte_array.cc:57-58 | the number of chunks linked is enough for the bytes missing and one less would not be |
| `ByteArrays.ByteArray.constructor` | src/byte_array.cc:26-29 | an empty buffer of one chunk with the cursor at its start |
| `ByteArrays.ByteArray.CursorLaw` | src/byte_array.cc:50-148 | in every valid state the capacity is nodes times chunk size, curr is chunk number position / size, and null exactly at full capacity |
| `ByteArrays.ByteArray.AddCapacity` | src/byte_array.cc:50-75 | room for the bytes asked for, in whole chunks and less than one too many; contents, size and position kept |
| `ByteArrays.ByteArray.Write` | src/byte_array.cc:77-115 | contents become the flat overwrite at the cursor, for every chunk size; the cursor advances |
| `ByteArrays.ByteArray.Read` | src/byte_array.cc:117-148 | the next n readable bytes; contents unchanged, exactly those bytes consumed |
| `ByteArrays.ByteArray.Peek` | src/byte_array.cc:150-181 | the same bytes through a walking pointer of its own, no cursor moved |
| `ByteArrays.ByteArray.ToString` | src/byte_array.cc:491-500 | exactly the readable bytes |
| `ByteArrays.ByteArray.Clear` | src/byte_array.cc:416-429 | an empty buffer of one chunk |
| `ByteArrays.ByteArray.SetPosition` | src/byte_array.cc:430-449 | refused exactly above the capacity; otherwise the cursor moves, the size rises if passed, memory is unchanged |
| `ByteArrays.ByteArray.GetReadBuffers` | src/byte_array.cc:514-550 | pieces that cover, in order and without gap, the next min(len, readable) addresses |
| `ByteArrays.ByteArray.GetWriteBuffers` | src/byte_array.cc:584-616 | pieces that cover the next len addresses, contents and cursor unchanged |
| `Codec.WriteFixed` | src/byte_array.cc:184-209 | writes the little-endian bytes at the cursor |
| `Codec.ReadFixed` | src/byte_array.cc:243-282 | the value of the next n bytes, exactly those consumed |
| `Codec.WriteVarint` | src/byte_array.cc:215-240 | writes the varint at the cursor |
| `Codec.Digits` | src/byte_array.cc:215-240 | the loop's temporary array of 5 (10) bytes never overflows and holds the encoding |
| `Codec.VarintByte` | src/byte_array.cc:215-240 | byte k of the encoding carries bits 7k to 7k + 6, and every byte but the last is marked |
| `Codec.OrGroup` | src/byte_array.cc:289-317 | in every round of the reading loop the accumulated value lies below the group or-ed in, so the or adds it, cut to the word |
| `Codec.ReadVarint` | src/byte_array.cc:289-317 | for any bytes that do not run out: the value the groups stand for, cut to the word, consuming what was looked at |
| `Codec.StringRoundTrip` | src/byte_array.cc:358-412 | a length-prefixed string reads back whatever follows it |
| `Codec.WriteStringVint` | src/byte_array.cc:358-361 | writes length and bytes at the cursor |
| `Codec.ReadStringVint` | src/byte_array.cc:406-412 | reads the string, leaving exactly the rest |
| `Serialization.ScalarRoundTrip` | include/rpc/serializer.h:88-154 | each scalar type reads back what it wrote, whatever follows |
| `Serialization.ScalarWire` | include/rpc/serializer.h:123-154 | the bytes of each scalar type: two's complement or bit pattern, least significant byte first, or base 128 of the value or of its zigzag magnitude |
| `Serialization.WireOrder` | include/rpc/serializer.h:404-427 | each part lies behind the parts before it and ahead of those after it |
| `Serialization.WireForm` | include/rpc/serializer.h:175-394 | a pair is written as the tuple of its parts, a container as its 64-bit size and then its elements, a string as length and bytes |
| `Serialization.RoundTrip` | include/rpc/serializer.h:157-394 | every value of every nested type reads back equal into an empty target and leaves exactly what followed it |
| `Serialization.RoundTripAll` | include/rpc/serializer.h:404-446 | the same for tuples of any length |
| `Serialization.RoundTripInto` | include/rpc/serializer.h:175-394 | reading n elements into a partly filled container continues it with those elements |
| `Serialization.BuildEnumeration` | include/rpc/serializer.h:219-394 | inserting the elements of a container into an empty one, in any order its iterator may take, rebuilds it |
| `Serialization.RepresentsDenote` | include/rpc/serializer.h:157-394 | the meaning of a value in memory does not depend on iteration orders at any level of nesting |
| `Serialization.AnyOrderRoundTrip` | include/rpc/serializer.h:157-394 | the round trip holds for every iteration order of every container inside the value |
| `Serializers.WriteScalar` | include/rpc/serializer.h:123-154 | the dispatch on the scalar type appends that type's bytes |
| `Serializers.ReadScalar` | include/rpc/serializer.h:88-121 | the dispatch on the scalar type reads that type's value and leaves the rest |
| `Serializers.Write` | include/rpc/serializer.h:157-394 | puts the serialized form at the cursor of a ByteArray |
| `Serializers.WriteTuple` | include/rpc/serializer.h:404-427 | the parts in order, by recursion on the tuple size |
| `Serializers.WriteColl` | include/rpc/serializer.h:175-394 | the size, then the elements in iteration order |
| `Serializers.Read` | include/rpc/serializer.h:162-394 | reads the value the type directs and leaves exactly the rest |
| `Serializers.ReadTuple` | include/rpc/serializer.h:429-446 | the parts in order |
| `Serializers.ReadColl` | include/rpc/serializer.h:185-394 | the counted loop inserts each element read |
| `Protocols.HeaderRoundTrip` | include/rpc/protocol.h:61-77 | the 11 header bytes give back every field, the length modulo 2^32 |
| `Protocols.HeaderLayout` | include/rpc/protocol.h:61-70 | which of the eleven bytes holds which byte of which field |
| `Protocols.HeaderOf` | include/rpc/protocol.h:71-77 | any eleven bytes are the header of the message they decode to |
| `Protocols.WriteHeader` | include/rpc/protocol.h:61-70 | five fixed-width writes produce the header |
| `Protocols.Encode` | include/rpc/protocol.h:79-88 | a fresh array holding header and content, cursor at the start |
| `Protocols.DecodeMeta` | include/rpc/protocol.h:71-77 | five reads give the header's fields and leave the rest |
| `Protocols.Decode` | include/rpc/protocol.h:89-96 | header, then exactly the content it announces |
| `Protocols.DecodeEncode` | include/rpc/protocol.h:79-96 | decode undoes encode if and only if the content is shorter than 2^32 bytes |
| `Sessions.ReadSome` | src/socket_stream.cc:18-29 | scattering into write buffers and moving the cursor equals writing the received bytes |
| `Sessions.WriteSome` | src/socket_stream.cc:36-48 | sends a prefix of the readable bytes and consumes exactly what was sent |
| `Sessions.ReadFixSize` | src/stream.cc:17-27 | all len bytes in order however they arrive, or 0 when the peer sent fewer |
| `Sessions.ReadFixBuffer` | src/stream.cc:4-16 | the same into a plain buffer |
| `Sessions.WriteFixSize` | src/stream.cc:41-51 | everything in order, or a proper prefix and 0 when the connection stopped |
| `Sessions.FrameTaken` | src/rpc/rpc_session.cc:9-35 | a message is made of the bytes exactly when they begin with the frame of a default-magic message under 2^31 bytes, and then it is that message and its bytes are gone |
| `Sessions.FrameLeft` | src/rpc/rpc_session.cc:9-35 | what is left after reading or refusing: nothing when bytes ran out, what follows the header on a wrong magic byte, else what follows the announced content |
| `Sessions.RecvRequest` | src/rpc/rpc_session.cc:9-35 | returns a message exactly when the bytes sent begin with a well-formed frame, and that message; consumes exactly the frame, and on a refusal what the branch of the refusal read; for all bytes and any fragmentation |
| `Sessions.SendResponse` | src/rpc/rpc_session.cc:37-41 | the whole frame goes out, or a proper prefix and 0 |
| `Sessions.FrameSeen` | src/rpc/rpc_session.cc:9-41 | what the receiver makes of any frame, whatever its size |
| `Sessions.FrameRoundTrip` | src/rpc/rpc_session.cc:9-41 | a frame is received as sent if and only if its content is shorter than 2^31 bytes |
| `Sessions.FramesRoundTrip` | src/rpc/rpc_session.cc:9-41 | any list of such messages is received in order and nothing behind it is touched |
| `Sessions.SendMany` | src/rpc/rpc_session.cc:37-41 | successive sends put exactly the frames on the wire, or a proper prefix of them |
| `Sessions.RecvMany` | src/rpc/rpc_session.cc:9-35 | successive receives compute ReceiveAll of the bytes |
| `Sessions.Exchange` | src/rpc/rpc_session.cc:9-41 | over any fragmentation on both sides the list received is the list sent, provided every send went through |
| `RpcCalls.Load` | include/rpc/serializer.h:28-32 | a fresh array whose readable bytes are the content |
| `RpcCalls.PackCall` | include/rpc/rpc_client.h:46-68 | function name followed by the argument tuple, if any |
| `RpcCalls.SplitCall` | src/rpc/rpc_server.cc:134-142 | the name and whatever follows it |
| `RpcCalls.UnpackArguments` | include/rpc/rpc_server.h:124-133 | the argument tuple of the target's types |
| `RpcCalls.CallBodySplits` | src/rpc/rpc_server.cc:134-142 | the packed body splits at the name and the rest is exactly the arguments |
| `RpcCalls.CallArguments` | include/rpc/rpc_client.h:46-53 | the server gets the name and equal arguments, for all chunk sizes on both sides |
| `RpcCalls.RemoteCall` | src/rpc/rpc_server.cc:134-142 | the same across a fragmenting connection, from packing to unpacking |
| `Channels.SafeStep` | include/channel.h:13-78 | each critical section keeps first-in first-out order, the bound, and the finality of close |
| `Channels.PushDoes` | include/channel.h:13-23 | a push returns false on a closed channel, parks with its value on a full one, and else appends its value and wakes the reader chosen |
| `Channels.PopDoes` | include/channel.h:24-56 | a pop or waitFor returns false on a closed channel, parks on an empty one, and else takes the oldest value and wakes the sender chosen |
| `Channels.TimeoutDoes` | src/mutex.cc:105-145 | a timeout ends the call and changes nothing else |
| `Channels.CloseReleases` | include/channel.h:69-78 | close empties the queue and wakes everybody parked; each of them can go on, and its call returns |
| `Channels.RememberedRun` | src/mutex.cc:42-90 | over any run in which a fiber takes no step it is not forgotten: parked it stays parked or is woken, woken it stays woken, a sender with its value |
| `Channels.CanStep` | include/channel.h:13-78 | in every state anybody idle can call and anybody woken can go on |
| `Channels.HistoryRun` | include/channel.h:13-56 | the recorded pushes and pops are the successful ones of the run, read off the run |
| `Channels.ChannelSafety` | include/channel.h:13-78 | over every interleaving: the values of the run's successful pops followed by the queue are those of its successful pushes, the queue is within capacity, and after close nothing is pushed, popped or parked again |
| `Channels.SoundStep` | include/channel.h:13-56 | from a state with every usable item and slot covered by a woken fiber, a critical section keeps that if and only if it is not a losing timeout |
| `Channels.WakeupIff` | src/mutex.cc:42-145 | a run covers usable items and slots in each of its states if and only if none of its steps is a losing timeout; a woken fiber is taken to get the channel's lock |
| `Channels.NoLostWakeup` | src/mutex.cc:42-90 | after every such run parked receivers imply no more items than woken readers, dually for senders; both kinds are never parked with nobody about to run |
| `Channels.TimeoutLosesWakeup` | src/mutex.cc:105-145 | for any three fibers and any capacity, a run of four steps that leaves an item, a parked receiver and nobody awake |
| `Semaphores.SoundStep` | src/mutex.cc:150-162 | each critical section keeps the bound, the count and the covering of free permits |
| `Semaphores.WaitDoes` | src/mutex.cc:156-162 | a wait that finds a permit takes one and returns, one that finds none parks |
| `Semaphores.NotifyDoes` | src/mutex.cc:150-155 | a notify frees a permit if one is taken and wakes the parked fiber chosen if there is one |
| `Semaphores.CanStep` | src/mutex.cc:147-162 | in every state anybody idle can wait, anybody woken can go on and anybody can notify |
| `Semaphores.RememberedRun` | src/mutex.cc:42-90 | over any run in which a fiber takes no step, parked it stays parked or is woken, woken it stays woken |
| `Semaphores.SemaphoreBound` | src/mutex.cc:147-162 | over every run: used permits are within the number, equal the run's completed waits minus its effective notifies, and a parked fiber means every free permit is spoken for |
| `CoMutexes.ExclusiveStep` | src/mutex.cc:5-39 | every single access by any fiber keeps spin lock, guard and stored id with their one owner |
| `CoMutexes.TrackedStep` | src/mutex.cc:13-39 | every access keeps each waiter's queue entry in exactly one place |
| `CoMutexes.BlockedIff` | src/mutex.cc:5-39 | a fiber is held up only by the guard being taken or by nobody having submitted it |
| `CoMutexes.HandOver` | src/mutex.cc:26-39 | from any state with a holder, a free guard and a queue, the holder's own steps return from unlock with the lock free and the first waiter submitted |
| `CoMutexes.WokenGetsIn` | src/mutex.cc:13-22 | a submitted waiter that finds the lock free gets in by its own steps |
| `CoMutexes.QueueRun` | src/mutex.cc:13-36 | over any run waiters leave the queue in the order they joined it, both read off the run |
| `CoMutexes.AccountedRun` | src/mutex.cc:13-39 | over any run each joining of a waiter is followed by one leaving, one submission and one resumption, but for the one stage it is in |
| `CoMutexes.MutexSafety` | src/mutex.cc:5-39 | over every interleaving with usable ids: one fiber inside, the stored id never names another, waiters leave in order and each is submitted by one unlock |
| `CoMutexes.MutexExact` | include/mutex.h:192-205 | with id 0 or the start value among the fibers some run puts two inside |
| `CoMutexes.MutexIff` | src/mutex.cc:8-39 | two fibers can be inside together if and only if some id is 0 or the start value |
| `CoMutexes.AttendedStep` | src/mutex.cc:8-39 | a single access leaves a waiter with nobody on the way if and only if it joins the queue of a free lock with nobody on the way |
| `CoMutexes.AttendedIff` | src/mutex.cc:8-39 | in every state of a run whoever is queued has an owner still to look at the queue or a fiber on its way to the lock, if and only if no step of the run is such a joining |
| `CoMutexes.NoDeadlock` | src/mutex.cc:5-39 | after any run that strands nobody, some fiber can take a step |
| `CoMutexes.SleepsOnFreeLock` | src/mutex.cc:13-22 | for any two fibers, a run after which one sleeps in the queue of a free mutex that all others have left |
| `Timers.FindMember` | src/timer.cc:63-71 | find by comparison finds exactly the members of an ordered set |
| `Timers.CancelInv` | src/timer.cc:13-24 | cancel never erases end() and keeps the invariant |
| `Timers.RefreshInv` | src/timer.cc:25-38 | refresh keeps the set ordered and its membership law |
| `Timers.ResetInv` | src/timer.cc:39-61 | the same for reset; without from_now the deadline stays |
| `Timers.ResetNext` | src/timer.cc:51-58 | the deadline after reset, in 64-bit arithmetic |
| `Timers.ExpireInv` | src/timer.cc:117-142 | the same for an expiry pass |
| `Timers.SpentRun` | src/timer.cc:13-142 | over any run a one-shot timer loses its callback exactly by one hand-out or one successful cancel, a recurring one only by a cancel; both counted over the run |
| `Timers.TimerMembership` | src/timer.cc:13-92 | over every run, also with passes and additions whose time was read before the lock and has been overtaken: strictly ordered, in the set exactly while the callback is set, no call undefined, a one-shot timer handed out once or cancelled once and never both |
| `Timers.NeverEarly` | src/timer.cc:4-8 | over every run a timer not reset is not handed out before its time of addition plus its interval |
| `Timers.ExpirySelects` | src/timer.cc:117-142 | an expiry pass hands out all timers past their deadline and none before it, in deadline order; recurring ones are due again an interval later, the others lose their callback, all other timers keep their records |
| `Timers.RecurringGap` | src/timer.cc:133-141 | two hand-outs of a recurring timer in a run without a reset between them are at least its interval apart |
| `Timers.TimerManager.AddTimer` | src/timer.cc:79-92 | the new timer is due at the time read plus its interval, all others are unchanged; whether it is the earliest |
| `Timers.TimerManager.Cancel` | src/timer.cc:13-24 | succeeds exactly while the callback is set; the timer leaves the set and nothing else changes |
| `Timers.TimerManager.Refresh` | src/timer.cc:25-38 | the timer is due at the time read plus its interval, nothing else changes; the key is changed only while the timer is out of the set |
| `Timers.TimerManager.Reset` | src/timer.cc:39-61 | the new interval and deadline, with both early returns |
| `Timers.TimerManager.GetNextTimerTime` | src/timer.cc:103-116 | the wait until the earliest of all deadlines, or the largest 64-bit number |
| `Timers.TimerManager.ListOverTimeCallback` | src/timer.cc:117-142 | the callbacks of the expired timers in order, and the record every timer is left with |
| `Registries.SurvivorsUnregister` | src/rpc/rpc_service_registry.cc:183-198 | in the history, unregistering an address removes exactly its registrations |
| `Registries.FoundAsOften` | src/rpc/rpc_service_registry.cc:129-150 | what discover lists holds an address as often as it was registered under the name since its last unregistration |
| `Registries.RemoveFirst` | src/rpc/rpc_service_registry.cc:191-192 | erasing an address's oldest entry takes exactly its iterator off the list and no other entry |
| `Registries.Registry.ReferencedOnce` | src/rpc/rpc_service_registry.cc:101-109 | every entry is referenced once, from its own address, and no reference dangles |
| `Registries.Registry.Register` | src/rpc/rpc_service_registry.cc:101-109 | both maps agree with the history extended by the registration |
| `Registries.Registry.Discover` | src/rpc/rpc_service_registry.cc:129-150 | exactly the addresses registered under the name since their last unregistration, in order; one error entry when there are none |
| `Registries.Registry.Unregister` | src/rpc/rpc_service_registry.cc:183-198 | both maps agree with the history extended by the unregistration; the address is gone |
| `Schedulers.Scheduler.Submit` | include/scheduler.h:121-129 | an empty task is dropped, any other is queued last; a notification is wanted exactly when the list was empty |
| `Schedulers.Scheduler.Take` | src/scheduler.cc:77-97 | the earliest task this thread may run and no running fiber, none only when there is none; submitted equals queued plus handed out, each ticket once, pinned tasks on their thread, callbacks pinned alike in order |
| `Schedulers.MoveOne` | src/scheduler.cc:90-91 | taking a task off the list and handing it out conserves the multiset of tasks |
| `IoManagers.IoManager.ContextResize` | src/io_manager.cc:46-53 | the table has the size asked for, by dropping pointers or allocating contexts |
| `IoManagers.ResizedContexts` | src/io_manager.cc:46-53 | each old context stays as it is and is cut off exactly at and above the new size; new ones are empty; table and contexts keep pointing at each other |
| `IoManagers.ResizeKeepsBits` | src/io_manager.cc:46-53 | the set bits of the table survive a resize if and only if no context cut off has a registered event |
| `IoManagers.StaleResize` | src/io_manager.cc:57-69 | for all descriptors of two callers that looked before either resized: the first registration stays in the table if and only if its descriptor is below the size the second asks for |
| `IoManagers.RacingCallers` | src/io_manager.cc:55-103 | from an exact state, with both registrations granted, the counter is exact afterwards under the same condition and no other |
| `IoManagers.AddBalanced` | src/io_manager.cc:90-99 | a registration adds one bit, one count and one waiter |
| `IoManagers.FailBalanced` | src/io_manager.cc:82-89 | a failed registration leaves a bit the counter does not know |
| `IoManagers.SubmitBalanced` | src/io_manager.cc:224-241 | triggering moves exactly that waiter to the scheduler |
| `IoManagers.DropBalanced` | src/io_manager.cc:134-138 | deleting discards exactly that waiter |
| `IoManagers.ResizeBalanced` | src/io_manager.cc:46-53 | a resize, also one to a smaller size, conserves waiters, bits and count over all contexts and books those cut off |
| `IoManagers.CounterExact` | src/io_manager.cc:46-241 | in every state reached by any interleaving of the critical sections: the counter is the number of set bits in the table if and only if failed registrations equal the bits cut off, and with no context cut off if and only if none failed; every bit has its waiter if and only if each failed registration was deleted again |
| `IoManagers.IoManager.Look` | src/io_manager.cc:57-62 | the context the table has for the descriptor, or none |
| `IoManagers.IoManager.ResizeFor` | src/io_manager.cc:63-69 | resizes whatever the table is by now, also to a smaller size, and returns the descriptor's context |
| `IoManagers.IoManager.Register` | src/io_manager.cc:70-103 | the three outcomes and the whole new state, on a context that may have been cut off in between; waiters conserved |
| `IoManagers.IoManager.AddEvent` | src/io_manager.cc:55-103 | the three sections in a row: outcome and whole new state, with the table only growing |
| `IoManagers.IoManager.DelEvent` | src/io_manager.cc:113-139 | the waiter is dropped and the bit cleared, or nothing changes |
| `IoManagers.IoManager.TriggerEvent` | src/io_manager.cc:224-241 | the waiter is submitted once and its slot emptied |
| `IoManagers.IoManager.CancelEvent` | src/io_manager.cc:149-173 | the waiter is submitted and counted off, or nothing changes |
| `IoManagers.IoManager.CancelAllEvent` | src/io_manager.cc:180-208 | both waiters are submitted, the reader first, and the context is left empty |
| `IoManagers.IoManager.Fire` | src/io_manager.cc:282-318 | reported events are triggered and removed, errors count as all registered ones; never an abort while only registered events with a waiter are reported |
| `Ipv6.NumeralValue` | src/address.cc:395 | the printed numeral stands for the number, in hexadecimal and decimal |
| `Ipv6.ExpandCompressed` | src/address.cc:384-400 | text with one "::" denotes both sides with zero groups between |
| `Ipv6.ExpandFull` | src/address.cc:384-400 | eight groups written out denote themselves |
| `Ipv6.InsertGroups` | src/address.cc:382-400 | for every address the text expands, by section 2.2 of RFC 4291, to the same eight groups and has at most one "::" |
| `Ipv6.Insert` | src/address.cc:380-404 | that text in brackets followed by the port |

## Left out

- Codec.ReadVarint: requires that the bytes do not run out; the C++ reader has no bounds check, and what it then reads is chunk memory behind the contents or a null pointer.
- Codec.ReadStringVint: the same.
- Serializers.ReadScalar: the same.
- Serializers.Read: the same.
- Serializers.ReadTuple: the same.
- Serializers.ReadColl: the same.
- Protocols.Decode: the same, for content shorter than the header announces.
- RpcCalls.SplitCall: the same, for a content whose name runs out.
- RpcCalls.UnpackArguments: the same, for argument bytes that run out.
- Timers.TimerManager.AddTimer: takes a callback that is not empty; deadlines that overflow 64 bits are excluded.
- Timers.TimerManager.Cancel: Timer objects are gathered in a table keyed by their address instead of being separate heap objects, so aliasing of shared pointers is not captured.
- Channels.NoLostWakeup: waitFor is taken as "pop, park or time out", not with its own timer and double submission; a woken fiber is taken to get the channel's lock.
- Semaphores.SemaphoreBound: a woken fiber is taken to get the semaphore's lock, as for channels.
- CoMutexes.MutexSafety: nested locking is outside the usage assumed.
- IoManagers.IoManager.Fire: models one reported descriptor; the batch loop of Wait, the kernel's interest set and its choice between MOD and DEL are not part of this model.
- IoManagers.CounterExact: the counter is an integer, not reduced to size_t; negative descriptors are not modelled.
- Sessions.WriteFixSize: negative results of the underlying read and write are not modelled; the plain-buffer form of writeFixSize is the same loop and left out.
- Registries.Registry.Register: the multimap is a sequence in insertion order, which is also the order it keeps among equal names; publishing to subscribers is left out.
- Registries.Registry.Unregister: publishing is left out, and with it the read of an erased entry's name.
- ByteArrays.ChunksFor: the ceiling is exact, not computed in floating point; a chunk size of 0 is excluded.
- Schedulers.Scheduler.Take: resuming the task, and resubmitting a fiber that is ready again (unpinned), are not part of this model.
- `Result` on the wire, request and response ids, and the connection pool's address updates: no round trip or uniqueness holds there to be stated.
- The explicit-position form of getReadBuffers, the file functions, the fixed-length string forms and toHexString of ByteArray: easy or foreign.
- Floating-point values beyond their bit patterns, and big-endian hosts.
- Fiber switching, threads, hooks, sockets, DNS, logging, routing strategies, configuration: foreign calls or easy.
