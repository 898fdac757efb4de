# Khala internals: codec and event loops

A Dafny 4.11 model of the parts of this repository that carry its logic, with proofs of what they
promise. `dafny verify dfyconfig.toml` checks everything.

## What is modelled

**The MessagePack codec.** The decoder is a resumable pushdown machine: two registers (`cs`,
`trail`) and 32 stack frames, able to stop at any byte. `Machine` states its control as a function,
`UnpackContext` is the machine itself with its fields and stack array updated in place, and `Format`
is an independent recursive reader written from the first-byte table of the MessagePack
specification. `Refinement` proves the machine equal to the reader; `Split`, `Reachable`,
`Classification` and `Completion` prove what holds over whole runs. `Encoding` and `Packer` are the
encoder, `Sysdep` the byte-order macros down to their bits, `RoundTrip` and `Canonical` relate the
two directions, `Literals` puts numbers to the limits and header bytes, `Timestamp` is the timestamp
extension and `Sbuffer` the growing output buffer.

**The event loop.** `PriorityQueue` and `Scheduler` are the timed blocks, `HandOff` the queue and
ping socket between caller threads and the loop, `PollerMap` the JVM loop's sockets. Concurrency is
a set of atomic steps, and the claims hold for every interleaving of them.

**The Node socket.** `NodeSocket` is the deferred bind and close, driven by callbacks.

## Where the code and its promises differ

- `stopSafe` is documented as sending a stop to the loop
  (src/commonMain/kotlin/khala/internal/zmq/client/ClientLoop.kt:24-27). Its message has no frames,
  which CZMQ does not send (src/mingwX64Main/resources/include/czmq/zmsg.h:60-62), so no ping
  announces it. `HandOff.StopSeenExactly` says when a stop is seen at all.
- The JVM loop registers a socket by its raw handle and unregisters it by the wrapper object
  (src/jvmMain/kotlin/khala/internal/zmq/client/ClientLoopScope.kt:26,37). With a poller keyed by
  object identity the registration stays: `PollerMap.PollerAgreesExactly`.
- The format allows ext payloads of 2^32 - 1 bytes; the decoder adds the type byte in 32 bits and
  wraps to zero. `Format.BlobSize` follows the code, `RoundTrip.RoundTripExactly` has the bound.
- Finishing a value resets neither `cs` nor `trail`, so going on with the next value without `_init`
  is right only from the header state; after an empty str, bin or ext with a length word it is not
  possible at all: `Classification.GoOnExactly`.
- `_timestamp` loses nanosecond bits above the 30th when the seconds fit 34 bits:
  `Timestamp.TimestampRoundTripExactly`.

## Modelling choices

- Decoder callbacks succeed; containers start empty and items are appended. Integers of every width
  become one integer value, floats are bit patterns, an ext is the slice given to its callback: type
  byte, then payload. The `_root` callback is in C sources outside this repository; `_init` leaves a
  nil object.
- A later call sees the same buffer, longer: bytes of an incomplete body are not consumed.
- `msgpack_pack_object` is in C sources outside this repository; `Encoding.Encode` is header, then
  elements in order. Count and length parameters are size_t values, and the 32-bit casts are written
  out.
- Words in `Sysdep` are numbers with `&`, `|` and shifts defined on their bits; a little-endian host.
- The write callback succeeds. The allocator's answer is a parameter of `Sbuffer.Write`.
- A scheduled block is its time and an identity. What it schedules, and the clock readings, come
  from outside; the clock is the wall clock and may go back. Blocks with equal times may be queued
  in either order.
- The ping channel is an unbounded lossless FIFO. Completion callbacks of binds arrive after the
  call that started them, at most once each. Runs of the Node socket that go on after a close has
  reached it are included, because the code never marks the socket closed: a bind that the closed
  socket refuses, or never calls back for, is a bind without its completion.

## Model

| member | source | states |
|---|---|---|
| UnpackContext.Context.constructor | src/mingwX64Main/resources/include/msgpackc/msgpack/unpack_template.h:67-77 | A new context is the fresh state. |
| UnpackContext.Context.Init | src/mingwX64Main/resources/include/msgpackc/msgpack/unpack_template.h:67-77 | Whatever an earlier value left behind, the context is fresh again. |
| UnpackContext.Context.Fetch | src/mingwX64Main/resources/include/msgpackc/msgpack/unpack_template.h:169-384 | The two switches around `_fixed_trail_again` find the lexeme at the cursor, or stop with the registers saying what is missing. |
| UnpackContext.Context.StartContainer | src/mingwX64Main/resources/include/msgpackc/msgpack/unpack_template.h:140-151 | An empty container is an object at once; any other takes one slot, and the slots below stay. |
| UnpackContext.Context.Push | src/mingwX64Main/resources/include/msgpackc/msgpack/unpack_template.h:386-419 | The in-place cascade over the stack array, ending by `top`, has the outcome of `PushValue` on the live frames. |
| UnpackContext.Context.Dispatch | src/mingwX64Main/resources/include/msgpackc/msgpack/unpack_template.h:116-151 | From an action to `_header_again`, `_finish` or `_failed`, with the state and code of `Run`. |
| UnpackContext.Context.Execute | src/mingwX64Main/resources/include/msgpackc/msgpack/unpack_template.h:94-451 | Return code, offset, saved registers, live frames and finished object are those of `Run`; the loop ends by bytes left. |
| Refinement.LeafAgrees | src/mingwX64Main/resources/include/msgpackc/msgpack/unpack_template.h:172-383 | The bit tricks of both switches agree with the format's first-byte table on every header, length word and body. |
| Refinement.ValueRun | src/mingwX64Main/resources/include/msgpackc/msgpack/unpack_template.h:94-451 | Simulation over any stack: reading one value recursively is pushing that value, at the same offset; unfinished and failed reads end the run alike. |
| Refinement.ItemsRun | src/mingwX64Main/resources/include/msgpackc/msgpack/unpack_template.h:386-399 | An open array's frame with `count` items to go reads exactly that many items and then pushes the array. |
| Refinement.PairsRun | src/mingwX64Main/resources/include/msgpackc/msgpack/unpack_template.h:400-414 | An open map's frame alternates key and value, pairs them up and then pushes the map. |
| Refinement.RunIsRead | src/mingwX64Main/resources/include/msgpackc/msgpack/unpack_template.h:94-451 | Refinement: from a fresh context, value and offset, pause, PARSE_ERROR and NOMEM_ERROR each happen exactly when the recursive reader of the format says so. |
| Refinement.ReturnCodes | src/mingwX64Main/resources/include/msgpackc/msgpack/unpack.h:33-39 | The code is 1, 0, -1 or -2 exactly when the format's reader, with at most 32 containers on a path, finds a value, too few bytes, a 0xc1 or too deep a container. |
| Refinement.HeaderStateIsFresh | src/mingwX64Main/resources/include/msgpackc/msgpack/unpack_template.h:102-103 | A leftover `trail` does not matter in the header state: same code, value and offset as from a fresh context. |
| Refinement.FinishLeavesStaleState | src/mingwX64Main/resources/include/msgpackc/msgpack/unpack_template.h:428-449 | Finishing does not reset `cs`: three bytes on which going on without `_init` misreads the next value. |
| Split.RunSplit | src/mingwX64Main/resources/include/msgpackc/msgpack/unpack_template.h:98-109 | One cut: a paused prefix resumed on the whole buffer gives the single run's result; a finished or failed prefix is the result. |
| Split.SplitIndependence | src/mingwX64Main/resources/include/msgpackc/msgpack/unpack_template.h:421-449 | Any number of cuts: the same code, object, context and offset as one call. |
| Reachable.HeaderRegisters | src/mingwX64Main/resources/include/msgpackc/msgpack/unpack_template.h:172-239 | Every header byte leads to a valid wait, and the only error is 0xc1. |
| Reachable.TrailRegisters | src/mingwX64Main/resources/include/msgpackc/msgpack/unpack_template.h:249-383 | In every state the decoder enters the switch on `cs` never errs and yields sizes below 2^32. |
| Reachable.PushKeepsFrames | src/mingwX64Main/resources/include/msgpackc/msgpack/unpack_template.h:386-419 | Pushing keeps count at least 1 and items held plus count equal to the announced size; the unknown-container branch is never taken. |
| Reachable.RunKeepsValid | src/mingwX64Main/resources/include/msgpackc/msgpack/unpack_template.h:94-451 | Reachable-state invariant over runs: valid registers, at most 32 valid frames, failure only at 0xc1 or with all frames used; a finish leaves valid registers, but that an empty str, bin or ext leaves `trail` at zero. |
| Classification.FailurePoint | src/mingwX64Main/resources/include/msgpackc/msgpack/unpack_template.h:140-151 | Each failure has a header position reached by the bytes before it, holding 0xc1 or a container header with 32 containers open. |
| Classification.ParseErrorExactly | src/mingwX64Main/resources/include/msgpackc/msgpack/unpack_template.h:224-237 | PARSE_ERROR at an offset if and only if 0xc1 stands there between values. |
| Classification.DepthErrorExactly | src/mingwX64Main/resources/include/msgpackc/msgpack/unpack_template.h:141-144 | NOMEM_ERROR at an offset if and only if a container header ends there that starts with 32 containers open, whatever its count. |
| Classification.AfreshExactly | src/mingwX64Main/resources/include/msgpackc/msgpack/unpack_template.h:102-109 | For every valid pair of registers and no open container: going on from them has the code, value and offset of a fresh context on every buffer if and only if `cs` is the header state. |
| Classification.GoOnExactly | src/mingwX64Main/resources/include/msgpackc/msgpack/unpack_template.h:428-449 | After any finished run, going on with the next value without `_init` is possible, and decoding afresh, if and only if the value left the header state. |
| Classification.EmptyStrNotResumable | src/mingwX64Main/resources/include/msgpackc/msgpack/unpack_template.h:310-311 | Two bytes, an empty str with a length byte, that finish in a context no call may resume: `trail` is zero outside the header state. |
| Completion.PushPaysOne | src/mingwX64Main/resources/include/msgpackc/msgpack/unpack_template.h:386-414 | Conservation: a push settles exactly one outstanding value however far the cascade goes, and reaches the root exactly when one was left. |
| Completion.ZerosFinish | src/mingwX64Main/resources/include/msgpackc/msgpack/unpack_template.h:386-433 | As many one-byte values as are outstanding finish the object, at exactly that offset. |
| Completion.PausedCompletable | src/mingwX64Main/resources/include/msgpackc/msgpack/unpack_template.h:247-248 | An input answered with 0 can be extended to a value if and only if it does not end inside a container header with 32 containers open. |
| Sysdep.MaskBits | src/mingwX64Main/resources/include/msgpackc/msgpack/sysdep.h:131-154 | Bitwise `&` with a run of ones picks out that field of the word. |
| Sysdep.OrDisjoint | src/mingwX64Main/resources/include/msgpackc/msgpack/sysdep.h:131-154 | Bitwise `|` of words without common bits is their sum. |
| Sysdep.SwapDigits16 | src/mingwX64Main/resources/include/msgpackc/msgpack/sysdep.h:117-119 | The 16-bit shift-and-or swap exchanges the bytes. |
| Sysdep.SwapDigits32 | src/mingwX64Main/resources/include/msgpackc/msgpack/sysdep.h:131-135 | The 32-bit mask-and-shift swap reverses the four bytes. |
| Sysdep.SwapDigits64 | src/mingwX64Main/resources/include/msgpackc/msgpack/sysdep.h:146-154 | The 64-bit mask-and-shift swap reverses the eight bytes. |
| Sysdep.SwapTwice | src/mingwX64Main/resources/include/msgpackc/msgpack/sysdep.h:117-154 | Each swap is its own inverse on words of its width. |
| Sysdep.LoadIsBigEndian | src/mingwX64Main/resources/include/msgpackc/msgpack/sysdep.h:167-179 | A load reads the big-endian number of the bytes. |
| Sysdep.StoreIsBigEndian | src/mingwX64Main/resources/include/msgpackc/msgpack/sysdep.h:181-186 | A store lays out the big-endian digits of the word, negative numbers in two's complement. |
| Sysdep.LoadAfterStore | src/mingwX64Main/resources/include/msgpackc/msgpack/sysdep.h:167-186 | Load after store is the identity for unsigned and signed targets. |
| Sysdep.Store | src/mingwX64Main/resources/include/msgpackc/msgpack/sysdep.h:181-186 | The store changes exactly its 2, 4 or 8 bytes of the target. |
| Packer.Packer.PackUint8 | src/mingwX64Main/resources/include/msgpackc/msgpack/pack_template.h:53-63 | Emits the one encoding `IntBytes` of the number, the same as every other width that holds it. |
| Packer.Packer.PackUint16 | src/mingwX64Main/resources/include/msgpackc/msgpack/pack_template.h:65-80 | Emits the one encoding `IntBytes` of the number, the same as every other width that holds it. |
| Packer.Packer.PackUint32 | src/mingwX64Main/resources/include/msgpackc/msgpack/pack_template.h:82-106 | Emits the one encoding `IntBytes` of the number, the same as every other width that holds it. |
| Packer.Packer.PackUint64 | src/mingwX64Main/resources/include/msgpackc/msgpack/pack_template.h:108-137 | Emits the one encoding `IntBytes` of the number, the same as every other width that holds it. |
| Packer.Packer.PackInt8 | src/mingwX64Main/resources/include/msgpackc/msgpack/pack_template.h:139-149 | Emits the one encoding `IntBytes` of the number, the same as every other width that holds it. |
| Packer.Packer.PackInt16 | src/mingwX64Main/resources/include/msgpackc/msgpack/pack_template.h:151-179 | Emits the one encoding `IntBytes` of the number, the same as every other width that holds it. |
| Packer.Packer.PackInt32 | src/mingwX64Main/resources/include/msgpackc/msgpack/pack_template.h:181-219 | Emits the one encoding `IntBytes` of the number, the same as every other width that holds it. |
| Packer.Packer.PackInt64 | src/mingwX64Main/resources/include/msgpackc/msgpack/pack_template.h:221-277 | Emits the one encoding `IntBytes` of the number, the same as every other width that holds it. |
| Packer.Packer.PackFixUint8 | src/mingwX64Main/resources/include/msgpackc/msgpack/pack_template.h:282-286 | Emits the full-width form, which `FixedWidthDecodes` shows to decode to the same number. |
| Packer.Packer.PackFixUint16 | src/mingwX64Main/resources/include/msgpackc/msgpack/pack_template.h:288-293 | Emits the full-width form, which `FixedWidthDecodes` shows to decode to the same number. |
| Packer.Packer.PackFixUint32 | src/mingwX64Main/resources/include/msgpackc/msgpack/pack_template.h:295-300 | Emits the full-width form, which `FixedWidthDecodes` shows to decode to the same number. |
| Packer.Packer.PackFixUint64 | src/mingwX64Main/resources/include/msgpackc/msgpack/pack_template.h:302-307 | Emits the full-width form, which `FixedWidthDecodes` shows to decode to the same number. |
| Packer.Packer.PackFixInt8 | src/mingwX64Main/resources/include/msgpackc/msgpack/pack_template.h:309-313 | Emits the full-width form, which `FixedWidthDecodes` shows to decode to the same number. |
| Packer.Packer.PackFixInt16 | src/mingwX64Main/resources/include/msgpackc/msgpack/pack_template.h:315-320 | Emits the full-width form, which `FixedWidthDecodes` shows to decode to the same number. |
| Packer.Packer.PackFixInt32 | src/mingwX64Main/resources/include/msgpackc/msgpack/pack_template.h:322-327 | Emits the full-width form, which `FixedWidthDecodes` shows to decode to the same number. |
| Packer.Packer.PackFixInt64 | src/mingwX64Main/resources/include/msgpackc/msgpack/pack_template.h:329-334 | Emits the full-width form, which `FixedWidthDecodes` shows to decode to the same number. |
| Packer.Packer.PackFloat | src/mingwX64Main/resources/include/msgpackc/msgpack/pack_template.h:662-669 | Emits the encoding of that value. |
| Packer.Packer.PackDouble | src/mingwX64Main/resources/include/msgpackc/msgpack/pack_template.h:671-685 | Emits the encoding of that value. |
| Packer.Packer.PackNil | src/mingwX64Main/resources/include/msgpackc/msgpack/pack_template.h:692-696 | Emits the encoding of that value. |
| Packer.Packer.PackTrue | src/mingwX64Main/resources/include/msgpackc/msgpack/pack_template.h:703-707 | Emits the encoding of that value. |
| Packer.Packer.PackFalse | src/mingwX64Main/resources/include/msgpackc/msgpack/pack_template.h:709-713 | Emits the encoding of that value. |
| Packer.Packer.PackArray | src/mingwX64Main/resources/include/msgpackc/msgpack/pack_template.h:720-734 | Emits the header for every size_t count or length, cut to 32 bits where the code casts. |
| Packer.Packer.PackMap | src/mingwX64Main/resources/include/msgpackc/msgpack/pack_template.h:741-755 | Emits the header for every size_t count or length, cut to 32 bits where the code casts. |
| Packer.Packer.PackStr | src/mingwX64Main/resources/include/msgpackc/msgpack/pack_template.h:762-780 | Emits the header for every size_t count or length, cut to 32 bits where the code casts. |
| Packer.Packer.PackV4Raw | src/mingwX64Main/resources/include/msgpackc/msgpack/pack_template.h:791-805 | Emits the header for every size_t count or length, cut to 32 bits where the code casts. |
| Packer.Packer.PackBin | src/mingwX64Main/resources/include/msgpackc/msgpack/pack_template.h:816-831 | Emits the header for every size_t count or length, cut to 32 bits where the code casts. |
| Packer.Packer.PackExt | src/mingwX64Main/resources/include/msgpackc/msgpack/pack_template.h:842-897 | Emits the header for every size_t count or length, cut to 32 bits where the code casts. |
| Packer.Packer.PackBody | src/mingwX64Main/resources/include/msgpackc/msgpack/pack_template.h:782-785 | Emits the body bytes unchanged. |
| RoundTrip.ReadEncoded | src/mingwX64Main/resources/include/msgpackc/msgpack/pack_template.h:340-902 | An encoded tree anywhere in a buffer reads back at the end of its encoding, or fails at the header of its first container that is too deep. |
| RoundTrip.RoundTripExactly | src/mingwX64Main/resources/include/msgpackc/msgpack/pack_template.h:340-902 | For every tree and every suffix: decoding gives the tree back at its encoding's end if and only if all sizes fit the format and no path holds more than 32 containers. |
| RoundTrip.TooDeepExactly | src/mingwX64Main/resources/include/msgpackc/msgpack/unpack_template.h:140-144 | Past that depth: NOMEM_ERROR at the last header byte of the first container, in byte order, that is too deep. |
| RoundTrip.ReadFits | src/mingwX64Main/resources/include/msgpackc/msgpack/unpack_template.h:301-345 | No decoded value has a size the format could not announce. |
| RoundTrip.PrefixFree | src/mingwX64Main/resources/include/msgpackc/msgpack/pack_template.h:720-897 | No encoding is a proper prefix of another, and encoding is injective, for trees of any depth. |
| RoundTrip.ListEncodingInjective | src/mingwX64Main/resources/include/msgpackc/msgpack/pack_template.h:720-897 | Lists of values of any depth, written one behind the other, with the same bytes are the same list. |
| RoundTrip.StreamsParseUniquely | src/mingwX64Main/resources/include/msgpackc/msgpack/unpack_template.h:67-77 | Re-initialising after each value, a stream of encodings decodes to exactly the list written. |
| RoundTrip.FixedWidthDecodes | src/mingwX64Main/resources/include/msgpackc/msgpack/pack_template.h:282-334 | The full-width integer forms decode to their number. |
| RoundTrip.RawDecodes | src/mingwX64Main/resources/include/msgpackc/msgpack/pack_template.h:791-805 | The older raw header decodes to the same string. |
| RoundTrip.ExtLengthWraps | src/mingwX64Main/resources/include/msgpackc/msgpack/unpack_template.h:341-345 | An ext length of 2^32 - 1 wraps with its type byte: the header alone finishes as an empty slice. |
| Literals.NestedArrays | src/mingwX64Main/resources/include/msgpackc/msgpack/unpack_define.h:24-26 | The depth limit in bytes: 0x91 n times and then nil decodes, at offset n + 1, if n is at most 32; otherwise the code is -2 at offset 32. |
| Literals.IntSign | src/mingwX64Main/resources/include/msgpackc/msgpack/pack_template.h:53-277 | An integer of zero or more never takes a signed form and a negative one never an unsigned form, though both would decode. |
| Literals.PositiveBytes | src/mingwX64Main/resources/include/msgpackc/msgpack/pack_template.h:108-137 | Every unsigned form byte by byte, on an integer just past each limit. |
| Literals.NegativeBytes | src/mingwX64Main/resources/include/msgpackc/msgpack/pack_template.h:221-277 | Every signed form byte by byte, on an integer just past each limit. |
| Literals.StrBytes | src/mingwX64Main/resources/include/msgpackc/msgpack/pack_template.h:762-780 | One str header of each width in bytes. |
| Literals.BinBytes | src/mingwX64Main/resources/include/msgpackc/msgpack/pack_template.h:816-831 | One bin header of each width in bytes. |
| Literals.BoxBytes | src/mingwX64Main/resources/include/msgpackc/msgpack/pack_template.h:720-755 | One array and one map header of each width in bytes. |
| Literals.ExtBytes | src/mingwX64Main/resources/include/msgpackc/msgpack/pack_template.h:842-897 | One ext header of each fixed size and each width in bytes, the type byte last. |
| Literals.ScalarBytes | src/mingwX64Main/resources/include/msgpackc/msgpack/pack_template.h:662-713 | Nil, the booleans and both floats in bytes. |
| Literals.RawHeaderBytes | src/mingwX64Main/resources/include/msgpackc/msgpack/pack_template.h:791-805 | The older raw header never has 0xd9, and differs from the str header exactly for the lengths 32 to 255. |
| Literals.HeadersWrap | src/mingwX64Main/resources/include/msgpackc/msgpack/pack_template.h:720-897 | Headers for every size_t count or length, of each kind: what is announced is that number modulo 2^32. |
| Literals.AnyStrDecodes | src/mingwX64Main/resources/include/msgpackc/msgpack/pack_template.h:762-785 | A str of any size, packed, decodes as its first length modulo 2^32 bytes, and as itself if and only if its length is below 2^32. |
| Canonical.ReadByDepth | src/mingwX64Main/resources/include/msgpackc/msgpack/unpack_template.h:140-151 | Bytes that read as a value under some depth limit read the same under exactly the limits that are at least the value's depth. |
| Canonical.DepthLimitExactly | src/mingwX64Main/resources/include/msgpackc/msgpack/unpack_template.h:140-151 | A well-formed byte string decodes if and only if no path of its value holds more than 32 containers, counting empty ones; otherwise NOMEM_ERROR. |
| Canonical.EncodingShortest | src/mingwX64Main/resources/include/msgpackc/msgpack/pack_template.h:53-897 | No byte string that decodes to a value, of any kind and nesting, is shorter than the packer's encoding of it; for integers this is minimal packing. |
| Timestamp.PackTimestamp | src/mingwX64Main/resources/include/msgpackc/msgpack/pack_template.h:904-930 | Emits the ext encoding of the form the code chooses, through stores into a local buffer. |
| Timestamp.Timestamp.FromObject | src/mingwX64Main/resources/include/msgpackc/msgpack/timestamp.h:25-51 | Reads the 4-, 8- and 12-byte forms and refuses the rest, leaving the target alone. |
| Timestamp.ReadsBack | src/mingwX64Main/resources/include/msgpackc/msgpack/timestamp.h:25-51 | What comes back for every int64 seconds and every uint32 nanoseconds. |
| Timestamp.TimestampRoundTripExactly | src/mingwX64Main/resources/include/msgpackc/msgpack/pack_template.h:904-930 | The round trip is exact if and only if nanoseconds are below 2^30 or seconds lie outside [0, 2^34). |
| Timestamp.TimestampLosesBits | src/mingwX64Main/resources/include/msgpackc/msgpack/pack_template.h:906-907 | A concrete time whose high nanosecond bits are shifted out. |
| Timestamp.TimestampShortest | src/mingwX64Main/resources/include/msgpackc/msgpack/pack_template.h:904-930 | No payload that reads as the same time is shorter than the one written. |
| Timestamp.PayloadSize | src/mingwX64Main/resources/include/msgpackc/msgpack/pack_template.h:904-930 | Which of the three payloads is written, for every int64 seconds and uint32 nanoseconds. |
| Timestamp.ReaderExactly | src/mingwX64Main/resources/include/msgpackc/msgpack/timestamp.h:25-51 | For every object: a timestamp exactly if it is an ext of type -1 with 4, 8 or 12 bytes, and the time that each such payload stands for, also those never written. |
| Timestamp.TimestampThroughCodec | src/mingwX64Main/resources/include/msgpackc/msgpack/pack_template.h:904-930 | Packed, decoded by the machine and read as a timestamp, under the same exact condition. |
| Sbuffer.GrowthExactly | src/mingwX64Main/resources/include/msgpackc/msgpack/sbuffer.h:67-79 | The new capacity holds old and new bytes if and only if their total is a size_t, even when doubling wraps, and is at most 8192 or twice that total. |
| Sbuffer.AmortisedGrowth | src/mingwX64Main/resources/include/msgpackc/msgpack/sbuffer.h:60-92 | Over every run of writes: contents are the concatenation, capacity at most 8192 or twice the size, and bytes carried over by all reallocations at most the final capacity while the size is at most 2^63. |
| Sbuffer.CapacityExactly | src/mingwX64Main/resources/include/msgpackc/msgpack/sbuffer.h:67-79 | Over every run of writes of up to 2^63 bytes the capacity depends on the total alone: 0 for nothing, else 8192 doubled until it suffices. |
| Sbuffer.FirstCapacities | src/mingwX64Main/resources/include/msgpackc/msgpack/sbuffer.h:69-70 | 1 to 8192 bytes take 8192, and up to 16384 take 16384. |
| Sbuffer.CarriedExactly | src/mingwX64Main/resources/include/msgpackc/msgpack/sbuffer.h:81-88 | One more write carries over the old capacity exactly when the total exceeds it, and otherwise nothing. |
| Sbuffer.Sbuffer.Grow | src/mingwX64Main/resources/include/msgpackc/msgpack/sbuffer.h:69-79 | The doubling loop ends and computes that capacity. |
| Sbuffer.Sbuffer.Reserve | src/mingwX64Main/resources/include/msgpackc/msgpack/sbuffer.h:67-86 | Reallocation keeps the contents; a refused one changes nothing. |
| Sbuffer.Sbuffer.Write | src/mingwX64Main/resources/include/msgpackc/msgpack/sbuffer.h:60-92 | A write appends, a null buffer writes nothing, and -1 leaves everything as it was. |
| Sbuffer.Sbuffer.Release | src/mingwX64Main/resources/include/msgpackc/msgpack/sbuffer.h:94-101 | Hands the bytes out and leaves an empty buffer. |
| Sbuffer.Sbuffer.Clear | src/mingwX64Main/resources/include/msgpackc/msgpack/sbuffer.h:103-106 | Forgets the contents and keeps the capacity. |
| PriorityQueue.PriorityQueue.BinarySearch | src/nativeMain/kotlin/khala/internal/zmq/PriorityQueue.kt:21 | An equal element's index, or the one insertion point that keeps the list sorted. |
| PriorityQueue.PriorityQueue.Add | src/nativeMain/kotlin/khala/internal/zmq/PriorityQueue.kt:20-24 | Inserts the element somewhere that keeps the list sorted. |
| PriorityQueue.PriorityQueue.Poll | src/nativeMain/kotlin/khala/internal/zmq/PriorityQueue.kt:12-14 | Takes the head; on an empty list nothing changes and nothing is returned. |
| PriorityQueue.RefinesMultiset | src/nativeMain/kotlin/khala/internal/zmq/PriorityQueue.kt:6-24 | After every run the list is sorted and is exactly what was added and not polled. |
| PriorityQueue.PollGivesLeast | src/nativeMain/kotlin/khala/internal/zmq/PriorityQueue.kt:12-14 | At every point of every run a poll yields a least element, and something whenever anything is there. |
| Scheduler.NotBeforeNowExactly | src/nativeMain/kotlin/khala/internal/zmq/client/ClientLoopScope.kt:36-40 | For every clock and every timeout of 64 bits: a scheduled time is not in the past if and only if a timeout of zero or more does not overflow and a negative one does. |
| Scheduler.ScheduleTimeExactly | src/nativeMain/kotlin/khala/internal/zmq/client/ClientLoopScope.kt:36-40 | The scheduled time for every clock and timeout of 64 bits: their sum where it is a 64-bit integer, and off by 2^64 where it is not. |
| Scheduler.RunsInOrder | src/nativeMain/kotlin/khala/internal/zmq/client/ClientLoopJob.kt:30-37 | Over whole runs, whatever the clock does and whatever timeouts are asked for: no block runs before its time, and a finished drain leaves nothing due. Blocks have run in the order of their times, none ahead of a queued one, if and only if no call ever put a block in front of one that had run. |
| Scheduler.SteadyRunsInOrder | src/nativeMain/kotlin/khala/internal/zmq/client/ClientLoopJob.kt:30-37 | With a clock that does not go back and timeouts of zero or more that do not overflow, that order always holds. |
| Scheduler.BlocksConserved | src/nativeMain/kotlin/khala/internal/zmq/client/ClientLoopScope.kt:33-41 | Over every run the blocks that have run and those queued are exactly those asked for, with their times and identities. |
| Scheduler.DueExactly | src/nativeMain/kotlin/khala/internal/zmq/client/ClientLoopJob.kt:32-34 | What is due in a sorted queue is every block whose time has come, at the front. |
| Scheduler.DrainProgress | src/nativeMain/kotlin/khala/internal/zmq/client/ClientLoopJob.kt:32-37 | Conservation along any steps of a drain: blocks run and then still due are the blocks that were due, or more of them once something already due was scheduled. |
| Scheduler.DrainExactly | src/nativeMain/kotlin/khala/internal/zmq/client/ClientLoopJob.kt:31-37 | A drain that has nothing left to do has run exactly the blocks due when it began, in order, if and only if nothing scheduled meanwhile was already due. |
| Scheduler.ZeroTimeoutRepeats | src/nativeMain/kotlin/khala/internal/zmq/client/ClientLoopJob.kt:32-37 | With timeout zero and a standing clock a drain can come back to where it was, so it needs later times to end. |
| Scheduler.ClientLoopScope.InvokeAfterTimeout | src/nativeMain/kotlin/khala/internal/zmq/client/ClientLoopScope.kt:33-41 | Takes one clock reading and inserts the block at that time plus the timeout. |
| Scheduler.ClientLoopScope.RunBlock | src/nativeMain/kotlin/khala/internal/zmq/client/ClientLoopJob.kt:36 | What is due in this drain stays the same if and only if all the block schedules falls after the sampled time; the queue afterwards is the old one and one block for each request, with its time and identity. |
| Scheduler.ClientLoopScope.Drain | src/nativeMain/kotlin/khala/internal/zmq/client/ClientLoopJob.kt:31-37 | If what the due blocks schedule, at the clock readings they take, falls after the sampled time, the drain ends, having run exactly the blocks due when it began, in order; queued afterwards are exactly the blocks that were not due and those that the due ones scheduled. |
| HandOff.ClientLoop.InvokeSafe | src/nativeMain/kotlin/khala/internal/zmq/client/ClientLoop.kt:52-59 | One query and one ping, as one step. |
| HandOff.ClientLoop.StopSafe | src/nativeMain/kotlin/khala/internal/zmq/client/ClientLoop.kt:61-67 | A stop query without a ping, then disposal. |
| HandOff.ClientLoop.HandlePongSocket | src/nativeMain/kotlin/khala/internal/zmq/client/ClientLoopJob.kt:56-63 | Takes the head query, never from an empty deque, and keeps the invariant. |
| HandOff.RefinesFifo | src/nativeMain/kotlin/khala/internal/zmq/client/ClientLoop.kt:52-67 | Every interleaving, from its steps alone: the loop has executed the first k queries asked for, in order, k being the messages it has read, the rest are queued in order, one message per invoke is in flight or read, and a message never finds the deque empty. |
| HandOff.StopSeenExactly | src/nativeMain/kotlin/khala/internal/zmq/client/ClientLoop.kt:61-67 | A stop that is seen is among the first k queries, k being the invokes enqueued; with no ping left in flight the converse holds. |
| HandOff.StopAloneNeverSeen | src/nativeMain/kotlin/khala/internal/zmq/client/ClientLoop.kt:61-67 | A stop that no later invoke follows is never executed. |
| HandOff.StopLost | src/nativeMain/kotlin/khala/internal/zmq/client/ClientLoop.kt:61-67 | The run of one `stopSafe` on an idle loop: the stop is enqueued, never executed, and no step leads on. |
| NodeSocket.EventKeepsInv | src/nodeMain/kotlin/khala/internal/zmq/bindings/ZmqSocket.kt:10-53 | One event: at most one bind in progress, at most one call reaches the socket, call order kept. |
| NodeSocket.BindsInCallOrder | src/nodeMain/kotlin/khala/internal/zmq/bindings/ZmqSocket.kt:16-38 | Every interleaving: binds issued and then queued are the binds asked for, in call order, with at most one outstanding. |
| NodeSocket.ClosesOnlyWhenIdle | src/nodeMain/kotlin/khala/internal/zmq/bindings/ZmqSocket.kt:26-31 | At every point of every run a close is issued only with no bind outstanding or queued. |
| NodeSocket.BusyPeriod | src/nodeMain/kotlin/khala/internal/zmq/bindings/ZmqSocket.kt:21-52 | A busy period sends every bind put off or asked for meanwhile, in order, and then one close if any was asked for. |
| NodeSocket.RunSends | src/nodeMain/kotlin/khala/internal/zmq/bindings/ZmqSocket.kt:16-53 | Every run on a socket that is not a websocket: all calls that have reached it, and all that is put off, as a function of the events alone. |
| NodeSocket.IdleCallGoesThrough | src/nodeMain/kotlin/khala/internal/zmq/bindings/ZmqSocket.kt:16-53 | At every point of every run, on either kind of socket, a bind or close that finds no bind in progress reaches the socket at once, and alone. |
| NodeSocket.WebSocketPassesThrough | src/nodeMain/kotlin/khala/internal/zmq/bindings/ZmqSocket.kt:33-46 | On a websocket nothing is put off: every bind and every close asked for reaches the socket, in the order of the calls. |
| NodeSocket.ZmqSocket.Bind | src/nodeMain/kotlin/khala/internal/zmq/bindings/ZmqSocket.kt:16-38 | The in-place fields follow the event model on a bind call. |
| NodeSocket.ZmqSocket.OnBound | src/nodeMain/kotlin/khala/internal/zmq/bindings/ZmqSocket.kt:21-31 | The callback follows the event model: next queued bind, else the close put off. |
| NodeSocket.ZmqSocket.Close | src/nodeMain/kotlin/khala/internal/zmq/bindings/ZmqSocket.kt:40-53 | The in-place fields follow the event model on a close call. |
| PollerMap.SocketsAccountedFor | src/jvmMain/kotlin/khala/internal/zmq/client/ClientLoopScope.kt:21-40 | After any run: mapped sockets are open and belong to one address, created minus closed is the size of the map, and nothing is closed exactly when no remove found its address. |
| PollerMap.PollerAgreesExactly | src/jvmMain/kotlin/khala/internal/zmq/client/ClientLoopScope.kt:26-39 | The poller watches exactly the pong socket and the mapped sockets if and only if no remove has found its address in the map. |
| PollerMap.RemoveLeavesRegistration | src/jvmMain/kotlin/khala/internal/zmq/client/ClientLoopScope.kt:35-40 | One send and one remove leave a closed socket registered. |
| PollerMap.SendsReuseSocket | src/jvmMain/kotlin/khala/internal/zmq/client/ClientLoopScope.kt:21-33 | Until its removal every send to an address uses the socket of the first. |
| PollerMap.SendGoesOut | src/jvmMain/kotlin/khala/internal/zmq/client/ClientLoopScope.kt:21-33 | After any run a send, to a known address or a new one, leaves the address mapped and sends its message on that socket, behind all earlier ones. |
| PollerMap.EverySendGoesOut | src/jvmMain/kotlin/khala/internal/zmq/client/ClientLoopScope.kt:21-33 | Over every run the messages that went out are those asked for, in order. |
| PollerMap.MappedExactly | src/jvmMain/kotlin/khala/internal/zmq/client/ClientLoopScope.kt:21-40 | After every run an address has a socket if and only if it has been sent to since it was last removed. |
| PollerMap.ClientLoopScope.SendMessage | src/jvmMain/kotlin/khala/internal/zmq/client/ClientLoopScope.kt:21-33 | Map, poller and sent messages change as the model says. |
| PollerMap.ClientLoopScope.Remove | src/jvmMain/kotlin/khala/internal/zmq/client/ClientLoopScope.kt:35-40 | Removes, unregisters the wrapper object and closes the socket. |

## Left out

- czmq, libzmq and json-c headers, and the zone, vrefbuffer and zbuffer headers: declarations, or code that lives in libraries.
- The `msgpack_unpacker_*` wrapper: its buffer expansion and reset bodies are not part of this model.
- Failing decoder callbacks and failing write callbacks.
- Float arithmetic, the ARM word swap for doubles, and big-endian hosts.
- The integer encoders named after C types (`_short`, `_int`, `_long`, ...): each picks one of the fixed widths by the size of the type.
- ZeroMQ transport: high-water marks, loss, blocking in `poll`, real clocks.
- Behaviour after the isolate is disposed, and removing a socket while the same native poll pass still has to read it.
- The native address map: its poll list is rebuilt from the map in every turn, so there is no registration to go stale.
- Server loops and the loops for JavaScript, near copies or thin wrappers of what is modelled.
- JSON conversion and binary payloads: parsing, printing and string encoding are library code.
- Exceptions thrown by the Node socket's own `bind` or `close`: what the calls after a close do to that socket is library code.
- Sbuffer.AmortisedGrowth: the bound on bytes carried over is stated for sizes up to 2^63, because beyond it doubling can wrap and the buffer then grows to the exact size each time.
- Scheduler.ClientLoopScope.Drain: asks that what the due blocks schedule falls after the sampled time, because otherwise the loop runs more than was due (Scheduler.DrainExactly) and need not end (Scheduler.ZeroTimeoutRepeats).
- Sbuffer.Sbuffer.Write: asks that the old size plus the new length is a size_t, because beyond that the code copies past the buffer it computed (Sbuffer.GrowthExactly).
