# Memory stream model

A Dafny model of the memory stream of `lua-c-utility`
(`lua-c-utility/src/memory_stream.c`, `memory_stream.h`). The stream is a byte
buffer of fixed capacity with a read cursor and a write cursor. Binary messages
are staged in it. It provides signed 8/16/32/64-bit integers, strings with a
16-bit length prefix, and raw byte ranges, plus the cursor operations reset,
rewind, skip and skip-all and the used/free size queries.

Three modules, one per layer:

- `Wire` (`wire.dfy`): how scalars are laid out in bytes. The byte-order
  macros of the source are the identity, so values go on the wire in the
  writing host's order. The model fixes that order as little-endian. It
  proves that decoding inverts encoding, and the converse.
- `StreamModel` (`stream_model.dfy`): the stream as a value `Stream(buf, r, w)`.
  Each operation is a function on that value. The lemmas state the
  first-in first-out round trips, what rewind keeps, and how skip clamps.
- `MemoryStreams` (`memory_stream.dfy`): class `MemoryStream` with the
  struct's four fields. `capacity` and `buf` are `const`, because nothing
  reassigns them after `init_memory_stream`. The cursors `r` and `w` are
  offsets from `buf`. Every method is proved to move the abstract state
  `State()` exactly as the matching `StreamModel` function says. Rewind
  compacts the array in place with a loop. Two client methods replay two
  concrete runs. One writes three int32 values into a 16-byte stream, then
  reads, skips, reads and rewinds. The other writes and reads the string
  "hello" through a 64-byte stream.

The source checks no bounds. Here a read of k bytes requires `r + k <= w`, and
a write of k bytes requires `w + k <= capacity`. The class invariant is
`r <= w <= capacity == buf.Length`.

## Model

| member | source | states |
|---|---|---|
| `Wire.Unsigned` | lua-c-utility/src/memory_stream.c:125-133 | the number k stored bytes denote in host (little-endian) order is below 256^k |
| `Wire.Bytes` | lua-c-utility/src/memory_stream.c:183-189 | an unsigned value below 256^k is stored as exactly k bytes |
| `Wire.UnsignedOfBytes` | lua-c-utility/src/memory_stream.c:23-29 | reading back the stored bytes of u gives u |
| `Wire.BytesOfUnsigned` | lua-c-utility/src/memory_stream.c:23-29 | every byte sequence is the stored form of the number it denotes |
| `Wire.ToUnsigned` | lua-c-utility/src/memory_stream.c:159 | the signed-to-unsigned cast of the same width: non-negative values are kept, negative ones gain 256^k |
| `Wire.Signed` | lua-c-utility/src/memory_stream.c:210 | the unsigned-to-signed cast (`(int16_t)len`, and `unsigned char` returned as `int8_t`): the result is in the signed range and casting back gives the pattern again |
| `Wire.SignedOfUnsigned` | lua-c-utility/src/memory_stream.c:116-123 | casting a signed value to unsigned and back returns it |
| `Wire.EncodeInt` | lua-c-utility/src/memory_stream.c:176-205 | a write of width k stores k bytes whose unsigned value is the two's-complement pattern of the value |
| `Wire.DecodeInt` | lua-c-utility/src/memory_stream.c:116-153 | a read of width k yields a value in the signed k-byte range whose pattern is the bytes read |
| `Wire.DecodeEncode` | lua-c-utility/src/memory_stream.c:23-29 | round trip: decoding the encoding of a value in range gives the value |
| `Wire.EncodeDecode` | lua-c-utility/src/memory_stream.c:23-29 | round trip the other way: re-encoding a decoded value gives the same bytes |
| `Wire.WidthBounds` | lua-c-utility/src/memory_stream.h:38-41 | the signed ranges of widths 1, 2, 4 and 8 are those of `int8_t`, `int16_t`, `int32_t` and `int64_t` |
| `StreamModel.Emptied` | lua-c-utility/src/memory_stream.c:62-66 | reset leaves no unread bytes and a write offset of 0, and keeps the storage |
| `StreamModel.EmptiedIdempotent` | lua-c-utility/src/memory_stream.c:62-66 | resetting twice is the same as resetting once |
| `StreamModel.Rewound` | lua-c-utility/src/memory_stream.c:68-80 | rewind keeps the unread bytes, now from offset 0, with write offset old w minus old r; with nothing unread it is reset |
| `StreamModel.RewoundReadsSame` | lua-c-utility/src/memory_stream.c:68-80 | every read after a rewind returns the same bytes, and leaves the same unread bytes, as before it |
| `StreamModel.Skipped` | lua-c-utility/src/memory_stream.c:82-91 | skip n drops the first n unread bytes, or all of them when fewer are unread; storage and write offset stay |
| `StreamModel.Written` | lua-c-utility/src/memory_stream.c:215-219 | a write appends its bytes to the unread data at the write offset and changes no byte outside the written range |
| `StreamModel.Peek` | lua-c-utility/src/memory_stream.c:169-174 | a read of k bytes copies out the first k unread bytes |
| `StreamModel.Consumed` | lua-c-utility/src/memory_stream.c:169-174 | after a read of k bytes, the unread data is what followed those k bytes; storage and write offset stay |
| `StreamModel.ReadFront` | lua-c-utility/src/memory_stream.c:169-174 | with unread data a + b, a read of length of a returns a and leaves b |
| `StreamModel.WrittenTwice` | lua-c-utility/src/memory_stream.c:207-213 | two writes in a row leave the same state as one write of both byte ranges |
| `StreamModel.ScalarRoundTrip` | lua-c-utility/src/memory_stream.c:176-205 | a scalar written behind any unread bytes and followed by any later writes reads back unchanged once the bytes ahead of it are consumed |
| `StreamModel.StringPrefix` | lua-c-utility/src/memory_stream.c:210 | the prefix of a string of length len is 2 bytes whose unsigned value is len |
| `StreamModel.EncodeString` | lua-c-utility/src/memory_stream.c:207-213 | a string goes on the wire as 2 + len bytes: 2 prefix bytes whose unsigned value is len, then the payload |
| `StreamModel.DeclaredLen` | lua-c-utility/src/memory_stream.c:159 | the prefix read as `uint16_t` is below 65536 |
| `StreamModel.StringLen` | lua-c-utility/src/memory_stream.c:160-162 | the length a string read returns is the least of the declared length, 32768 and the used size |
| `StreamModel.StringLenAsWritten` | lua-c-utility/src/memory_stream.c:160-162 | the clamp as the source computes it: the least of the declared length, 32768 and the used size modulo 65536 |
| `StreamModel.StringRead` | lua-c-utility/src/memory_stream.c:155-167 | a string read returns exactly the least of the declared length, 32768 and the used size bytes, and consumes exactly the prefix and the returned bytes |
| `StreamModel.StringReadSteps` | lua-c-utility/src/memory_stream.c:159-164 | a string read is a 2-byte read followed by a read of the clamped length |
| `StreamModel.StringRoundTrip` | lua-c-utility/src/memory_stream.c:155-167 | when the unread data starts with an encoded string of at most 32768 bytes, a string read returns that string and consumes exactly its encoding |
| `StreamModel.StringWriteRead` | lua-c-utility/src/memory_stream.c:207-213 | a string of at most 32768 bytes written behind any unread bytes reads back whole and leaves nothing unread |
| `StreamModel.AsWrittenStringReadLosesData` | lua-c-utility/src/memory_stream.c:162 | with the clamp as written, a string whose encoding ends at offset 65536 reads back with length 0 |
| `MemoryStreams.MemoryStream.constructor` | lua-c-utility/src/memory_stream.c:52-60 | storage of exactly cap bytes, both cursors at 0, used size 0 and free size cap |
| `MemoryStreams.MemoryStream.UsedSize` | lua-c-utility/src/memory_stream.c:99-103 | the used size is the write offset from the start of storage, so it includes bytes already read |
| `MemoryStreams.MemoryStream.FreeSize` | lua-c-utility/src/memory_stream.c:105-108 | free size and used size add up to the capacity |
| `MemoryStreams.MemoryStream.EnsureFreeSize` | lua-c-utility/src/memory_stream.c:110-114 | for size >= 0, true exactly when size bytes fit with at least one byte to spare (strict comparison); for negative size, true exactly when any byte is free |
| `MemoryStreams.MemoryStream.Reset` | lua-c-utility/src/memory_stream.c:62-66 | the new state is the reset state |
| `MemoryStreams.MemoryStream.Rewind` | lua-c-utility/src/memory_stream.c:68-80 | the in-place compaction loop leaves exactly the rewound state |
| `MemoryStreams.MemoryStream.Skip` | lua-c-utility/src/memory_stream.c:82-91 | the new state is the skipped state: the read cursor moves by len but never past the write cursor |
| `MemoryStreams.MemoryStream.SkipAll` | lua-c-utility/src/memory_stream.c:93-97 | skip-all leaves the same state as reset, discarding unread bytes too |
| `MemoryStreams.MemoryStream.ReadRaw` | lua-c-utility/src/memory_stream.c:169-174 | returns the len bytes at the read cursor and moves past them |
| `MemoryStreams.MemoryStream.ReadByte` | lua-c-utility/src/memory_stream.c:116-123 | returns the byte at the read cursor as a signed 8-bit value and advances by 1 |
| `MemoryStreams.MemoryStream.ReadInt16` | lua-c-utility/src/memory_stream.c:125-133 | returns the value decoded from the 2 bytes at the read cursor and advances by 2 |
| `MemoryStreams.MemoryStream.ReadInt32` | lua-c-utility/src/memory_stream.c:135-143 | returns the value decoded from the 4 bytes at the read cursor and advances by 4 |
| `MemoryStreams.MemoryStream.ReadInt64` | lua-c-utility/src/memory_stream.c:145-153 | returns the value decoded from the 8 bytes at the read cursor and advances by 8 |
| `MemoryStreams.MemoryStream.ReadString` | lua-c-utility/src/memory_stream.c:155-167 | returns the payload and the new state of a string read, and reports the payload's length |
| `MemoryStreams.MemoryStream.WriteRaw` | lua-c-utility/src/memory_stream.c:215-219 | stores the first len bytes of src at the write cursor and advances by len; the free size drops by len |
| `MemoryStreams.MemoryStream.WriteByte` | lua-c-utility/src/memory_stream.c:176-181 | stores the 1-byte encoding and advances by 1; the free size drops by 1 |
| `MemoryStreams.MemoryStream.WriteInt16` | lua-c-utility/src/memory_stream.c:183-189 | stores the 2-byte encoding and advances by 2; the free size drops by 2 |
| `MemoryStreams.MemoryStream.WriteInt32` | lua-c-utility/src/memory_stream.c:191-197 | stores the 4-byte encoding and advances by 4; the free size drops by 4 |
| `MemoryStreams.MemoryStream.WriteInt64` | lua-c-utility/src/memory_stream.c:199-205 | stores the 8-byte encoding and advances by 8; the free size drops by 8 |
| `MemoryStreams.MemoryStream.WriteString` | lua-c-utility/src/memory_stream.c:207-213 | stores the 2-byte length prefix and the first len bytes of str, 2 + len bytes in all |
| `MemoryStreams.Int32Scenario` | lua-c-utility/src/memory_stream.c:135-143 | capacity 16, three int32 writes: used size 12; read gives the first value; skip 4; read gives the third; rewind empties the stream |
| `MemoryStreams.StringScenario` | lua-c-utility/src/memory_stream.c:155-167 | capacity 64, write "hello" with length 5: used size 7, prefix bytes 5 and 0, and the string read returns "hello" with length 5 |

## Left out

- `create_memory_stream` and `destroy_memory_stream` are `malloc`/`free` plumbing. Allocation failure is not modelled; `new` stands for the allocation in `init_memory_stream`.
- `get_native_endian` depends on the host's memory layout and keeps a mutable global cache. The model fixes the host order as little-endian instead.
- The Lua bindings (`lcu.c`), network-interface enumeration (`lcu_netinfo.c`), platform detection (`lcu_platform.c`) and the MongoDB wrapper are not part of this model.
- The source reads and writes without bounds checks. The model makes every read require its bytes below the write cursor and every write require its bytes below the capacity, so out-of-bounds behaviour is not modelled.
- `MemoryStreams.MemoryStream.ReadString`: the source clamps the declared length to the used size (the write offset), not to the unread bytes. A corrupt prefix can therefore make it copy bytes from past the write cursor. The model requires the clamped payload to lie below the write cursor (`CanReadString`). It also uses the clamp without the 16-bit cast; see Findings.
- The static 32768-byte scratch buffer of string reads is not modelled: a string read returns a fresh sequence, so aliasing between successive results is not captured.
- `memory_stream_read_raw` copies into a caller-supplied buffer. The model returns the bytes as a sequence instead.
- A negative length passed to `memory_stream_skip` moves the cursor backwards in C, possibly before the storage. The model requires a non-negative length.
- `memcpy` with overlapping ranges in rewind is undefined in C. The model gives it the semantics of `memmove` for a left shift.
- Size functions return `int` and `write_raw`/`read_raw` take `int` lengths. Truncation of sizes at or above 2^31 is not modelled.
- `memory_stream_write_string` trusts its caller that `str` holds `len` bytes. The model requires `len <= |str|`.
- The contents of freshly allocated storage are unspecified in C. Dafny zero-fills the array, but the constructor's contract says nothing about them.

## Findings

| source | as written | input that shows it | evidently intended | confidence | as-written member | corrected member |
|---|---|---|---|---|---|---|
| lua-c-utility/src/memory_stream.c:162 | the string length is clamped to `(uint16_t)szmax`, the used size cut to 16 bits | capacity 65536: write and skip 65529 bytes, then write_string of "hello" (5 bytes). The used size 65536 becomes 0, so read_string returns 0 bytes and leaves the payload unread | clamp to the whole used size, so a string of at most 32768 bytes written by write_string reads back whole | not executed; the cast is explicit in the code | `StreamModel.StringLenAsWritten` (shown by `StreamModel.AsWrittenStringReadLosesData`) | `StreamModel.StringLen` (proved by `StreamModel.StringWriteRead`; used by `MemoryStreams.MemoryStream.ReadString`) |
