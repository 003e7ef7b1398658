# NodeMcServer protocol core in Dafny

This project models the protocol core of NodeMcServer's `index.js`, the
beginnings of a Minecraft server in Node.js. The model covers:

- **VarInt.** The protocol's 7-bits-per-byte integer with a continuation bit
  (`VarInt.decode` and `VarInt.encode`). Bytes are `bv8` and values are
  32-bit patterns (`bv32`), because JavaScript's `<<`, `|`, `&` and `>>>`
  work on such patterns.
- **ServerString.** The length-prefixed string (`ServerString.decode` and
  `ServerString.encode`). Strings stay as their UTF-8 bytes.
- **Packet registry.** `packets.json` is a parameter: per direction, an
  ordered table of named descriptors, each with `ID`, `State`, `Fields` and an
  optional `HandlerID`.
- **Packet.** A class with the fields the source updates in place. It models
  `parse`: the length prefix, the packet id, and the payload window that
  lines 16-20 cut. It models `readPacketData`, the registry lookup where the
  last match wins. It models `getPacketFeilds`, the cursor walk over the
  field list.
- **PacketFactory.createPacket.** Builds the frame `VarInt(length) ++
  VarInt(id) ++ fields` in a fresh packet.
- **Client.** The connection state machine: `onData` parses each chunk as a
  server-bound packet, drops unknown or handler-less packets, and dispatches
  the rest. `HandshakeHanlder` moves "Handshaking" to "SLP" or "Login".

Every operation that changes state is a method on a class (`Packet.Packet`,
`Client.Client`) or a method with its loop. Each is proved against a
specification function: `ReadVarInt`, `Encoding`, `DecodeFields`,
`EncodeFields`, `ParseSpec`, `ReadSpec` and `Receive`. The properties are
proved about those functions. The main ones:

- the VarInt and string round trips at any offset in any buffer;
- the field-list round trip;
- the lookup's outcome;
- the end-to-end parse of a frame built by the factory;
- the handshake transitions of the client.

The source throws in several places: a missing property read, a call of
`undefined`, `Buffer.alloc` of a negative size, or `buffer.copy` from
past the end of the buffer. The model represents
each of these as a `raised` flag or an `Outcome`.

Where the code and the protocol's usual description differ, the model
follows the code:

- **No length limit or error in `VarInt.decode`.** It has no 5-byte limit
  and no malformed-input error. A read past the end of the buffer yields
  `undefined`, which the bitwise operators read as 0. That ends the value,
  so a truncated VarInt decodes without error.
- **No length checks.** Frames and payloads are never checked against their
  declared lengths. A string that runs past the buffer is clamped by
  `buffer.toString`.
- **Unknown packets are not exceptions.** An unknown packet sets `error`
  instead of raising anything. An unknown name in `createPacket` throws,
  because it reads a property of `undefined`.
- **25565 takes three bytes.** The VarInt encoding of 25565 is `DD C7 01`,
  not the two bytes sometimes quoted (`VarInt.KnownEncodings`).

## Model

| member | source | states |
|---|---|---|
| `VarInt.ShiftCount` | index.js:168 | the shift count `7 * numRead` as `<<` takes it is always below 32 |
| `VarInt.ShiftValue` | index.js:168 | the shift count of the `k`-th byte is `7 * k` modulo 32, as `<<` keeps only five bits of its count: the sixth byte of a long run is shifted by 3, not 35 |
| `VarInt.Size` | index.js:165-170 | the decoder reads at least one byte, and exactly one when the cursor is outside the buffer |
| `VarInt.Decode` | index.js:161-171 | the do-while loop returns the OR of `(b_k & 0x7F) << 7k` over the bytes read, and the cursor is the start plus the number of bytes read, which is at least one |
| `VarInt.SizeStops` | index.js:165-170 | every byte read except the last has the continuation bit, and the last one does not |
| `VarInt.SizeIs` | index.js:165-170 | conversely, a run of continuing bytes closed by a clear one is read whole, so the length depends on the bytes alone |
| `VarInt.AccumulateLocal` | index.js:166-168 | the decoded value depends only on the bytes read, not on where they sit |
| `VarInt.Encode` | index.js:174-186 | the loop (with line 182 appending as intended) returns the encoding: one byte per 7-bit group while the `>>>`-shifted value is non-zero |
| `VarInt.EncodingShape` | index.js:176-183 | every 32-bit value, negatives included, encodes in 1 to 5 bytes, as many as its magnitude needs; the continuation bit is on every byte but the last; the groups reassemble to the value |
| `VarInt.RoundTrip` | index.js:160-186 | decoding an encoding placed anywhere in any buffer gives the value back, with the cursor just past the encoding |
| `VarInt.KnownEncodings` | index.js:174-186 | 0, 127, 128, 25565 and 0xFFFFFFFF encode as `00`, `7F`, `80 01`, `DD C7 01` and `FF FF FF FF 0F` |
| `VarInt.AsWrittenEncodingLoses` | index.js:182 | as written the encoder throws for every value and never yields the encoding, which the decoder would read back |
| `Int32.ToInt32Range` | index.js:168 | the number a decoded pattern stands for (`|` yields a signed 32-bit integer) lies in [-2^31, 2^31), and is non-negative exactly when the sign bit is clear |
| `Int32.ToBv32Inverse` | index.js:98 | a length or id below 2^32 passed to the encoder survives the conversion to a 32-bit pattern, and reads back as itself as a signed number when below 2^31 |
| `ServerString.Slice` | index.js:203 | `buffer.toString(enc, start, end)` yields exactly `buffer[start..end]` when the range lies inside the buffer; a range running past the end stops at the end, one starting before 0 starts at 0, and an empty, inverted or out-of-buffer range yields nothing |
| `ServerString.DecodeReads` | index.js:200-204 | `ServerString.Decode` reads the declared number of bytes after the VarInt prefix; when the buffer ends first it reads up to the end; a length of 0 or less reads nothing; the cursor is the prefix end plus the declared length in every case |
| `ServerString.EncodeLayout` | index.js:205-207 | the intended encoding is a length prefix of one to five bytes followed by the UTF-8 bytes unchanged |
| `ServerString.RoundTrip` | index.js:199-207 | a string encoded as intended (byte-count prefix, then the bytes), placed anywhere in a buffer, decodes to its bytes with the cursor just past it, for any length below 2^31 |
| `ServerString.AsWrittenRaises` | index.js:205-207 | as written the encoder throws and never returns the intended encoding |
| `ServerString.CharCountPrefixSplits` | index.js:206 | a prefix taken from the character count cuts "é" (two UTF-8 bytes) to its first byte and stops the cursor inside the string, while the byte-count prefix reads it back whole |
| `Registry.LastMatch` | index.js:26-35 | the lookup's result is the last entry whose `ID` equals the packet id and whose `State` equals the state; no later entry matches; when there is no result, no entry matches |
| `Registry.TypeOf` | index.js:51-70 | the four type names the `switch` recognises map to their own types, and every other name to an unrecognised type that keeps the name, so no unrecognised type carries a recognised name |
| `Registry.FindByName` | index.js:41 | `packets[dir][name]` is an entry of that name, and when it is absent no entry has that name |
| `Registry.LookupFindsEntry` | index.js:26-35 | when no two descriptors share an id and a state, the lookup by an entry's id and state finds that very entry |
| `Registry.FindByNameFindsEntry` | index.js:41 | with distinct names, the lookup by an entry's name finds that entry |
| `Fields.DecodeFollowsSchema` | index.js:45-73 | field decoding follows the schema in order, one value of the matching kind per recognised type; it throws exactly when the list holds "Long", keeping the values pushed before it |
| `Fields.SplitJoin` | index.js:60 | the big-endian reading `(d[i] << 8) \| d[i+1]` of an unsigned short's two bytes gives it back |
| `Fields.UnsignedShortAsWritten` | index.js:91-93 | as written an unsigned short field throws for every value, so it never yields the intended two bytes |
| `Fields.UnsignedShortRoundTrip` | index.js:60-61 | as intended an unsigned short is two bytes, most significant first, that the decoder reads back anywhere in a buffer, advancing the cursor by exactly 2 |
| `Fields.FieldRoundTrip` | index.js:51-62 | a VarInt, String or Unsigned Short field, encoded as intended and placed anywhere, decodes to its value, and the cursor moves past exactly its bytes |
| `Fields.RoundTripAt` | index.js:45-73 | fields encoded in schema order at a cursor decode, under the same schema, to the values written, with no throw and the cursor just past them |
| `Fields.RoundTrip` | index.js:82-96 | the data `createPacket` builds for a list of recognised fields, placed anywhere in a buffer, decodes to the values written |
| `Packet.Window` | index.js:19-20 | the payload is `dataLength + 1` bytes; when the buffer holds that many bytes after the id it is exactly them; otherwise it starts with the rest of the buffer and every byte past the buffer's end is zero, as the zero-filled allocation leaves it |
| `Packet.TruncatedChunkThrows` | index.js:15-20 | the one-byte chunk `00` declares an empty packet whose id ends past the buffer, so `parse` allocates one byte and the copy from index 2 throws, leaving the packet unchanged |
| `Packet.LookupOutcome` | index.js:25-40 | with no descriptor matching id and state, the name stays unset, `error` is set and no field is decoded; otherwise the last match names the packet and gives its handler id, -1 without `HandlerID`; a packet is free of error only with a non-empty name |
| `Packet.Packet.constructor` | index.js:7-12 | a new packet holds its buffer, direction and state, with `error` false and nothing parsed |
| `Packet.Packet.Parse` | index.js:13-24 | the new state is `ParseSpec` of the old one: a negative allocation size throws, and so does a non-empty copy that starts past the end of the buffer; otherwise the window and packet id are stored and the lookup runs |
| `Packet.Packet.ReadPacketData` | index.js:25-44 | the new state is `ReadSpec` of the old one: the last matching descriptor's name and handler id, `error` when the name is unset or empty, else the fields of the named descriptor |
| `Packet.Packet.Adopt` | index.js:28-33 | a matching entry sets the name to its key and the handler id to its `HandlerID`, or -1 without one, and changes nothing else |
| `Packet.Packet.ResolveName` | index.js:26-35 | the `for ... in` loop leaves the name and handler id of the last matching descriptor, and changes nothing else |
| `Packet.Packet.ReadField` | index.js:50-71 | one case of the `switch` yields what `Step` says: a VarInt, a string or a big-endian short with the new cursor, a throw for "Long", nothing for other types |
| `Packet.Packet.GetPacketFields` | index.js:45-73 | the fields pushed and whether the walk threw are those of `DecodeFields` from cursor 0; the other packet fields are unchanged |
| `PacketFactory.CreatePacket` | index.js:77-100 | with lines 92, 182 and 206 as intended (as written every known name throws: at the first VarInt or String field, in `VarInt.encode` called from lines 86 and 89; at the first Unsigned Short field, in `Buffer.concat` at line 92; and otherwise at line 97): an unknown name throws; otherwise the result is a fresh client-bound packet in the given state whose buffer is `VarInt(len) ++ VarInt(ID) ++ fields` in schema order |
| `PacketFactory.WriteField` | index.js:84-94 | one case of the `switch` appends the field's intended encoding |
| `PacketFactory.FrameHeader` | index.js:97-98 | decoding the first VarInt of a frame gives the length of the packet data, and the packet id starts right after it |
| `PacketFactory.ShortPrefix` | index.js:98 | packet data under 2^21 bytes has a length prefix of at most three bytes |
| `PacketFactory.FrameAlloc` | index.js:16-19 | for such a frame the buffer `parse` allocates is at least as long as the body |
| `PacketFactory.FrameWindow` | index.js:16-20 | the payload `parse` cuts from such a frame begins with the body |
| `PacketFactory.LookupFrame` | index.js:26-41 | a frame's id, looked up in its own state, finds the entry it was built from, both by id and by name |
| `PacketFactory.ParseFrame` | index.js:13-44 | end to end: a frame built from a registry entry parses, in that entry's state, to its name, handler id and id, with no error and no throw, and with the very values written |
| `Client.Client.constructor` | index.js:105-111 | a new connection starts in "Handshaking" |
| `Client.Client.OnData` | index.js:118-123 | with the handler table of line 110 as intended (as written every packet for handler 0 throws): the throw and the new state are those of `Receive`: a throwing parse throws, an error or handler id -1 drops the packet, a handler id without a function throws, otherwise the handler runs |
| `Client.Client.HandshakeHandler` | index.js:124-131 | the new state is "SLP" when the fourth field equals 1 and "Login" otherwise |
| `Client.HandshakeChoice` | index.js:125-130 | the handshake decides on `nextState` alone: "SLP" exactly for the value 1, and "Login" when there are fewer than four fields |
| `Client.StateChanges` | index.js:118-131 | a throwing parse, an error or handler id -1 leaves the state unchanged; the state changes only when a clean packet reaches handler 0, and it moves to "SLP" only through the handshake's choice |
| `Client.NeverBackToHandshaking` | index.js:118-131 | no packet takes a connection back to "Handshaking" |
| `Client.ReceiveHandshake` | index.js:121-122 | a clean packet for handler 0 goes to whatever slot 0 of the handler table holds, and throws when that slot is empty |
| `Client.HandshakeFrame` | index.js:124-131 | a handshake frame built as `createPacket` builds frames moves a connection in "Handshaking" to "SLP" when `nextState` is 1 and to "Login" otherwise |
| `Client.HandshakeFrameAsWritten` | index.js:110 | with the handler table as written the same frame throws and the connection stays in "Handshaking" |

## Left out

- The TCP server and the socket plumbing (index.js:140-158, 105-107) are not modelled. Neither are `sendPacket` (index.js:112-114) and `onDisconect`. They are I/O: each `data` event's chunk is a parameter of `OnData`.
- Logging (`console.log`, `console.error`) is left out, because it has no effect on state.
- `packets.json` is not parsed. It is a parameter: an ordered table per direction, in the order `for ... in` visits its keys. That is the order of the JSON object when no packet name looks like an array index; names such as "0" or "12" are visited first, in ascending numeric order, and the table must list them that way. JSON keys are distinct, so the lemmas assume distinct names (`DistinctNames`). `ID` values are assumed to be numbers, and field type strings are mapped by `Registry.TypeOf`.
- VarLong (index.js:189-197) is left out: its methods are empty.
- The "Long" field case (index.js:63-70) is modelled only as throwing. It pushes onto `this.fields`, which is undefined. The loop that fills `temp` before the throw has no effect.
- `SLPRequestHandler` and `PingHandler` are modelled as handlers that do nothing, because they are empty.
- UTF-8 decoding by `buffer.toString('utf-8', …)` is not modelled: string values are their raw bytes. The replacement of malformed sequences is therefore not captured.
- `Packet.Packet.Parse`: a copy that would start past the end of the buffer throws when the window is not empty. With an empty window (a size of 0) it is modelled as copying nothing, as older Node versions do; newer versions throw there too. An allocation larger than Node's maximum buffer size is not modelled.
- `PacketFactory.CreatePacket`: JavaScript's coercion of field values of the wrong type is not modelled. The method requires values that fit the field list (`Writable`).
- `Client.Client.HandshakeHandler`: a String `nextState` is never taken as equal to 1, although JavaScript's `==` would convert a string such as "1" to a number. Only VarInt and Unsigned Short values are compared with 1.
- `PacketFactory.ParseFrame` is stated only for packet data under 2^21 bytes and ids in [0, 2^31).
  - The allocation of lines 16-19 exceeds the body by twice the id's length, minus the prefix's length, plus one.
  - So a frame with a four-byte length prefix and a one-byte id gets a window one byte shorter than its body, and that byte reads as 0.
  - The same bound carries over to `Client.HandshakeFrame`.

## Findings

| source | as written | input that shows it | evidently intended | confidence | as-written member | corrected member |
|---|---|---|---|---|---|---|
| index.js:182 | `buffer.concat(buffer, [temp])`: a `Buffer` has no `concat` method, so the first turn throws. The static form's result would also be dropped. So `VarInt.encode` never returns a buffer, and `ServerString.encode` and `createPacket` fail with it: `createPacket` at its first VarInt or String field (lines 86 and 89), or at line 97 when the field list has neither and no Unsigned Short field. | any value, e.g. 0 | `buffer = Buffer.concat([buffer, Buffer.from([temp])])` | high; not executed | `VarInt.AsWrittenEncodingLoses` | `VarInt.RoundTrip` |
| index.js:206 | The prefix is `VarInt.encode(string.length)`, a count of UTF-16 code units, not bytes. The `Buffer.concat` arguments are not an array, and the result is not returned. | "é": its prefix says 1 while its UTF-8 form has 2 bytes | the UTF-8 byte length as prefix, the bytes after it, and the result returned | high; not executed | `ServerString.CharCountPrefixSplits` | `ServerString.RoundTrip` |
| index.js:92 | `Buffer.concat([data, fields[i] & 0xFFFF])` puts a number in the list, which `Buffer.concat` rejects | any Unsigned Short field, e.g. port 25565 | the two bytes of the value, most significant first, as the decoder at line 60 reads them | high; not executed | `Fields.UnsignedShortAsWritten` | `Fields.UnsignedShortRoundTrip` |
| index.js:110 | Slot 0 of `this.handlers` reads `this.HandshakeHandler`, but the method is spelt `HandshakeHanlder` (line 124), so slot 0 is `undefined` and line 122 throws. A correctly spelt entry would still run with the array as `this`, and would set the array's `state` rather than the client's. | a server-bound packet whose descriptor has `HandlerID` 0, e.g. the handshake | slot 0 calls the client's handshake handler on the client | high; not executed | `Client.HandshakeFrameAsWritten` | `Client.HandshakeFrame` |
