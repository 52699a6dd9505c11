# rustmine, modelled in Dafny

This project models the protocol core of rustmine, a Minecraft server
written in Rust, together with the library pieces that core leans on:

- `ints.dfy`, `wrappers.dfy`, `utf8.dfy`: Rust's integer casts (`as u8`, `as u32`,
  `as i8`, `as i32`), `Option`/`Result` with the three panics the code can hit
  (`unwrap`, `unimplemented!`, `todo!`) and an index panic, and UTF-8
  well-formedness for `String` (RFC 3629).
- `data.dfy` (`rustmine_lib/src/data.rs`): the VarInt, string, big-endian
  short and long, UUID, bool, byte and raw-byte readers and writers.
- `frame.dfy` (`rustmine_server/src/packet/mod.rs`): the frame `write_packet`
  builds, in its three formats (no compression, raw under compression,
  compressed), and `read_packet_from_bytes`.
- `state.dfy`, `handshake.dfy`, `status.dfy`, `login.dfy`, `configuration.dfy`:
  the connection states and their ids, and every serverbound and clientbound
  packet of the Handshake, Status, Login and Configuration states, with the
  known-pack entries of `rustmine_lib/src/common/configuration_state.rs`.
- `packets.dfy`: the `Packet` trait objects as one datatype, the `packet_id!`,
  `id_match!`, `clientbound_packet!` and `serverbound_packet!` macros,
  `downcast_packet`, the per-state decoder tables and the event table of
  `PlayerConnection::read_packet`.
- `connection.dfy`, `exchanges.dfy` (`rustmine_server/src/player.rs` and the
  serverbound handlers): a `PlayerConnection` as an immutable record whose
  socket is a list of incoming frames plus a log of written packets; the
  status, login and configuration exchanges; `handle_handshake`; and the
  task `RustmineServer::run` spawns for each connection, with whole status and
  login sessions traced from the first frame.
- `event_bus.dfy` (`rustmine_server/src/event/mod.rs`): `listen` and
  `dispatch` over type tags and boxed values.
- `chunk.dfy`, `dimension.dfy`, `world.dfy`: block palettes, chunk sections
  and chunks; dimension types and their registry with the three defaults;
  the world list.
- `component.dfy` (`rustmine_lib/src/component.rs`): chat components, styles,
  their builders and the `text!`, `keybind!`, `score!`, `selector!` and
  `styled!` macros.
- `codegen.dfy` (`codegen/src/main.rs`): `pascal_case`, the enum names and
  registry entries generated for blocks (with the default-state choice), and
  the sorted, de-duplicated biome variants.

Operations are pure functions over immutable values. Three loops are
methods: the default-state search, event dispatch and the chunk index
listing. Their contracts tie them to a functional reference. Each
operation is paired with its inverse, an invariant it keeps or a reference
definition, and a lemma relates the two.

Where the code departs from the protocol the client expects, the model
follows the code:

- `read_packet_from_bytes` does not reject a zero length. Its length check
  compares the declared length with the whole input, prefix included.
- The reader takes any size field below the threshold as an uncompressed
  packet; it does not require that field to be 0.
- The Configuration decoder table lists only client information (0x00) and
  the plugin message (0x02). The client's known-pack list (0x07) is
  therefore never decoded, and `handle_configuration` sends neither known
  packs nor finish configuration, nor awaits an acknowledgement.
- `handle_status_request` answers a ping with a pong but itself sends no
  status response. In the server binary an event listener sends it (see
  "Left out").
- A handshake packet asking for Transfer decodes, but `handle_handshake`
  refuses it as an invalid next state.
- `dispatch` keeps the last awaited answer whose type is the requested result
  type. An answer of another type does not overwrite it.

## Model

| member | source | states |
|---|---|---|
| Ints.AsU32 | rustmine_lib/src/data.rs:16 | `as u32` keeps the low 32 bits: the identity below 2^32, otherwise congruent modulo 2^32 |
| Ints.AsU8 | rustmine_lib/src/chunk.rs:25-28 | `as u8` keeps the low 8 bits: the identity below 256, otherwise congruent modulo 256 |
| Ints.AsI8 | rustmine_server/src/packet/serverbound/configuration/client_information.rs:38 | `as i8` reads the low 8 bits as two's complement: the identity on -128..127, otherwise congruent modulo 256 |
| Data.VarintSize | rustmine_lib/src/data.rs:69-79 | a VarInt of a `u32` takes between 1 and 5 bytes |
| Data.VarintSizeIsLeast | rustmine_lib/src/data.rs:69-79 | the size is the least n with v < 128^n, so no shorter encoding would hold v |
| Data.WriteVarint | rustmine_lib/src/data.rs:6-12 | `write_varint` emits exactly `varint_size(v)` bytes |
| Data.WriteVarintTerminated | rustmine_lib/src/data.rs:6-12 | every emitted byte but the last has its 0x80 bit set and the last has it clear |
| Data.GroupSumOfWrite | rustmine_lib/src/data.rs:6-12 | the 7-bit groups emitted, weighted by 128^k, add up to v |
| Data.WriteVarintInjective | rustmine_lib/src/data.rs:6-12 | different values never share an encoding |
| Data.ReadVarint | rustmine_lib/src/data.rs:42-67 | a successful read consumes 1 to 5 bytes inside the buffer; the only errors are "Not enough bytes" and "Varint too big" |
| Data.ReadVarintValue | rustmine_lib/src/data.rs:42-67 | the value read is the weighted sum of the groups consumed, truncated to 32 bits as the `<<` on `u32` does |
| Data.ReadVarintShape | rustmine_lib/src/data.rs:55-57 | the read stops exactly after the first byte whose 0x80 bit is clear |
| Data.ReadVarintErrors | rustmine_lib/src/data.rs:47-63 | "Varint too big" exactly when the next five bytes all have the continuation bit; "Not enough bytes" exactly when the buffer ends before a terminating byte |
| Data.ReadVarintEnd | rustmine_lib/src/data.rs:46-57 | any run of at most five bytes ending at the first clear continuation bit is read through its end |
| Data.ReadShapedRun | rustmine_lib/src/data.rs:42-67 | a well-shaped run of at most five bytes decodes to the sum of its groups, whatever follows it |
| Data.VarintRoundTrip | rustmine_lib/src/data.rs:42-67 | `read_varint` over `write_varint(v) ++ rest` returns v and advances by exactly the encoding's length |
| Data.ReadUshort | rustmine_lib/src/data.rs:30-40 | fails with "Not enough bytes" exactly when fewer than 2 bytes remain; otherwise advances by 2 and the value's big-endian bytes are the 2 bytes read |
| Data.WriteUshort | rustmine_lib/src/data.rs:21-23 | a u16 is written as exactly two bytes; UshortRoundTrip shows they are its big-endian bytes |
| Data.UshortRoundTrip | rustmine_lib/src/data.rs:21-40 | `read_ushort` returns what `write_ushort` wrote and advances by 2 |
| Data.FromBeOfBeBytes | rustmine_lib/src/data.rs:22-35 | `from_be_bytes` inverts `to_be_bytes` for every value that fits |
| Data.BeBytesOfFromBe | rustmine_lib/src/data.rs:22-35 | `to_be_bytes` inverts `from_be_bytes` for every byte string |
| Data.ReadLong | rustmine_lib/src/data.rs:126-136 | fails exactly when fewer than 8 bytes remain; otherwise advances by 8 and the value's big-endian bytes are the 8 bytes read |
| Data.WriteLong | rustmine_lib/src/data.rs:122-124 | a u64 is written as exactly eight bytes; LongRoundTrip shows they are its big-endian bytes |
| Data.LongRoundTrip | rustmine_lib/src/data.rs:122-136 | `read_long` returns what `write_long` wrote and advances by 8 |
| Data.ReadUuid | rustmine_lib/src/data.rs:96-105 | fails exactly when fewer than 16 bytes remain; otherwise the UUID's bytes are the 16 bytes read |
| Data.WriteUuid | rustmine_lib/src/data.rs:25-28 | a UUID is written as exactly its sixteen bytes |
| Data.UuidRoundTrip | rustmine_lib/src/data.rs:96-105 | `read_uuid` returns what `write_uuid` wrote and advances by 16 |
| Data.WriteBool | rustmine_lib/src/data.rs:107-109 | one byte, 0 or 1 |
| Data.ReadBool | rustmine_lib/src/data.rs:111-120 | fails exactly at the end of the buffer; any non-zero byte reads as true |
| Data.BoolRoundTrip | rustmine_lib/src/data.rs:107-120 | `read_bool` returns what `write_bool` wrote and advances by 1 |
| Data.ReadByte | rustmine_lib/src/data.rs:160-168 | fails exactly at the end of the buffer; otherwise returns the byte at the position and advances by 1 |
| Data.WriteByte | rustmine_lib/src/data.rs:170-172 | `write_byte` pushes exactly one byte, whose unsigned value is the byte written |
| Data.ByteRoundTrip | rustmine_lib/src/data.rs:160-172 | `read_byte` returns what `write_byte` wrote |
| Data.ReadBytes | rustmine_lib/src/data.rs:174-186 | fails exactly when fewer than n bytes remain; otherwise returns the n bytes at the position and advances by n |
| Data.BytesThen | rustmine_lib/src/data.rs:174-186 | `read_bytes` of n returns the n bytes in front of the rest and leaves the cursor at the rest |
| Data.ReadString | rustmine_lib/src/data.rs:81-94 | the only errors are those of the length prefix, a short buffer and invalid UTF-8 |
| Data.ReadStringShape | rustmine_lib/src/data.rs:81-94 | a short buffer after the prefix gives "Not enough bytes"; otherwise the read succeeds exactly when the bytes are UTF-8, and then returns exactly the `len` bytes after the prefix |
| Data.WriteString | rustmine_lib/src/data.rs:14-19 | the written bytes open with a VarInt that reads back as the byte length cast `as u32`, and the UTF-8 text follows it |
| Data.StringRoundTrip | rustmine_lib/src/data.rs:81-94 | `read_string` returns what `write_string` wrote and advances past it |
| Data.StringThen | rustmine_lib/src/data.rs:81-94 | a string read off the front of `write_string(s) ++ rest` leaves the cursor at the rest |
| Data.VarintThen | rustmine_lib/src/data.rs:42-67 | a VarInt read off the front of `write_varint(v) ++ rest` leaves the cursor at the rest |
| Data.UshortThen | rustmine_lib/src/data.rs:21-40 | the same for a `u16` |
| Data.LongThen | rustmine_lib/src/data.rs:122-136 | the same for a `u64` |
| Data.UuidThen | rustmine_lib/src/data.rs:96-105 | the same for a UUID |
| Data.BoolThen | rustmine_lib/src/data.rs:107-120 | the same for a bool |
| Data.ByteThen | rustmine_lib/src/data.rs:160-172 | the same for a byte |
| Utf8.AsciiIsValid | rustmine_lib/src/data.rs:90 | ASCII bytes are well-formed UTF-8, so `from_utf8` accepts every literal the server writes |
| Utf8.ConcatValid | rustmine_lib/src/data.rs:90 | well-formed UTF-8 strings stay well-formed when concatenated |
| Utf8.SplitAtAscii | rustmine_server/src/packet/clientbound/configuration/select_known_packs.rs:18 | cutting well-formed UTF-8 at an ASCII byte leaves two well-formed halves, so splitting at ':' yields two `String`s |
| Configuration.ReadClientInfo | rustmine_server/src/packet/serverbound/configuration/client_information.rs:20-46 | a wrong id is refused with the id-mismatch error; otherwise the only errors are the field readers' own, and the reader never panics |
| Configuration.ReadsClientInfo | rustmine_server/src/packet/serverbound/configuration/client_information.rs:26-45 | the eight fields are read in order, each from where the previous ended, and the view distance and the two VarInt enums are cast to `i8` and `i32` |
| Configuration.ClientInfoRoundTrip | rustmine_server/src/packet/serverbound/configuration/client_information.rs:20-46 | a buffer laid out as the eight fields decodes to exactly those field values after the casts |
| Configuration.ViewDistanceWraps | rustmine_server/src/packet/serverbound/configuration/client_information.rs:38 | a view distance of 200 arrives as -56 and one of 266 as 10, because only the low 8 bits survive `as i8` |
| Configuration.ReadPluginMessage | rustmine_server/src/packet/serverbound/configuration/config_plugin_message.rs:14-26 | a wrong id is refused with the id-mismatch error; the other errors are those of the string, VarInt and byte readers |
| Configuration.PluginMessageShape | rustmine_server/src/packet/serverbound/configuration/config_plugin_message.rs:20-25 | a decoded message is the channel string at the start, then a VarInt length, then exactly that many data bytes |
| Configuration.ShortPluginMessageRefused | rustmine_server/src/packet/serverbound/configuration/config_plugin_message.rs:22-23 | a declared data length running past the buffer gives "Not enough bytes" |
| Configuration.WritePluginMessage | rustmine_server/src/packet/clientbound/configuration/config_plugin_message.rs:19-23 | writing panics exactly when the data length does not fit a `u32` (`try_into().unwrap()`) |
| Configuration.ReadsPluginMessage | rustmine_server/src/packet/serverbound/configuration/config_plugin_message.rs:20-25 | a channel, a length equal to the data's and the data decode to that message |
| Configuration.PluginMessageRoundTrip | rustmine_server/src/packet/clientbound/configuration/config_plugin_message.rs:19-23 | what the server writes as a plugin message the serverbound decoder reads back unchanged |
| Configuration.BrandChannelText | rustmine_server/src/packet/clientbound/configuration/config_plugin_message.rs:11 | the brand channel's bytes are the ASCII text "minecraft:brand" |
| Configuration.BrandPacket | rustmine_server/src/packet/clientbound/configuration/config_plugin_message.rs:10-12 | `brand_packet` puts the brand's bytes, unchanged, on the "minecraft:brand" channel |
| Configuration.MinecraftCore | rustmine_lib/src/common/configuration_state.rs:10-12 | the core pack is named "minecraft" ':' "core", splits at its ':' into those two parts, and has version "1.21.6" |
| Configuration.SplitOnce | rustmine_server/src/packet/clientbound/configuration/select_known_packs.rs:18 | `split_once(":")` finds a split exactly when the name has a ':'; the parts rebuild the name around the first ':' and the first part has no ':' |
| Configuration.SplitJoin | rustmine_server/src/packet/serverbound/configuration/client_known_packs.rs:26 | a name formatted as namespace ':' name splits back into those parts when the namespace has no ':' |
| Configuration.JoinSplit | rustmine_server/src/packet/clientbound/configuration/select_known_packs.rs:18 | formatting the two parts of a split name gives the name back |
| Configuration.ReadEntries | rustmine_server/src/packet/serverbound/configuration/client_known_packs.rs:20-29 | the loop yields exactly `count` entries, and any failed string read is an unwrap panic |
| Configuration.ReadKnownPacks | rustmine_server/src/packet/serverbound/configuration/client_known_packs.rs:13-32 | a wrong id is refused; otherwise the only failure is an unwrap panic |
| Configuration.KnownPacksCount | rustmine_server/src/packet/serverbound/configuration/client_known_packs.rs:19-20 | a decoded list has as many entries as the leading VarInt count says |
| Configuration.WriteEntries | rustmine_server/src/packet/clientbound/configuration/select_known_packs.rs:17-23 | writing the entries succeeds exactly when every name has a ':'; otherwise `split_once(":").unwrap()` panics |
| Configuration.WriteSelectKnownPacks | rustmine_server/src/packet/clientbound/configuration/select_known_packs.rs:13-25 | succeeds exactly when the count fits a `u32` and every name has a ':', and then starts with the count as a VarInt |
| Configuration.EntriesRoundTrip | rustmine_server/src/packet/clientbound/configuration/select_known_packs.rs:17-23 | the entries written are read back by the client's entry loop, and the cursor ends after them |
| Configuration.KnownPacksRoundTrip | rustmine_server/src/packet/clientbound/configuration/select_known_packs.rs:13-25 | a select-known-packs list the server writes decodes, as a known-packs list, to the same entries |
| Configuration.ReadFinish | rustmine_server/src/packet/clientbound/mod.rs:13-16 | finishing is accepted exactly with id 0x03, and the payload is ignored |
| Configuration.WriteFinish | rustmine_server/src/packet/clientbound/mod.rs:11 | the finish packet writes no bytes, and those read back |
| ConnState.Id | rustmine_server/src/player.rs:29-38 | every state has a number of at most 5, and 0 is the Handshake state's alone |
| ConnState.FromId | rustmine_server/src/player.rs:29-38 | a number names a state exactly when it is at most 5 |
| ConnState.IdInverse | rustmine_server/src/player.rs:29-38 | the number of a state reads back as that state |
| ConnState.IdInjective | rustmine_server/src/player.rs:29-38 | no two states share a number |
| Handshake.NextState | rustmine_server/src/packet/serverbound/handshake.rs:40-48 | 1, 2 and 3 name Status, Login and Transfer, whose numbers they are; every other number is refused with "Invalid next state id" |
| Handshake.Read | rustmine_server/src/packet/serverbound/handshake.rs:26-50 | a wrong id is refused; a malformed protocol number panics; a read packet always asks for Status, Login or Transfer |
| Handshake.ReadsFields | rustmine_server/src/packet/serverbound/handshake.rs:34-49 | the four fields are read in order, each from where the previous ended, and the packet is refused exactly when the next-state number is not 1, 2 or 3 |
| Handshake.Write | rustmine_server/src/packet/serverbound/handshake.rs:52-57 | the handshake bytes are as long as the protocol VarInt, the prefixed address, two port bytes and the next-state VarInt, and they open with the protocol number |
| Handshake.FieldsRoundTrip | rustmine_server/src/packet/serverbound/handshake.rs:34-57 | the four written fields read back as written |
| Handshake.RoundTrip | rustmine_server/src/packet/serverbound/handshake.rs:26-57 | a handshake asking for Status, Login or Transfer reads back as written |
| Handshake.UnrequestableIsRefused | rustmine_server/src/packet/serverbound/handshake.rs:40-56 | a handshake naming Handshake, Play or Configuration is written, but reading it back fails with "Invalid next state id" |
| Status.ReadRequest | rustmine_server/src/packet/serverbound/status.rs:14-20 | a status request is accepted exactly with id 0x00, whatever its payload |
| Status.RequestIgnoresPayload | rustmine_server/src/packet/serverbound/status.rs:14-20 | any two payloads give the same accepted request |
| Status.ReadPing | rustmine_server/src/packet/serverbound/status.rs:32-40 | a wrong id is refused; with the right id the read succeeds exactly when 8 bytes are there, panics otherwise, and returns the big-endian number they spell |
| Status.PingRoundTrip | rustmine_server/src/packet/serverbound/status.rs:42-44 | a written ping, and the pong the server answers with, read back as the same number whatever follows |
| Status.WritePing | rustmine_server/src/packet/serverbound/status.rs:42-44 | the ping payload is eight bytes that read back as the number sent |
| Status.WritePong | rustmine_server/src/packet/clientbound/status.rs:30-32 | the pong payload is eight bytes that read back as the number sent; it is the same layout as the ping |
| Status.WriteResponse | rustmine_server/src/packet/clientbound/status.rs:18-20 | the response payload is the JSON text behind a length prefix of at least one byte |
| Status.ResponseRoundTrip | rustmine_server/src/packet/clientbound/status.rs:18-20 | a response whose text fits the 32-bit length prefix reads back, as a string, to the same text, using every byte |
| Status.DefaultVersion | rustmine_server/src/packet/clientbound/status.rs:35-42 | the default version is named "Rustmine" with protocol 770 |
| Status.DefaultPlayers | rustmine_server/src/packet/clientbound/status.rs:44-52 | the default player counts are 0 and the sample is empty |
| Login.ReadStart | rustmine_server/src/packet/serverbound/login.rs:21-29 | a wrong id is refused; every other failure is an unwrap panic |
| Login.ReadsStart | rustmine_server/src/packet/serverbound/login.rs:24-28 | a name string then a UUID decode to that profile |
| Login.StartRoundTrip | rustmine_server/src/packet/serverbound/login.rs:21-29 | a buffer laid out as a name then a UUID reads back as that profile |
| Login.MalformedStartPanics | rustmine_server/src/packet/serverbound/login.rs:26 | a name that does not parse panics rather than returning an error |
| Login.ReadAck | rustmine_server/src/packet/serverbound/login.rs:37-43 | the acknowledgement is accepted exactly with id 0x03 |
| Login.WriteAck | rustmine_server/src/packet/serverbound/login.rs:45 | the acknowledgement carries an empty payload |
| Login.WriteSuccess | rustmine_server/src/packet/clientbound/login.rs:18-22 | the login success is the 16 UUID bytes, the length-prefixed name, and a final zero byte, the empty property count |
| Login.SuccessLength | rustmine_server/src/packet/clientbound/login.rs:18-22 | the success payload is 16 UUID bytes, the length-prefixed name and one byte |
| Login.SuccessFields | rustmine_server/src/packet/clientbound/login.rs:18-22 | the success payload reads back as the UUID, the name and an empty property count |
| Frame.Body | rustmine_server/src/packet/mod.rs:121-131 | the uncompressed body is the id VarInt followed by the payload, and its size is the sum of the two |
| Frame.WriteFrame | rustmine_server/src/packet/mod.rs:114-164 | every frame ends with its body: raw when compression is off or the body is below the threshold, compressed at or above it, behind at least one length byte |
| Frame.ReadIdAndData | rustmine_server/src/packet/mod.rs:85-87 | the packet id is the VarInt at the position, the data is every byte after it, and a VarInt error is passed on unchanged |
| Frame.ReadPacketFromBytes | rustmine_server/src/packet/mod.rs:73-112 | a frame that reads carries the declared length of its VarInt prefix, that length is at most the input size, and the only failures are a short buffer, an overlong VarInt, a too-short packet and a failed decompression |
| Frame.PlainShape | rustmine_server/src/packet/mod.rs:135-138 | without compression the frame is the body length, the id and the payload, one after the other |
| Frame.UncompressedShape | rustmine_server/src/packet/mod.rs:151-157 | under compression a packet below the threshold is the body length plus one, a zero size, the id and the payload |
| Frame.CompressedShape | rustmine_server/src/packet/mod.rs:139-150 | a packet at or above the threshold is the compressed length plus the size VarInt's width, the body size, and the compressed body |
| Frame.ReadsPlain | rustmine_server/src/packet/mod.rs:84-88 | with threshold 0 the reader returns the declared length, the id VarInt after the prefix and the rest of the buffer |
| Frame.ReadsUncompressed | rustmine_server/src/packet/mod.rs:104-109 | with a size field below the threshold the reader takes the bytes after it as id and data, uncompressed |
| Frame.ReadsCompressed | rustmine_server/src/packet/mod.rs:92-103 | with a size field at or above the threshold the reader decompresses the rest and reads id and data from the decompressed bytes |
| Frame.PlainRoundTrip | rustmine_server/src/packet/mod.rs:73-88 | a frame written without compression reads back as its body length, its id and its payload |
| Frame.UncompressedRoundTrip | rustmine_server/src/packet/mod.rs:151-157 | a small packet written under compression reads back with its id and payload and a length one more than the body |
| Frame.AnySmallSizeMeansUncompressed | rustmine_server/src/packet/mod.rs:92-109 | any size field below the threshold, not only 0, makes the reader treat the following bytes as an uncompressed id and data |
| Frame.CompressedRoundTrip | rustmine_server/src/packet/mod.rs:139-150 | a compressed packet reads back with its id and payload whenever decompression inverts compression |
| Frame.OuterLengthCountsRest | rustmine_server/src/packet/mod.rs:131-157 | in all three formats the outer length equals the number of bytes that follow the prefix |
| Frame.CompressesIffAtThreshold | rustmine_server/src/packet/mod.rs:139-157 | the writer compresses exactly when the body is at least the threshold: the size field is the body size followed by the compressed body then, and 0 followed by the raw body otherwise |
| Frame.TruncatedFrameAccepted | rustmine_server/src/packet/mod.rs:79-82 | the two-byte input 0x02 0x00, whose declared two-byte body holds one byte, is accepted as packet 0 with empty data |
| Frame.ReadPacketChecked | rustmine_server/src/packet/mod.rs:79-82 | the length check as its message describes it: fewer bytes after the prefix than declared is "packet too short", otherwise the frame reads as before |
| Frame.TruncatedFrameRejected | rustmine_server/src/packet/mod.rs:79-82 | the checked reader refuses the truncated two-byte frame |
| Frame.CheckedReadsWrittenFrames | rustmine_server/src/packet/mod.rs:114-157 | every frame the writer produces passes the checked reader unchanged |
| Packets.KindOf | rustmine_server/src/packet/mod.rs:166-181 | the concrete Rust type behind an `Arc<dyn Packet>`; it carries no contract, and Downcast and DowncastAfterRead state what it decides |
| Packets.KindId | rustmine_server/src/packet/mod.rs:245-259 | the id each packet type declares with `packet_id!`; it carries no contract, and PacketId and TableComplete state its use |
| Packets.PacketId | rustmine_server/src/packet/mod.rs:245-259 | an instance reports the id its type declares, and no id exceeds 0x0E |
| Packets.ReadFrom | rustmine_server/src/packet/mod.rs:262-288 | a decoded packet has the requested type and its id; a clientbound type panics as unimplemented; a mismatched id is refused before anything is read |
| Packets.ReadSmall | rustmine_server/src/packet/serverbound/status.rs:14-39 | the handshake, request, ping, login start, acknowledgement and finish readers produce a packet of the type asked for |
| Packets.ReadInfoPacket | rustmine_server/src/packet/serverbound/configuration/client_information.rs:20-46 | the client-information reader produces a client-information packet |
| Packets.ReadPluginPacket | rustmine_server/src/packet/serverbound/configuration/config_plugin_message.rs:14-26 | the plugin-message reader produces a serverbound plugin message |
| Packets.ReadKnownPacksPacket | rustmine_server/src/packet/serverbound/configuration/client_known_packs.rs:13-32 | the known-packs reader produces the client's known-pack list |
| Packets.WriteTo | rustmine_server/src/packet/mod.rs:290-302 | a serverbound type panics as unimplemented when written, and every other failure is a panic too |
| Packets.Downcast | rustmine_server/src/packet/mod.rs:183-196 | the downcast succeeds exactly when the concrete type matches, returns the same packet, and otherwise fails with the downcast error |
| Packets.DowncastAfterRead | rustmine_server/src/packet/mod.rs:183-203 | what a type's reader returns downcasts to that type and to no other |
| Packets.Wire | rustmine_server/src/packet/serverbound/configuration/client_information.rs:20-46 | the signed fields a client sends as 32-bit patterns are read back as the same i8 and i32 values |
| Packets.SignedPattern | rustmine_server/src/packet/serverbound/configuration/client_information.rs:38 | an i32 survives the trip through its u32 bit pattern, and an i8-range value survives the truncation to i8 |
| Packets.Layout | rustmine_server/src/packet/mod.rs:173-181 | the bytes a client sends for a serverbound packet; it carries no contract, and LayoutOnlyServerbound and LayoutRoundTrip state what it means |
| Packets.LayoutOnlyServerbound | rustmine_server/src/packet/mod.rs:274-288 | only a type whose `read_from` is not `clientbound_packet!`'s `unimplemented!()` has a client layout |
| Packets.LayoutRoundTrip | rustmine_server/src/packet/mod.rs:175-180 | every serverbound packet decodes from the bytes a client sends for it, under its own id |
| Packets.EarlyLayoutRoundTrip | rustmine_server/src/packet/serverbound/handshake.rs:26-50 | the handshake, ping, login start and the field-less packets decode from their layouts |
| Packets.LateLayoutRoundTrip | rustmine_server/src/packet/serverbound/configuration/client_information.rs:20-46 | client information, the serverbound plugin message and the known-pack list decode from their layouts |
| Packets.HandshakeLayout | rustmine_server/src/packet/serverbound/handshake.rs:26-57 | a handshake asking for Status or Login, written by its writer, is decoded to the same handshake |
| Packets.PingLayout | rustmine_server/src/packet/serverbound/status.rs:32-44 | a ping payload decodes to the same ping value |
| Packets.StartLayout | rustmine_server/src/packet/serverbound/login.rs:21-31 | a login start layout decodes to the same profile |
| Packets.InfoLayout | rustmine_server/src/packet/serverbound/configuration/client_information.rs:20-46 | a client-information layout decodes to the same settings |
| Packets.PluginLayout | rustmine_server/src/packet/serverbound/configuration/config_plugin_message.rs:14-26 | a plugin message of channel, length and data decodes to the same message |
| Packets.KnownPacksLayout | rustmine_server/src/packet/serverbound/configuration/client_known_packs.rs:13-32 | a known-pack list written in the selection format decodes to the same list |
| Packets.ReadsKnownPacks | rustmine_server/src/packet/serverbound/configuration/client_known_packs.rs:13-32 | the packet reader returns exactly the entries the list reader returns |
| Packets.ReadsHandshake | rustmine_server/src/packet/serverbound/handshake.rs:26-50 | the packet reader returns exactly the handshake the field reader returns |
| Packets.WriterMatchesLayout | rustmine_server/src/packet/serverbound/handshake.rs:52-58 | where the server has a writer for a serverbound packet it produces the layout the reader expects |
| Packets.Mirror | rustmine_server/src/packet/clientbound/status.rs:26-33 | each clientbound packet with a mirror is not decodable and its mirror is |
| Packets.MirrorRoundTrip | rustmine_server/src/packet/clientbound/configuration/select_known_packs.rs:13-25 | a pong, a clientbound plugin message and a pack selection are written exactly as their serverbound mirrors are laid out, and decode as those mirrors |
| Packets.Table | rustmine_server/src/player.rs:108-121 | within each state's decoder table no two types share an id, every listed type has a reader, and Play and Transfer list none |
| Packets.KindFor | rustmine_server/src/packet/serverbound/configuration/mod.rs:45-59 | the arm an id selects belongs to the state's table and declares that id |
| Packets.TableComplete | rustmine_server/src/packet/serverbound/login.rs:48-57 | every type in a state's table is reached by its own id |
| Packets.TablesDecodable | rustmine_server/src/packet/serverbound/status.rs:47-56 | every type in a table has a reader, and exactly login start, client information and the serverbound plugin message have no writer |
| Packets.Decode | rustmine_server/src/player.rs:108-121 | Play and Transfer reach todo!, an id outside the state's table is refused, and a decoded packet belongs to the table and carries the frame's id |
| Packets.DecodeRoundTrip | rustmine_server/src/player.rs:108-130 | a packet of a state's table sent with its layout decodes in that state, so the id recheck passes |
| Packets.KnownPacksNotDecoded | rustmine_server/src/packet/serverbound/configuration/mod.rs:45-59 | the client's known-pack list (id 0x07) is refused in the Configuration state whatever its payload |
| Packets.EventTable | rustmine_server/src/player.rs:137-147 | every type the event table lists for a state is also in that state's decoder table, none twice, and Configuration lists none |
| Packets.EventsFor | rustmine_server/src/packet/mod.rs:219-236 | every event raised carries the decoded packet itself |
| Packets.EventsForCount | rustmine_server/src/packet/mod.rs:219-236 | over a table without repeated types a packet raises one event when its type is listed and none otherwise |
| Packets.Dispatch | rustmine_server/src/player.rs:137-147 | a decoded packet raises at most one event, and that event carries the packet itself |
| Packets.DispatchOnce | rustmine_server/src/player.rs:137-147 | a packet raises exactly one event when its state's table lists its type, and none otherwise, so Configuration packets raise none |
| Connection.DefaultInfo | rustmine_server/src/player.rs:54-68 | the default client information has empty brand and locale, zero numbers and every flag false |
| Connection.New | rustmine_server/src/player.rs:89-98 | a new connection starts in Handshake with compression off, no profile, the default information, and nothing sent or raised |
| Connection.ReadPacket | rustmine_server/src/player.rs:100-156 | a read consumes one frame (or reports the closed stream); a packet it returns is the state table's decoding of that frame; events are raised only for a packet that decodes; state, threshold, profile, information and sent log stay, for listeners that do not write through the shared connection (see Left out) |
| Connection.ReadPacketFailsOnlyInDecode | rustmine_server/src/player.rs:124-130 | the recheck of the decoded id never fires: the read fails exactly when the frame is a read error or the decoder refuses it |
| Connection.WritePacket | rustmine_server/src/player.rs:193-201 | a write succeeds exactly when the packet has a writer and then appends it to the sent log; otherwise it panics and changes nothing |
| Connection.WireBytes | rustmine_server/src/packet/mod.rs:114-157 | a packet has bytes on the wire exactly when its writer succeeds |
| Connection.Recorded | rustmine_server/src/player.rs:218-227 | the recorded information holds the brand and every field of the client's packet, with the main hand truncated to u8 |
| Connection.UpdateClientInfo | rustmine_server/src/player.rs:203-230 | a message on another channel than minecraft:brand is refused, then non-UTF-8 data is refused, and the update succeeds exactly when neither applies, replacing only the client information |
| Connection.BrandPacketAccepted | rustmine_server/src/packet/clientbound/configuration/config_plugin_message.rs:10-12 | the server's own brand message, sent back, passes the checks and sets the brand |
| Connection.UpdateIdempotent | rustmine_server/src/player.rs:203-230 | updating twice with the same two packets leaves the connection as updating once |
| Connection.SetGameProfile | rustmine_server/src/player.rs:232-235 | the profile is recorded and every other part of the connection stays |
| Exchanges.Fatal | rustmine_server/src/lib.rs:58-63 | unwrap keeps a success, keeps an earlier panic, and turns any other error into the unwrap panic |
| Exchanges.HandleStatus | rustmine_server/src/packet/serverbound/status.rs:58-86 | the status exchange keeps state, threshold, profile and information, and sends at most one packet, a pong, only when it succeeds |
| Exchanges.AnswerPing | rustmine_server/src/packet/serverbound/status.rs:69-85 | a pong is sent only when the second packet is a ping, and it carries the ping's payload |
| Exchanges.StatusNeedsRequest | rustmine_server/src/packet/serverbound/status.rs:61-67 | a first packet that is not a request ends the exchange with an error and nothing sent |
| Exchanges.StatusReadsRequest | rustmine_server/src/packet/serverbound/status.rs:61-69 | after a request the exchange continues with the ping step on the rest of the stream |
| Exchanges.StatusReadsPing | rustmine_server/src/packet/serverbound/status.rs:69-85 | a ping with payload v is answered with one pong carrying v |
| Exchanges.HandleLogin | rustmine_server/src/packet/serverbound/login.rs:59-94 | login keeps state, threshold and information; it sends at most one login success, for the profile it records, and a successful login has sent it |
| Exchanges.AwaitAck | rustmine_server/src/packet/serverbound/login.rs:85-93 | the end of login succeeds exactly when the next packet read has the acknowledgement id |
| Exchanges.LoginNeedsStart | rustmine_server/src/packet/serverbound/login.rs:62-71 | a first packet other than a login start panics in unwrap before anything is sent or recorded |
| Exchanges.LoginReadsStart | rustmine_server/src/packet/serverbound/login.rs:62-85 | after a login start for a profile, a login success for that profile is sent, the profile is recorded, and the acknowledgement is awaited |
| Exchanges.HandleConfiguration | rustmine_server/src/packet/serverbound/configuration/mod.rs:13-43 | configuration sends nothing, keeps state, threshold and profile, and changes the client information only when it succeeds |
| Exchanges.ConfigureWith | rustmine_server/src/packet/serverbound/configuration/mod.rs:27-42 | the client information changes only on success, and then the brand is the plugin message's data |
| Exchanges.ConfigurationNeedsPluginMessage | rustmine_server/src/packet/serverbound/configuration/mod.rs:16-25 | a first packet other than the plugin message panics in unwrap |
| Exchanges.ConfigurationReadsPlugin | rustmine_server/src/packet/serverbound/configuration/mod.rs:16-27 | after the plugin message the exchange continues with the client-information step |
| Exchanges.ConfigurationReadsInfo | rustmine_server/src/packet/serverbound/configuration/mod.rs:27-38 | the client information and the plugin message are handed to update_client_info |
| Exchanges.HandleHandshake | rustmine_server/src/player.rs:162-191 | a next state other than Status or Login is refused unchanged; Status runs in the Status state; Login ends in Login, Configuration or Play and fails only by panic; reaching Play means a profile was recorded and one login success sent |
| Exchanges.Accept | rustmine_server/src/lib.rs:56-66 | a connection task fails only by panic, never turns compression on, and panics in unwrap on a stream that ends at once |
| Exchanges.Sends | rustmine_server/src/packet/mod.rs:73-88 | the raw packet a client's frame yields carries the packet's id and its layout as data |
| Exchanges.SendsIsFramed | rustmine_server/src/packet/mod.rs:114-138 | the frame written for a packet with compression off reads back as that raw packet |
| Exchanges.ReadsSent | rustmine_server/src/player.rs:100-156 | reading a packet the client sent, in a state whose table lists it, returns the packet, consumes one frame and raises the events its state lists |
| Exchanges.StatusExchange | rustmine_server/src/packet/serverbound/status.rs:58-86 | a request followed by a ping with payload v yields one pong carrying v and the request's event |
| Exchanges.LoginStarts | rustmine_server/src/packet/serverbound/login.rs:62-83 | a login start sends one login success for the profile, records it and raises the start's event |
| Exchanges.AckEndsLogin | rustmine_server/src/packet/serverbound/login.rs:85-93 | the acknowledgement ends the login successfully and raises its event |
| Exchanges.LoginExchange | rustmine_server/src/packet/serverbound/login.rs:59-94 | a login start and its acknowledgement: one login success sent, the profile recorded, both events raised |
| Exchanges.PluginMessageOpens | rustmine_server/src/packet/serverbound/configuration/mod.rs:16-25 | a plugin message opens the configuration and raises no event |
| Exchanges.InfoCompletes | rustmine_server/src/packet/serverbound/configuration/mod.rs:27-38 | the client information completes it through update_client_info |
| Exchanges.ConfigurationExchange | rustmine_server/src/packet/serverbound/configuration/mod.rs:13-43 | a plugin message and the client information are handed to update_client_info and raise no event |
| Exchanges.AcceptReadsHandshake | rustmine_server/src/lib.rs:57-63 | the spawned task reads the handshake from a fresh connection, raises its event, and runs it with unwrap |
| Exchanges.LoginReachesPlay | rustmine_server/src/player.rs:171-181 | a login handshake whose login and configuration both succeed ends in Play |
| Exchanges.HandshakeToStatus | rustmine_server/src/player.rs:167-170 | a status handshake runs the status exchange in the Status state |
| Exchanges.StatusSession | rustmine_server/src/lib.rs:56-66 | a client that asks for the status and pings with v ends in Status with exactly one pong carrying v sent and the handshake and request events raised, for listeners that do not write through the shared connection (see Left out) |
| Exchanges.LoginHandshake | rustmine_server/src/player.rs:171-181 | a login handshake followed by start, acknowledgement, brand message and client information reaches Play with profile and information recorded and one login success sent |
| Exchanges.LoginAfterHandshake | rustmine_server/src/lib.rs:57-63 | the same login session, from the connection that has just read the handshake |
| Exchanges.LoginSession | rustmine_server/src/lib.rs:56-66 | a whole login session from a fresh connection reaches Play with one login success sent, the profile, brand and information recorded, and three events raised, for listeners that do not write through the shared connection (see Left out) |
| Exchanges.TransferPanics | rustmine_server/src/player.rs:182-187 | a handshake asking for Transfer is refused and the spawned task panics in unwrap |
| EventBus.Empty | rustmine_server/src/event/mod.rs:32-36 | the default bus has no listener list for any event type |
| EventBus.Listen | rustmine_server/src/event/mod.rs:39-69 | a new listener goes at the end of its event type's list, which is created when missing, and every other type's list is unchanged |
| EventBus.Handler | rustmine_server/src/event/mod.rs:52-67 | an event of another type answers nothing; otherwise the listener answers exactly when its callback does, boxed with the listener's result type |
| EventBus.Awaited | rustmine_server/src/event/mod.rs:78-86 | the tasks that are awaited are among the listeners and none of them was registered lazy |
| EventBus.Outcomes | rustmine_server/src/event/mod.rs:88-94 | each awaited task yields one answer |
| EventBus.LastOfType | rustmine_server/src/event/mod.rs:87-94 | no result exactly when no answer has the wanted type; a result is the value of some answer of that type |
| EventBus.Dispatched | rustmine_server/src/event/mod.rs:71-97 | dispatch has no result exactly when no awaited listener of the event's type answers with the wanted type; a result is the answer of one such listener |
| EventBus.LastOfTypeSpec | rustmine_server/src/event/mod.rs:88-96 | the kept result is the value of the last answer of the wanted type, no later answer has that type, and there is none exactly when no answer has it |
| EventBus.Dispatch | rustmine_server/src/event/mod.rs:71-97 | dispatch returns the last answer of the wanted type among the awaited listeners of the event's type, and nothing when nobody listens to that type |
| EventBus.DispatchAfterListen | rustmine_server/src/event/mod.rs:46-50 | registering a listener for the event's type adds its answer after all earlier ones, unless it is lazy |
| EventBus.LazyNeverAnswers | rustmine_server/src/event/mod.rs:81-82 | registering a lazy listener never changes what dispatch returns |
| EventBus.OtherTypesNeverAnswer | rustmine_server/src/event/mod.rs:78 | a listener of another event type never changes what dispatch returns |
| EventBus.LastAnswerWins | rustmine_server/src/event/mod.rs:88-96 | a new awaited listener answering with the wanted type decides the result; answering nothing or another type leaves the earlier result |
| EventBus.NoListenersNoResult | rustmine_server/src/event/mod.rs:71-97 | with no listeners for the event's type dispatch returns nothing |
| Chunk.Geometry | rustmine_lib/src/chunk/mod.rs:2-12 | a section holds 4096 cells, sixteen sections stack to the chunk height of 256, and the bits-per-block bounds are ordered below the global width |
| Chunk.NewPalette | rustmine_lib/src/chunk.rs:18-20 | a new palette holds only air |
| Chunk.Position | rustmine_lib/src/chunk.rs:24 | the position is the first index holding the block, and there is none exactly when the block is absent |
| Chunk.Get | rustmine_lib/src/chunk.rs:32-34 | an index inside the palette answers its block, one past the end answers air |
| Chunk.GetOrInsert | rustmine_lib/src/chunk.rs:23-30 | a known block leaves the palette as it was; a new one is appended at the end |
| Chunk.GetOrInsertRoundTrip | rustmine_lib/src/chunk.rs:23-34 | the index handed out reads back as the block while the palette fits one-byte indices, and the palette stays free of duplicates |
| Chunk.PaletteIndexWraps | rustmine_lib/src/chunk.rs:28 | with 256 blocks already in the palette a new block gets index 0 and reads back as air |
| Chunk.Cell | rustmine_lib/src/chunk.rs:44 | each in-range coordinate has a cell inside the 4096-entry array |
| Chunk.CellInjective | rustmine_lib/src/chunk.rs:44 | different coordinates name different cells |
| Chunk.NewSection | rustmine_lib/src/chunk.rs:48-53 | a new section has the new palette and is well formed |
| Chunk.SetBlock | rustmine_lib/src/chunk.rs:55-62 | a coordinate outside the section changes nothing |
| Chunk.GetBlock | rustmine_lib/src/chunk.rs:64-73 | a coordinate outside the section answers air |
| Chunk.NewSectionIsAir | rustmine_lib/src/chunk.rs:48-73 | a new section answers air everywhere |
| Chunk.SetBlockKeepsWf | rustmine_lib/src/chunk.rs:55-62 | setting a block keeps every index inside a duplicate-free palette while the palette fits one-byte indices |
| Chunk.SetThenGet | rustmine_lib/src/chunk.rs:55-73 | after setting a block, that cell answers it and every other cell answers what it did before |
| Chunk.EncodeIndices | rustmine_lib/src/chunk.rs:78-85 | the encoded index list has 4096 entries, y outermost, then z, then x, each the index stored at that coordinate |
| Chunk.NewChunk | rustmine_lib/src/chunk.rs:115-121 | a new chunk keeps its coordinates and holds sixteen new sections |
| Chunk.Coordinates | rustmine_lib/src/chunk.rs:123-125 | the coordinates are the chunk's x and z |
| Chunk.ChunkSetBlock | rustmine_lib/src/chunk.rs:127-133 | an out-of-range coordinate changes nothing, the coordinates stay, and only the section holding height y can change |
| Chunk.ChunkGetBlock | rustmine_lib/src/chunk.rs:135-143 | an out-of-range coordinate answers air |
| Chunk.NewChunkIsAir | rustmine_lib/src/chunk.rs:115-143 | a new chunk answers air everywhere |
| Chunk.SameSectionOtherHeight | rustmine_lib/src/chunk.rs:129-130 | two heights in the same section are different local heights |
| Chunk.ChunkSetThenGet | rustmine_lib/src/chunk.rs:127-143 | after setting a block in range, that place answers it and every other place answers what it did before |
| Dimension.Validate | rustmine_lib/src/dimension.rs:30-41 | validation succeeds exactly when min_y and height are multiples of 16 and the logical height lies in 0..height, and reports the first failing check |
| Dimension.Register | rustmine_lib/src/dimension.rs:53-63 | an invalid type is refused with the validation error, a taken key is refused, and registration succeeds exactly when neither applies |
| Dimension.Get | rustmine_lib/src/dimension.rs:65-67 | a key answers exactly when it is registered, with its type |
| Dimension.RegisterThenGet | rustmine_lib/src/dimension.rs:53-67 | after a registration the key answers the new type and every other key what it did; a taken key is never overwritten |
| Dimension.Overworld | rustmine_lib/src/dimension.rs:94-113 | the overworld spans min_y -64 and a height and logical height of 384 |
| Dimension.Nether | rustmine_lib/src/dimension.rs:115-134 | the nether spans min_y 0 and a height and logical height of 128 |
| Dimension.End | rustmine_lib/src/dimension.rs:136-155 | the end spans min_y 0 and a height and logical height of 256, with the time fixed at 6000 |
| Dimension.RegisterDefaults | rustmine_lib/src/dimension.rs:90-157 | the macro finishes exactly when none of the three keys is taken, adding the overworld, the nether and the end under their keys; otherwise the first refused registration panics in unwrap, the registrations before it stay in the manager, and no key held before is removed or overwritten |
| Dimension.DefaultsValid | rustmine_lib/src/dimension.rs:94-155 | the three default types pass validation and their keys are distinct |
| Dimension.DefaultsOnEmpty | rustmine_lib/src/dimension.rs:90-157 | on an empty manager the defaults register and each key answers its type |
| Dimension.DefaultsPanicAfterOverworld | rustmine_lib/src/dimension.rs:53-157 | on a manager holding only a nether, the overworld is inserted, the nether's registration is refused and the macro panics in unwrap, leaving the overworld in the manager and no end |
| Component.NewStyle | rustmine_lib/src/component.rs:44-47 | a new style sets no field |
| Component.Bold | rustmine_lib/src/component.rs:49-52 | the bold builder sets bold and leaves every other field |
| Component.Color | rustmine_lib/src/component.rs:54-57 | the colour builder sets the colour and leaves every other field |
| Component.Append | rustmine_lib/src/component.rs:13-23 | a child goes at the end of the children, and kind, content and style stay |
| Component.WithStyle | rustmine_lib/src/component.rs:135-138 | the whole style is replaced, and kind, content and children stay |
| Component.TextOf | rustmine_lib/src/component.rs:178-189 | the text macro builds a text component with the default style and no children |
| Component.KeybindOf | rustmine_lib/src/component.rs:152-163 | the keybind macro builds a keybind component with the default style and no children |
| Component.ScoreOf | rustmine_lib/src/component.rs:191-205 | the score macro builds a score component for the name and objective with the default style and no children |
| Component.SelectorOf | rustmine_lib/src/component.rs:207-219 | the selector macro builds a selector component with no separator, the default style and no children |
| Component.AppendInOrder | rustmine_lib/src/component.rs:13-23 | children appended one at a time are listed in that order |
| Component.Value | rustmine_lib/src/component.rs:26-42 | a field's value is a setting of that field |
| Component.LastFor | rustmine_lib/src/component.rs:222-244 | the last listed setting of a field is one of the listed settings and writes that field |
| Component.StyleExtensional | rustmine_lib/src/component.rs:26-42 | two styles agreeing on all seven fields are equal |
| Component.ApplyAllSnoc | rustmine_lib/src/component.rs:223-227 | the settings of styled! take effect in the order listed |
| Component.ApplyOneField | rustmine_lib/src/component.rs:227 | one setting writes its own field and leaves the others |
| Component.Styled | rustmine_lib/src/component.rs:222-244 | styled! changes only the style: kind, content and children stay |
| Component.StyledFields | rustmine_lib/src/component.rs:222-244 | after styled! each field holds the last value listed for it, or its earlier value when none is listed |
| Component.StyledDependsOnLastPerField | rustmine_lib/src/component.rs:222-244 | two setting lists with the same last value per field give the same style, whatever their order across fields |
| Component.StyledMatchesBuilders | rustmine_lib/src/component.rs:49-57 | styled! with only bold, or only a colour, agrees with the bold and colour builders |
| Codegen.ToUpperFacts | codegen/src/main.rs:16 | upper-casing a character twice is upper-casing it once, and it never makes or removes an underscore |
| Codegen.Split | codegen/src/main.rs:11 | splitting at underscores yields at least one piece, even for the empty string |
| Codegen.SplitJoin | codegen/src/main.rs:11 | joining the pieces with underscores gives the input back, and no piece holds an underscore |
| Codegen.PascalCase | codegen/src/main.rs:10-20 | pascal_case equals the one-pass scanner started at a word start; its output has no underscore and is shorter than the input by exactly the number of underscores |
| Codegen.ScanSplits | codegen/src/main.rs:10-20 | the one-pass scanner is splitting, capitalizing every piece (the first only at a word start) and concatenating |
| Codegen.ScanShape | codegen/src/main.rs:10-20 | the scanner drops exactly the underscores and keeps one character for every other one |
| Codegen.ScanOneWord | codegen/src/main.rs:12-17 | on a word without underscores only the first character changes, and only at a word start |
| Codegen.ScanHeadIsUpper | codegen/src/main.rs:16 | the first character of a converted name is already upper case |
| Codegen.PascalCaseIdempotent | codegen/src/main.rs:10-20 | converting a converted name changes nothing |
| Codegen.ScanAcrossUnderscore | codegen/src/main.rs:11-19 | an underscore restarts a word: the parts on either side are scanned separately |
| Codegen.PascalCasePieces | codegen/src/main.rs:10-20 | the parts on either side of an underscore are converted on their own and concatenated, and a single word is just capitalized |
| Codegen.EnumName | codegen/src/main.rs:45 | a name yields an enum variant exactly when it starts with minecraft:, the variant holds no underscore, and any other name panics in unwrap |
| Codegen.EnumNameOfIdentifier | codegen/src/main.rs:45 | a namespaced identifier gets the pascal_case of its path |
| Codegen.LastFlagged | codegen/src/main.rs:68-70 | the position found lies within the states |
| Codegen.LastFlaggedSpec | codegen/src/main.rs:53-71 | the position found holds a state flagged default with none flagged after it, and there is none exactly when no state is flagged |
| Codegen.ChosenDefault | codegen/src/main.rs:49-73 | a default is chosen exactly when the block has states and every state is readable; unreadable states and an empty list are the two panics |
| Codegen.DefaultState | codegen/src/main.rs:53-73 | the generator's loop over the states computes the chosen default, with the panic of the first unreadable state |
| Codegen.DefaultIsLastFlagged | codegen/src/main.rs:68-73 | the default is the id of a flagged state with no flagged state after it, or the first state's id when none is flagged |
| Codegen.BlockEntry | codegen/src/main.rs:44-80 | a block yields an entry exactly when its name converts, its default can be chosen and the block registry lists its protocol id, and the entry carries those values |
| Codegen.BelowIsStrictTotal | codegen/src/main.rs:173 | the string order used for sorting is irreflexive, asymmetric, total on distinct strings and transitive |
| Codegen.InsertSpec | codegen/src/main.rs:128 | inserting a name into a strictly sorted list keeps it strictly sorted and adds exactly that name |
| Codegen.SortedSetSpec | codegen/src/main.rs:116-173 | the sorted set of the names is strictly sorted and holds exactly the names given |
| Codegen.SortedUnique | codegen/src/main.rs:173 | two strictly sorted lists with the same elements are the same list |
| Codegen.SortedSetIgnoresOrder | codegen/src/main.rs:116-173 | the sorted set depends only on which names occur, not on their order or repetitions |
| Codegen.EnumNames | codegen/src/main.rs:174 | the names convert exactly when all are namespaced, and each variant is the conversion of the name at its place |
| Codegen.BiomeVariants | codegen/src/main.rs:116-176 | the biome variants exist exactly when every biome name is namespaced; otherwise generation panics in unwrap |
| Codegen.BiomeVariantsSorted | codegen/src/main.rs:116-176 | the variants are the converted distinct biome names, in strictly increasing name order |
| Worlds.Default | rustmine_server/src/world/mod.rs:8-11 | a new manager holds no world |
| Worlds.CreateWorld | rustmine_server/src/world/mod.rs:14-26 | the new world, with the given dimension type and generator, is pushed at the end and returned, and the worlds already there stay in place |
| Worlds.CreateAll | rustmine_server/src/world/mod.rs:14-26 | a run of create_world calls adds one world per request and leaves the earlier worlds in place |
| Worlds.CreatedInOrder | rustmine_server/src/world/mod.rs:14-26 | worlds created one after another are listed in the order asked for, each with its own arguments, after the worlds already there |

## Left out

- Socket I/O is left out. The streaming `read_packet`, the socket writes and
  flushes, and `TcpListener` are replaced by a list of incoming frames and a
  log of written packets. The streaming reader reads only one byte for the
  length prefix (`rustmine_server/src/packet/mod.rs:18-27`) and is not
  modelled.
- zlib (flate2) is a parameter: a pair of functions. The compressed round
  trips assume decompression inverts compression, and nothing is proved
  about DEFLATE itself.
- serde JSON and NBT output are left out: the status response text, the
  component JSON, and the NBT bytes of `encode_nbt`. Only the block-index
  order of `ChunkSection::encode_nbt` is modelled.
- Floating-point values (`ambient_light`, `coordinate_scale`,
  `shadow_color`) are carried as raw bit patterns and never computed with.
- Terrain generation is left out: the sine-wave generator and the biome
  parameter formatting of the code generator use floating point.
- Locks, `Arc`, tokio tasks, `TypeId` and `Any` are left out. Each
  operation is one atomic step. Type identity is a tag, and a boxed value is
  a tag with a value.
- Lazy event listeners are spawned and never awaited. Their side effects are
  left out; only their absence from the result is modelled.
- The code generator's file and JSON I/O is left out. JSON values appear
  only as the shapes the generator inspects (a state's id, its default flag,
  whether its properties are strings).
- Upper-casing handles ASCII letters only. Rust's `to_uppercase` on other
  characters, which can yield several characters, is not modelled.
- The `dimension_type!` and `translation!` macros refer to names that do not
  exist, so they cannot expand. They are left out.
- `rustmine_server/src/config.rs`, `rustmine_server/src/event/player_events.rs`
  and `rustmine_server/src/event/server_events.rs` hold only data and marker
  implementations and are not part of this model.
- Compression is never turned on by a session, so the exchanges run with
  threshold 0.
- Events raised by `dispatch_packet_event!` are recorded in the connection,
  but the listeners they reach are not run against it. In the source the
  event carries `Mutex::new(self.clone())` (`rustmine_server/src/player.rs:137-147`),
  a clone that shares the connection's stream and state
  (`rustmine_server/src/player.rs:89-98`). An awaited listener can therefore
  write packets or change the state while `read_packet` waits for it. The
  server binary's StatusRequest listener does this: it writes the
  StatusResponsePacket (`rustmine_server/src/main.rs:24-53`). Packets written
  and state changes made by listeners through that shared connection do not
  appear in the model's `sent` log or `state`. The event bus model's
  callbacks are pure functions for the same reason.
- Connection.ReadPacket: its guarantee that the session is unchanged apart
  from the consumed frame and the recorded events holds only for listeners
  that do not write through the shared connection.
- Exchanges.StatusSession: "exactly one pong is sent" holds only for
  listeners without such effects; with the server binary's listener the
  StatusResponsePacket is sent as well.
- Exchanges.LoginSession: the sent log and the final state hold only for
  listeners without such effects.
- Data.StringRoundTrip: the string must be shorter than 2^32 bytes.
  `write_string` casts the length `as u32`, so a longer string gets a wrapped
  prefix and does not read back. The same bound appears on every round trip
  that writes a string, a data block or a frame: Frame.PlainRoundTrip,
  Frame.CompressedRoundTrip, Packets.LayoutRoundTrip, the Exchanges session
  lemmas.
- Chunk.GetOrInsertRoundTrip: the palette must hold at most 256 entries.
  Beyond that the `as u8` index wraps and reads back the wrong block, as
  Chunk.PaletteIndexWraps shows.
- Codegen.PascalCaseIdempotent: holds for the ASCII upper-casing modelled,
  not for Rust's full Unicode case mapping.

## Findings

| source | as written | input that shows it | evidently intended | confidence | as-written member | corrected member |
|---|---|---|---|---|---|---|
| rustmine_server/src/packet/mod.rs:79-82 | the "Packet too short" check compares the declared length with the whole input, length prefix included | the two bytes 0x02 0x00 declare a two-byte body but hold one; they are accepted as packet 0 with empty data | the bytes after the length prefix must hold the declared body | not executed | Frame.TruncatedFrameAccepted | Frame.ReadPacketChecked |
