# E1.31 (sACN) receiver — a Dafny model

A model of the receive side of the Arduino `E131` library: the class `E131`
in `E131.h`. It receives ANSI E1.31 (Streaming ACN) data packets, which carry
DMX512 lighting levels over UDP.

Each datagram is copied into the *working* one of two 638-byte packet
buffers. The buffer is then checked:

- the ACN packet identifier;
- the root, framing and DMP vectors.

If it passes, the two buffers swap roles. The new *committed* buffer is
published through `packet`, `universe` and `data`. The library also tracks
an 8-bit sequence number and counts accepted packets and sequence
discontinuities.

The model has five modules:

- `Bytes` (`bytes.dfy`):
  - the `uint8_t`, `uint16_t` and `uint32_t` machine types;
  - network byte order: `htons` and `htonl` become explicit big-endian
    reads, with round-trip lemmas;
  - the wrap-around of the unsigned counters.
- `Packet` (`packet.dfy`):
  - the packed `e131_packet_t` layout: member sizes, the offset macros and
    the annotated member list;
  - the union of the struct with `raw[638]`, modelled as a pair of
    functions: `Encode` lays a structured packet out in bytes and `Decode`
    reads the members at their offsets;
  - proofs that the offsets agree with the packed layout, and that `Encode`
    and `Decode` are inverse bijections.
- `Validator` (`validate.dfy`): `validate()` over the working buffer's
  bytes, with its first-failure-wins order.
- `Receiver` (`receiver.dfy`):
  - class `E131` with its two buffers (`const` arrays) and the `packet` and
    `pwbuff` pointers (array references that `parsePacket()` swaps);
  - the published `universe` and `data`, the sequence tracker and the
    statistics;
  - `parsePacket()`, split into the copy-in (`ReadBytes`) and the
    acceptance branch (`Commit`), each proved against its specification;
  - the class invariant `Valid()`: exactly two distinct buffers, one
    committed and one working, and the committed one validates whenever
    data has been published.
- `Scenarios` (`scenarios.dfy`):
  - a client building data packets and feeding them to a fresh
    receiver;
  - proofs of the sequence-tracking, rejection and stale-buffer behaviour
    on concrete streams.

The datagram that `udp.parsePacket()` and `udp.readBytes()` deliver is a
parameter of `ParsePacket`. An empty sequence means that nothing arrived.

## Model

| member | source | states |
|---|---|---|
| Bytes.FromToBigEndian | E131.h:171-173 | Reading back the n-byte big-endian encoding of any value below 256^n gives that value (`htons` of a network-order field). |
| Bytes.ToFromBigEndian | E131.h:190-193 | Re-encoding the value read from any byte sequence in network order rebuilds that sequence. |
| Bytes.U16At | E131.h:171 | `htons` of the two bytes at an offset is high byte × 256 + low byte. |
| Bytes.U32At | E131.h:190-192 | `htonl` of the four bytes at an offset b0 b1 b2 b3 is b0 × 2^24 + b1 × 2^16 + b2 × 2^8 + b3, their big-endian value. |
| Bytes.Inc32 | E131.h:175 | `x++` on a `uint32_t` counter gives x + 1 modulo 2^32 (0 after 2^32 − 1). |
| Bytes.Inc32Counts | E131.h:175-178 | Incrementing a counter that holds a count modulo 2^32 makes it hold the next count modulo 2^32. |
| Packet.DmpLayerPacked | E131.h:59-95 | The DMP-layer offset macros (115 … 125) are the running sums of the packed member sizes, and the 513 property values end exactly at byte 638. |
| Packet.FramingLayerPacked | E131.h:50-86 | The framing-layer offset macros (38 … 113) are the running sums of the packed member sizes, up to the DMP layer. |
| Packet.OffsetsMatchLayout | E131.h:43-98 | Every offset macro is the sum of the sizes of the packed members before it, and the members fill exactly `raw[638]`. |
| Packet.Encode | E131.h:68-99 | A structured packet laid out in bytes occupies exactly the 638 bytes of `raw`. |
| Packet.EncodeAt | E131.h:68-99 | In the bytes of a packet, each member's network-order bytes start at that member's offset macro. |
| Packet.EncodeLaidOut | E131.h:68-99 | The bytes of a packet hold every member at its offset. |
| Packet.DecodeLaidOut | E131.h:68-99 | Any 638 bytes that hold every member of a packet at its offset decode to that packet. |
| Packet.DecodeIsLaidOut | E131.h:68-99 | Any 638 bytes hold the members they decode to at their offsets, with the member lengths of the struct. |
| Packet.ConcatFromCovers | E131.h:68-98 | The packed members from any position on cover the rest of `raw` without gap or overlap. |
| Packet.DecodeEncode | E131.h:68-99 | Reading the members of a laid-out packet gives back that packet, for every well-formed packet. |
| Packet.EncodeDecode | E131.h:68-99 | Laying out the members read from any 638 bytes rebuilds those bytes: struct and `raw` views are in bijection. |
| Validator.Validate | E131.h:187-197 | `validate()` on the working buffer never reports `ERROR_PACKET_SIZE`. |
| Validator.ValidateFirstFailure | E131.h:187-197 | No error exactly when all four checks pass (ACN id, root vector 4, frame vector 2, DMP vector 2); the error of check k exactly when check k fails and every earlier check passes. |
| Validator.ValidateEncoded | E131.h:187-197 | A packet's bytes validate exactly when it carries E1.31 data, and each corrupted identifier is reported by its own error when those checked before it are intact. |
| Validator.ValidateReadsOnlyIdentifiers | E131.h:188-195 | Bytes that agree on the ACN identifier and the three vectors validate alike, whatever else they hold. |
| Receiver.CopyIn | E131.h:165 | After the copy-in, the first `size` bytes of the working buffer are the datagram's and the rest are what the buffer held before. |
| Receiver.CopyInExtremes | E131.h:165 | A datagram filling the whole buffer leaves nothing stale, and an empty one changes nothing. |
| Receiver.UnboundedReadOverwritesCommitted | E131.h:163-165 | As written (`readBytes` given the full size, the buffers `pbuff1` and `pbuff2` adjacent as declared at E131.h:124), a datagram of 638 + k bytes into the working buffer on `pbuff1` fills it and overwrites the first k bytes of the committed packet on `pbuff2`; the committed bytes change, without any acceptance, whenever byte 638 differs from the committed first byte. |
| Receiver.BoundedReadKeepsCommitted | E131.h:163-165 | Corrected: the bounded read of any datagram into the working buffer on `pbuff1` is the copy-in of its first (at most 638) bytes, and the committed packet on `pbuff2` is left exactly as it was. |
| Receiver.ReceivedWhole | E131.h:165 | A datagram that fits the buffer is stored whole, as the source stores it. |
| Receiver.ReceivedBounded | E131.h:165 | Corrected: of a longer datagram exactly the first 638 bytes are stored. |
| Receiver.ChannelCountWraps | E131.h:173 | The returned count is `property_value_count` − 1, and a count of 0 wraps to 65535; at byte level, (hi × 256 + lo + 65535) mod 65536. |
| Receiver.TrackAllCountsBreaks | E131.h:174-177 | After any stream of accepted packets the tracker expects the number after the last one (mod 256), and `sequence_errors` has grown by the number of discontinuities in the stream (mod 2^32). |
| Receiver.InOrderStreamHasNoBreaks | E131.h:174-177 | A stream numbered consecutively from the expected number, wrapping from 255 to 0, has no discontinuities. |
| Receiver.CountersGrow | E131.h:101-104 | Below the `uint32_t` limit an increment makes a counter exactly one larger. |
| Receiver.E131.constructor | E131.h:124-141 | Both buffers are zeroed; `packet` is on the first and `pwbuff` on the second; the tracker, the universe and the counters are 0; no data is published; the invariant holds. |
| Receiver.E131.ParsePacket | E131.h:159-184 | Copies the datagram (up to 638 bytes) into the working buffer and leaves the committed buffer's bytes alone. On acceptance (datagram not empty, buffer validates) it swaps the buffers, publishes the universe and the data pointer, returns `property_value_count` − 1, advances the tracker and counts the packet. Otherwise it returns 0 and nothing published changes. The invariant is preserved. |
| Receiver.E131.ReadBytes | E131.h:165 | The working buffer becomes the datagram copied over its old contents, and the committed buffer's bytes are unchanged. |
| Receiver.E131.Commit | E131.h:167-178 | The buffers swap roles; universe and data are read from the new committed buffer; the returned count is its `property_value_count` − 1; the tracker takes one step with that packet's sequence number; `num_packets` grows by one modulo 2^32. |
| Scenarios.DataPacket | E131.h:68-99 | The packet it builds is a well-formed data packet for the given universe and sequence number, carrying the given channels after the start code. |
| Scenarios.EncodedFields | E131.h:84-95 | The universe, sequence number, property value count and property values of a packet are found at their offsets in its bytes. |
| Scenarios.ChannelsAfterStartCode | E131.h:172-173 | When N channels follow the start code and the property value count is N + 1, the returned count is N and the N bytes at `data` are those channels. |
| Scenarios.ChannelsRoundTrip | E131.h:159-184 | The bytes of a data packet for universe U carrying channels d1..dN validate, and read back as universe U, its sequence number, channel count N and channels d1..dN. |
| Scenarios.Deliver | E131.h:159-184 | A data packet built by `DataPacket` (with or without bytes past 638, which the corrected read drops) is accepted. The buffers swap; universe, count and channel data are the packet's; `data` points at channel 1 of the new committed buffer; the tracker and the counters step as `parsePacket()` prescribes. |
| Scenarios.InOrderSequence | E131.h:174-177 | Sequence numbers 0, 1, 2 on a fresh receiver count no discontinuity, and 3 is expected next. |
| Scenarios.SequenceGap | E131.h:174-177 | Sequence numbers 0, 2 count one discontinuity, and 3 is expected next. |
| Scenarios.SequenceWrap | E131.h:174-177 | On a fresh receiver 255 is one discontinuity; the 0 after it is none, and 1 is expected next. |
| Scenarios.Corrupted | E131.h:194-195 | A data packet whose DMP vector is not 2 is rejected with `ERROR_VECTOR_DMP`. |
| Scenarios.RejectionKeepsPublishedPacket | E131.h:166-181 | A rejected packet returns 0 and leaves the published universe, channel data and packet counter as the last accepted packet left them. |
| Scenarios.EmptyReadChangesNothing | E131.h:163-183 | When nothing arrived, 0 is returned and the universe, counter and tracker are unchanged. |
| Scenarios.OneByteDatagramRepublishesStalePacket | E131.h:163-178 | A one-byte datagram overwrites only byte 0 of the stale working buffer. It validates, republishes that older packet's universe, channel count and sequence number, and is counted as a packet and as a discontinuity. |
| Scenarios.OversizedDatagramIsBounded | E131.h:163-165 | Corrected read: a datagram longer than the buffer is read only up to 638 bytes, and the packet in them is accepted as if it had come alone. |

## Left out

- Network setup is not modelled, because it is transport work outside the
  packet logic:
  - `begin`, `beginMulticast` and the private `initWiFi`, `initEthernet`,
    `initUnicast` and `initMulticast` (E131.h:130-133, 144-151);
  - the UDP handle itself.
- The datagram is a parameter of `ParsePacket`:
  - the size returned by `udp.parsePacket()` is its length;
  - an empty datagram stands for "nothing arrived".
- `dumpError` is not modelled, because it is diagnostic output only. The
  rejection branch just returns 0.
- The value of `ACN_ID` is declared in E131.h but defined in E131.cpp, and
  E131.cpp is not part of this model. The model uses the identifier from
  section 5.3 of ANSI E1.31-2016: "ASC-E1.17" followed by three zero bytes.
- The body of the constructor `E131()` is in E131.cpp, which is not part of
  this model. The model assumes that the constructor leaves:
  - both buffers zeroed;
  - `packet` on `pbuff1` and `pwbuff` on `pbuff2`;
  - the tracker and the counters at 0;
  - no data published.
- What the model does not capture about the union:
  - Host byte order and the in-memory union overlay are not modelled.
  - The struct view and the `raw` view are related by `Encode` and
    `Decode`, which lay the members out in network order, as the wire has
    them.
- The members that `parsePacket()` never interprets are decoded and
  carried, but nothing is proved about their meaning: preamble and
  postamble sizes, flags-and-lengths, CID, source name, priority, reserved,
  options, address type, first address and address increment.
- `data` is an array reference with an offset. The model does not state
  how many bytes a caller may read from it: the source gives no bound
  beyond the returned count.
- Behaviours one might expect of an E1.31 receiver that the code does not
  have are not added; except for the bounded read below, the model follows
  the code:
  - no `packet_errors` counter (`e131_stats_t` has two fields);
  - no check that produces `ERROR_PACKET_SIZE`;
  - no rejection of a property value count of 0, which wraps to 65535 (see
    `ChannelCountWraps`);
  - no check of the datagram length against the header, so a short
    datagram is validated against the stale rest of the working buffer
    (see `OneByteDatagramRepublishesStalePacket`).
- Receiver.E131.ParsePacket: reads at most 638 bytes of the datagram
  (`ReadSize`, `Received`). This is a deliberate correction of the unbounded
  `readBytes` call (see "## Findings"); `Deliver` with a trailer and
  `OversizedDatagramIsBounded` show the corrected behaviour, not the
  source's. The as-written overrun is modelled only for the working buffer
  on `pbuff1`, where it lands in `pbuff2`; with the working buffer on
  `pbuff2`, or beyond 1276 bytes, it would overwrite members laid out after
  the buffers, which the model does not represent.
- Receiver.CountersGrow: the counters only grow below 2^32 − 1. At that
  value a further increment wraps to 0, as a `uint32_t` does.

## Findings

| source | as written | input that shows it | evidently intended | confidence | as-written member | corrected member |
|---|---|---|---|---|---|---|
| E131.h:163-165 | `udp.readBytes(pwbuff->raw, size)` is passed the datagram's full size, with no bound. | With the working buffer on `pbuff1`, a datagram of 639 bytes whose byte 638 differs from byte 0 of the committed packet. Its last byte lands in `pbuff2` and changes the committed packet, which nothing accepted. | Store at most the buffer's 638 bytes. | medium, not executed | Receiver.Store, Receiver.UnboundedReadOverwritesCommitted | Receiver.BoundedReadKeepsCommitted, Receiver.ReceivedBounded, Receiver.E131.ParsePacket, Scenarios.OversizedDatagramIsBounded |
