/** Client-side use of `E131::parsePacket()`: data packets built from
    a universe, a sequence number and channel levels, what the receiver
    publishes for them, and the sequence-tracking and rejection behaviour the
    library promises, each shown on a freshly constructed receiver. */
module Scenarios {
  import opened Bytes
  import opened Packet
  import opened Validator
  import opened Receiver

  function Zeros(n: nat): (s: seq<byte>)
    ensures |s| == n
  {
    seq(n, _ => 0)
  }

  /** `p` is a well-formed E1.31 data packet for `universe`, numbered
      `sequenceNumber`, whose property values after the start code begin
      with `channels` and whose property value count covers exactly them. */
  predicate Carries(p: Packet, universe: uint16, sequenceNumber: byte, channels: seq<byte>) {
    p.WellFormed() && IsDataPacket(p)
    && p.universe == universe && p.sequenceNumber == sequenceNumber
    && |channels| <= 512
    && p.propertyValueCount as int == |channels| + 1
    && p.propertyValues[1..|channels| + 1] == channels
  }

  /** An E1.31 data packet for `universe`, numbered `sequenceNumber`,
      carrying the start code 0 and then `channels` as DMX channels 1, 2, ...
      It fills all 638 bytes: the remaining property values are 0, and the
      flags-and-length fields describe a packet with all 513 property
      values. */
  function DataPacket(universe: uint16, sequenceNumber: byte, channels: seq<byte>): (p: Packet)
    requires |channels| <= 512
    ensures Carries(p, universe, sequenceNumber, channels)
  {
    var values := [0] + channels + Zeros(512 - |channels|);
    assert values[1..|channels| + 1] == channels;
    Packet(
      0x0010, 0x0000, AcnPacketIdentifier, 0x726e, VectorRoot, Zeros(16),
      0x7258, VectorFrame, Zeros(64), 100, 0, sequenceNumber, 0, universe,
      0x720b, VectorDmp, 0xa1, 0, 1, (|channels| + 1) as uint16, values)
  }

  /** The members `parsePacket()` reads are found at their offsets in the
      bytes of a packet. */
  lemma EncodedFields(p: Packet)
    requires p.WellFormed()
    ensures var raw := Encode(p);
      U16At(raw, FrameUniverseOffset) == p.universe
      && raw[FrameSeqOffset] == p.sequenceNumber
      && U16At(raw, DmpCountOffset) == p.propertyValueCount
      && raw[DmpDataOffset..PacketSize] == p.propertyValues
  {
    DecodeEncode(p);
  }

  /** Bytes whose property values are a start code followed by `channels`,
      with a property value count of one more than their number, have
      exactly `channels` as their channel count and as the bytes `data`
      points at. */
  lemma ChannelsAfterStartCode(raw: seq<byte>, count: uint16, values: seq<byte>, channels: seq<byte>)
    requires |raw| == PacketSize && |channels| <= 512
    requires U16At(raw, DmpCountOffset) == count && count as int == |channels| + 1
    requires raw[DmpDataOffset..PacketSize] == values && values[1..|channels| + 1] == channels
    ensures ChannelCount(raw) as int == |channels|
    ensures raw[ChannelDataOffset..ChannelDataOffset + |channels|] == channels
  {
    forall i | 0 <= i < |channels|
      ensures raw[ChannelDataOffset + i] == channels[i]
    {
      assert raw[DmpDataOffset..PacketSize][1 + i] == values[1 + i];
      assert values[1..|channels| + 1][i] == values[1 + i];
    }
  }

  /** Encoding a packet for universe U with channels d1..dN and reading it
      back the way `parsePacket()` does yields U, N and d1..dN: the packet
      validates, the universe and the sequence number sit at their offsets,
      the channel count is N and the N bytes after the start code are the
      channels. */
  lemma ChannelsRoundTrip(p: Packet, universe: uint16, sequenceNumber: byte, channels: seq<byte>)
    requires Carries(p, universe, sequenceNumber, channels)
    ensures var raw := Encode(p);
      Validate(raw) == ErrorNone
      && U16At(raw, FrameUniverseOffset) == universe
      && raw[FrameSeqOffset] == sequenceNumber
      && ChannelCount(raw) as int == |channels|
      && raw[ChannelDataOffset..ChannelDataOffset + |channels|] == channels
  {
    ValidateEncoded(p);
    EncodedFields(p);
    ChannelsAfterStartCode(Encode(p), p.propertyValueCount, p.propertyValues, channels);
  }

  /** One data packet built by `DataPacket` arrives, followed by `trailer` (bytes past the
      638 the buffer holds, none for a well-sized datagram), and is
      accepted. */
  method Deliver(r: E131, universe: uint16, sequenceNumber: byte, channels: seq<byte>, trailer: seq<byte>)
    returns (count: uint16)
    requires r.Valid() && |channels| <= 512
    modifies r, r.pwbuff
    ensures r.Valid()
    ensures r.packet == old(r.pwbuff) && r.pwbuff == old(r.packet)
    ensures r.pwbuff[..] == old(r.packet[..])
    ensures count as int == |channels| && r.universe == universe
    ensures r.data == DataAt(r.packet, ChannelDataOffset)
    ensures Validate(r.packet[..]) == ErrorNone
    ensures U16At(r.packet[..], FrameUniverseOffset) == universe
    ensures r.packet[FrameSeqOffset] == sequenceNumber
    ensures ChannelCount(r.packet[..]) == count
    ensures r.packet[ChannelDataOffset..ChannelDataOffset + |channels|] == channels
    ensures r.sequence == Wrap8(sequenceNumber as int + 1)
    ensures r.stats.sequenceErrors
      == if sequenceNumber != old(r.sequence) then Inc32(old(r.stats.sequenceErrors))
         else old(r.stats.sequenceErrors)
    ensures r.stats.numPackets == Inc32(old(r.stats.numPackets))
  {
    var p := DataPacket(universe, sequenceNumber, channels);
    var raw := Encode(p);
    ChannelsRoundTrip(p, universe, sequenceNumber, channels);
    ReceivedBounded(raw, trailer);
    CopyInExtremes(r.pwbuff[..], raw);
    count := r.ParsePacket(raw + trailer);
  }

  /** Sequence numbers 0, 1, 2 are counted as no discontinuity, and 3 is
      expected next. */
  method InOrderSequence() returns (errors: uint32, expected: byte)
    ensures errors == 0 && expected == 3
  {
    var r := new E131();
    var n := Deliver(r, 1, 0, [0xff], []);
    n := Deliver(r, 1, 1, [0x80], []);
    n := Deliver(r, 1, 2, [0x00], []);
    errors, expected := r.stats.sequenceErrors, r.sequence;
  }

  /** Sequence numbers 0, 2 are counted as one discontinuity, and 3 is
      expected next. */
  method SequenceGap() returns (errors: uint32, expected: byte)
    ensures errors == 1 && expected == 3
  {
    var r := new E131();
    var n := Deliver(r, 1, 0, [0xff], []);
    n := Deliver(r, 1, 2, [0x80], []);
    errors, expected := r.stats.sequenceErrors, r.sequence;
  }

  /** After 255 the tracker expects 0: on a fresh receiver (expecting 0)
      the number 255 is one discontinuity, and the 0 that follows adds
      none. */
  method SequenceWrap() returns (errorsAfter255: uint32, errorsAfter0: uint32, expected: byte)
    ensures errorsAfter255 == 1 && errorsAfter0 == 1 && expected == 1
  {
    var r := new E131();
    var n := Deliver(r, 1, 255, [0xff], []);
    errorsAfter255 := r.stats.sequenceErrors;
    n := Deliver(r, 1, 0, [0x80], []);
    errorsAfter0, expected := r.stats.sequenceErrors, r.sequence;
  }

  /** A packet from universe 7 is accepted; then a packet whose DMP vector
      is corrupted is rejected with `ErrorVectorDmp`, returns 0 and leaves the
      universe, the channel data and the packet counter as they were. */
  method RejectionKeepsPublishedPacket()
    returns (error: E131Error, count: uint16, universe: uint16, channels: seq<byte>, packets: uint32)
    ensures error == ErrorVectorDmp
    ensures count == 0 && universe == 7 && channels == [10, 20, 30] && packets == 1
  {
    var r := new E131();
    var n := Deliver(r, 7, 0, [10, 20, 30], []);
    var raw := Corrupted(9, 1, [40, 50]);
    ReceivedWhole(raw);
    CopyInExtremes(r.pwbuff[..], raw);
    error := Validate(raw);
    count := r.ParsePacket(raw);
    universe, packets := r.universe, r.stats.numPackets;
    channels := r.packet[ChannelDataOffset..ChannelDataOffset + 3];
  }

  /** The bytes of a data packet whose DMP vector is 0 instead of 2. */
  function Corrupted(universe: uint16, sequenceNumber: byte, channels: seq<byte>): (raw: seq<byte>)
    requires |channels| <= 512
    ensures |raw| == PacketSize && Validate(raw) == ErrorVectorDmp
  {
    var bad := DataPacket(universe, sequenceNumber, channels).(dmpVector := 0);
    ValidateEncoded(bad);
    Encode(bad)
  }

  /** An empty read (nothing arrived) returns 0 and changes nothing that is
      published. */
  method EmptyReadChangesNothing() returns (count: uint16, universe: uint16, packets: uint32, expected: byte)
    ensures count == 0 && universe == 7 && packets == 1 && expected == 1
  {
    var r := new E131();
    var n := Deliver(r, 7, 0, [10, 20, 30], []);
    count := r.ParsePacket([]);
    universe, packets, expected := r.universe, r.stats.numPackets, r.sequence;
  }

  /** There is no length check: after two packets have been accepted, the
      working buffer still holds the older one, and a one-byte datagram
      overwrites only byte 0 of it, so it validates and republishes the
      older packet's universe, channel count and sequence number (counted as
      a discontinuity). */
  method OneByteDatagramRepublishesStalePacket()
    returns (count: uint16, universe: uint16, packets: uint32, errors: uint32)
    ensures count == 3 && universe == 5 && packets == 3 && errors == 1
  {
    var r := new E131();
    var n := Deliver(r, 5, 0, [1, 2, 3], []);
    var older := r.packet[..];
    n := Deliver(r, 6, 1, [4], []);
    assert r.pwbuff[..] == older;
    ReceivedWhole([0]);
    var stale := CopyIn(older, [0]);
    assert forall i :: 1 <= i < PacketSize ==> stale[i] == older[i];
    assert stale[RootIdOffset..RootIdOffset + 12] == older[RootIdOffset..RootIdOffset + 12];
    assert stale[RootVectorOffset..RootVectorOffset + 4] == older[RootVectorOffset..RootVectorOffset + 4];
    assert stale[FrameVectorOffset..FrameVectorOffset + 4] == older[FrameVectorOffset..FrameVectorOffset + 4];
    ValidateReadsOnlyIdentifiers(stale, older);
    ChannelCountWraps(stale);
    ChannelCountWraps(older);
    count := r.ParsePacket([0]);
    universe, packets, errors := r.universe, r.stats.numPackets, r.stats.sequenceErrors;
  }

  /** A datagram longer than the buffer is read only up to the buffer's
      638 bytes, so the packet in them is accepted as if it had come alone. */
  method OversizedDatagramIsBounded() returns (count: uint16, universe: uint16, channels: seq<byte>)
    ensures count == 2 && universe == 3 && channels == [7, 8]
  {
    var r := new E131();
    count := Deliver(r, 3, 0, [7, 8], [0xff, 0xff]);
    universe := r.universe;
    channels := r.packet[ChannelDataOffset..ChannelDataOffset + 2];
  }
}
