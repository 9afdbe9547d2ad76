/** The receive side of class `E131`: two packet buffers, one committed
    (exposed through `packet`, `universe` and `data`) and one working (the
    target of the next datagram), the 8-bit sequence tracker and the
    statistics, all updated by `parsePacket()`. */
module Receiver {
  import opened Bytes
  import opened Packet
  import opened Validator

  /** `e131_stats_t`: two `uint32_t` counters. */
  datatype Stats = Stats(numPackets: uint32, sequenceErrors: uint32)

  /** The `data` pointer: unset until a packet is accepted, afterwards a
      position in a packet buffer. */
  datatype DataView = NoData | DataAt(buffer: array<byte>, offset: nat)

  /** `property_values + 1`: `data` skips the DMX start code and points at
      channel 1. */
  const ChannelDataOffset: nat := DmpDataOffset + 1

  /** The working buffer after `readBytes(pwbuff->raw, size)`: the datagram
      overwrites the first `size` bytes and the rest keep what an earlier
      datagram left there. */
  function CopyIn(buffer: seq<byte>, datagram: seq<byte>): (r: seq<byte>)
    requires |datagram| <= |buffer|
    ensures |r| == |buffer|
    ensures forall i :: 0 <= i < |datagram| ==> r[i] == datagram[i]
    ensures forall i :: |datagram| <= i < |buffer| ==> r[i] == buffer[i]
  {
    datagram + buffer[|datagram|..]
  }

  /** A datagram that fills the whole buffer leaves nothing stale, and an
      empty one leaves the buffer as it was. */
  lemma CopyInExtremes(buffer: seq<byte>, datagram: seq<byte>)
    requires |datagram| <= |buffer|
    ensures |datagram| == |buffer| ==> CopyIn(buffer, datagram) == datagram
    ensures datagram == [] ==> CopyIn(buffer, datagram) == buffer
  {
    if |datagram| == |buffer| {
      assert buffer[|datagram|..] == [];
    }
  }

  /** The number of bytes a bounded read stores: the datagram's size, but
      never more than the buffer holds. */
  function ReadSize(size: nat): (n: nat)
    ensures n <= PacketSize
    ensures size <= PacketSize ==> n == size
    ensures size > PacketSize ==> n == PacketSize
  {
    if size > PacketSize then PacketSize else size
  }

  /** The two packet buffers as the object holds them: `pbuff1` followed
      by `pbuff2` (E131.h:124), with no padding between them because a
      packet has byte alignment. `Store(storage, at, datagram)` is that
      storage after `readBytes` has written `datagram` from offset `at` on,
      as many bytes as the datagram has. */
  function Store(storage: seq<byte>, at: nat, datagram: seq<byte>): (r: seq<byte>)
    requires at + |datagram| <= |storage|
    ensures |r| == |storage|
  {
    storage[..at] + datagram + storage[at + |datagram|..]
  }

  /** As written, with the working buffer on `pbuff1`, a datagram of
      638 + k bytes fills the working buffer and then overwrites the first k
      bytes of `pbuff2`, the committed packet: the published bytes change
      although nothing has been accepted, whenever byte 638 of the datagram
      differs from the committed packet's first byte. */
  lemma UnboundedReadOverwritesCommitted(working: seq<byte>, committed: seq<byte>, datagram: seq<byte>)
    requires |working| == PacketSize && |committed| == PacketSize
    requires PacketSize < |datagram| <= 2 * PacketSize
    ensures Store(working + committed, 0, datagram)[..PacketSize] == datagram[..PacketSize]
    ensures Store(working + committed, 0, datagram)[PacketSize..]
      == CopyIn(committed, datagram[PacketSize..])
    ensures datagram[PacketSize] != committed[0]
      ==> Store(working + committed, 0, datagram)[PacketSize..] != committed
  {
    var after := Store(working + committed, 0, datagram);
    var excess := datagram[PacketSize..];
    assert after == datagram + committed[|excess|..];
    assert after[PacketSize..] == excess + committed[|excess|..];
    if datagram[PacketSize] != committed[0] {
      assert after[PacketSize..][0] == datagram[PacketSize];
    }
  }

  /** Corrected: reading at most 638 bytes into the working buffer on
      `pbuff1` leaves the committed packet on `pbuff2` as it was, whatever
      the datagram's length. */
  lemma BoundedReadKeepsCommitted(working: seq<byte>, committed: seq<byte>, datagram: seq<byte>)
    requires |working| == PacketSize && |committed| == PacketSize
    ensures Store(working + committed, 0, Received(datagram))[..PacketSize]
      == CopyIn(working, Received(datagram))
    ensures Store(working + committed, 0, Received(datagram))[PacketSize..] == committed
  {
    var n := |Received(datagram)|;
    var after := Store(working + committed, 0, Received(datagram));
    assert after == Received(datagram) + working[n..] + committed;
  }

  /** The bytes of a datagram that the bounded read stores. */
  function Received(datagram: seq<byte>): (r: seq<byte>)
    ensures |r| == ReadSize(|datagram|)
    ensures r == datagram[..|r|]
  {
    datagram[..ReadSize(|datagram|)]
  }

  /** A datagram that fits the buffer is received whole. */
  lemma ReceivedWhole(datagram: seq<byte>)
    requires |datagram| <= PacketSize
    ensures Received(datagram) == datagram
  {
    assert datagram[..|datagram|] == datagram;
  }

  /** Of a datagram that runs past the buffer, exactly the first 638 bytes
      are received. */
  lemma ReceivedBounded(raw: seq<byte>, trailer: seq<byte>)
    requires |raw| == PacketSize
    ensures Received(raw + trailer) == raw
  {
    assert (raw + trailer)[..PacketSize] == raw;
  }

  /** `parsePacket()` accepts the datagram: it is not empty and the working
      buffer validates once the received bytes have been copied in. */
  predicate Accepts(buffer: seq<byte>, datagram: seq<byte>)
    requires |buffer| == PacketSize
  {
    |datagram| > 0 && Validate(CopyIn(buffer, Received(datagram))) == ErrorNone
  }

  /** The value `parsePacket()` returns for an accepted packet:
      `htons(property_value_count) - 1` stored in a `uint16_t`. */
  function ChannelCount(raw: seq<byte>): uint16
    requires |raw| == PacketSize
  {
    Wrap16(U16At(raw, DmpCountOffset) as int - 1)
  }

  /** The channel count is one less than the property value count, and a
      count of 0 wraps around to 65535 (the source has no check for it). */
  lemma ChannelCountWraps(raw: seq<byte>)
    requires |raw| == PacketSize
    ensures Decode(raw).propertyValueCount >= 1
      ==> ChannelCount(raw) as int == Decode(raw).propertyValueCount as int - 1
    ensures Decode(raw).propertyValueCount == 0 ==> ChannelCount(raw) == 0xFFFF
    ensures ChannelCount(raw) as int
      == (raw[DmpCountOffset] as int * 0x100 + raw[DmpCountOffset + 1] as int + 0xFFFF) % 0x1_0000
  {
  }

  /** The sequence tracker and the discontinuity counter. */
  datatype Tracker = Tracker(expected: byte, errors: uint32)

  /** One accepted packet with sequence number `received`: a number other
      than the expected one is counted, and the next expected number is the
      one after `received`, modulo 256. */
  function Track(t: Tracker, received: byte): Tracker {
    Tracker(Wrap8(received as int + 1), if received != t.expected then Inc32(t.errors) else t.errors)
  }

  /** A stream of accepted packets, in arrival order. */
  function TrackAll(t: Tracker, received: seq<byte>): Tracker
    decreases |received|
  {
    if received == [] then t else Track(TrackAll(t, received[..|received| - 1]), received[|received| - 1])
  }

  /** The number of arrivals that do not follow their predecessor: the first
      compared with `expected`, every later one with the number after the one
      before it (modulo 256). */
  function Breaks(expected: byte, received: seq<byte>): (n: nat)
    ensures n <= |received|
    decreases |received|
  {
    if received == [] then 0
    else
      var last := received[|received| - 1];
      var before := received[..|received| - 1];
      var want := if before == [] then expected else Wrap8(before[|before| - 1] as int + 1);
      Breaks(expected, before) + (if last != want then 1 else 0)
  }

  /** After a stream of accepted packets the tracker expects the number after
      the last one, and the counter has grown by the number of breaks in the
      stream (modulo 2^32, the width of `sequence_errors`). */
  lemma {:induction false} TrackAllCountsBreaks(t: Tracker, received: seq<byte>)
    ensures received != [] ==>
      TrackAll(t, received).expected == Wrap8(received[|received| - 1] as int + 1)
    ensures TrackAll(t, received).errors as int
      == (t.errors as int + Breaks(t.expected, received)) % 0x1_0000_0000
  {
    if received != [] {
      var before := received[..|received| - 1];
      TrackAllCountsBreaks(t, before);
      var prior := TrackAll(t, before);
      var last := received[|received| - 1];
      if before != [] {
        assert before[|before| - 1] == received[|received| - 2];
      }
      if last != prior.expected {
        Inc32Counts(prior.errors, t.errors as int + Breaks(t.expected, before));
      }
    }
  }

  /** A stream numbered consecutively from the expected number, wrapping
      from 255 to 0, is never counted as a discontinuity. */
  lemma {:induction false} InOrderStreamHasNoBreaks(expected: byte, received: seq<byte>)
    requires received != [] ==> received[0] == expected
    requires forall i :: 0 < i < |received| ==> received[i] == Wrap8(received[i - 1] as int + 1)
    ensures Breaks(expected, received) == 0
    decreases |received|
  {
    if received != [] {
      InOrderStreamHasNoBreaks(expected, received[..|received| - 1]);
    }
  }

  /** The abstract statistics never run backwards while they are below the
      `uint32_t` limit. */
  lemma CountersGrow(x: uint32)
    requires x < 0xFFFF_FFFF
    ensures Inc32(x) == x + 1 && Inc32(x) > x
  {
  }

  /** Class `E131`, receive side. */
  class E131 {
    /** The two packet buffers, members of the object itself. */
    const pbuff1: array<byte>
    const pbuff2: array<byte>
    /** The working buffer, target of the next datagram. */
    var pwbuff: array<byte>
    /** The committed buffer: the last packet that passed validation. */
    var packet: array<byte>
    /** The sequence number expected next. */
    var sequence: byte
    /** DMX channel data of the last accepted packet. */
    var data: DataView
    /** DMX universe of the last accepted packet. */
    var universe: uint16
    var stats: Stats

    /** The committed and working buffers are the two distinct packet
        buffers; once a packet has been accepted, the published `data` points
        at channel 1 of the committed buffer, which holds a valid packet from
        the published universe. */
    ghost predicate Valid()
      reads this, pbuff1, pbuff2
    {
      pbuff1.Length == PacketSize && pbuff2.Length == PacketSize && pbuff1 != pbuff2
      && ((packet == pbuff1 && pwbuff == pbuff2) || (packet == pbuff2 && pwbuff == pbuff1))
      && (data != NoData ==>
            data == DataAt(packet, ChannelDataOffset)
            && Validate(packet[..]) == ErrorNone
            && universe == U16At(packet[..], FrameUniverseOffset))
    }

    /** Both buffers zeroed, `packet` on the first and `pwbuff` on the
        second, the tracker and the counters at 0, no data yet. */
    constructor ()
      ensures Valid() && fresh(pbuff1) && fresh(pbuff2)
      ensures packet == pbuff1 && pwbuff == pbuff2
      ensures pbuff1[..] == seq(PacketSize, _ => 0) && pbuff2[..] == seq(PacketSize, _ => 0)
      ensures sequence == 0 && universe == 0 && data == NoData && stats == Stats(0, 0)
    {
      pbuff1 := new byte[PacketSize](_ => 0);
      pbuff2 := new byte[PacketSize](_ => 0);
      new;
      packet := pbuff1;
      pwbuff := pbuff2;
      sequence := 0;
      universe := 0;
      data := NoData;
      stats := Stats(0, 0);
    }

    /** `parsePacket()` for one datagram read from the socket (an empty one
        when nothing arrived). The datagram, up to the buffer's 638 bytes, is
        copied into the working buffer;
        if it is not empty and validates, the buffers swap roles and the
        universe, the data pointer, the sequence tracker and the counters are
        updated, and the channel count is returned; otherwise 0 is returned
        and nothing published changes. */
    method ParsePacket(datagram: seq<byte>) returns (retval: uint16)
      requires Valid()
      modifies this, pwbuff
      ensures Valid()
      ensures old(pwbuff)[..] == CopyIn(old(pwbuff[..]), Received(datagram))
      ensures old(packet)[..] == old(packet[..])
      ensures Accepts(old(pwbuff[..]), datagram) ==>
        packet == old(pwbuff) && pwbuff == old(packet)
        && universe == U16At(packet[..], FrameUniverseOffset)
        && data == DataAt(packet, ChannelDataOffset)
        && retval == ChannelCount(packet[..])
        && Tracker(sequence, stats.sequenceErrors)
           == Track(Tracker(old(sequence), old(stats.sequenceErrors)), packet[FrameSeqOffset])
        && stats.numPackets == Inc32(old(stats.numPackets))
      ensures !Accepts(old(pwbuff[..]), datagram) ==>
        packet == old(packet) && pwbuff == old(pwbuff)
        && universe == old(universe) && data == old(data)
        && sequence == old(sequence) && stats == old(stats)
        && retval == 0
    {
      retval := 0;
      var size := |datagram|;
      if size != 0 {
        ReadBytes(datagram[..ReadSize(size)]);
        var error := Validate(pwbuff[..]);
        if error == ErrorNone {
          retval := Commit();
        }
      } else {
        CopyInExtremes(old(pwbuff[..]), Received(datagram));
      }
    }

    /** `udp.readBytes(pwbuff->raw, size)`: the datagram overwrites the
        start of the working buffer in place. */
    method ReadBytes(datagram: seq<byte>)
      requires Valid()
      requires |datagram| <= PacketSize
      modifies pwbuff
      ensures Valid()
      ensures pwbuff[..] == CopyIn(old(pwbuff[..]), datagram)
    {
      ghost var committed := packet[..];
      forall i | 0 <= i < |datagram| {
        pwbuff[i] := datagram[i];
      }
      assert packet[..] == committed;
      assert pwbuff[..] == CopyIn(old(pwbuff[..]), datagram);
    }

    /** The acceptance branch of `parsePacket()`: swap the buffer pointers,
        publish the universe and the data pointer, update the sequence
        tracker and the counters, and return the channel count. */
    method Commit() returns (retval: uint16)
      requires Valid()
      requires Validate(pwbuff[..]) == ErrorNone
      modifies this
      ensures Valid()
      ensures packet == old(pwbuff) && pwbuff == old(packet)
      ensures universe == U16At(packet[..], FrameUniverseOffset)
      ensures data == DataAt(packet, ChannelDataOffset)
      ensures retval == ChannelCount(packet[..])
      ensures Tracker(sequence, stats.sequenceErrors)
        == Track(Tracker(old(sequence), old(stats.sequenceErrors)), packet[FrameSeqOffset])
      ensures stats.numPackets == Inc32(old(stats.numPackets))
    {
      var swap := packet;
      packet := pwbuff;
      pwbuff := swap;
      universe := U16At(packet[..], FrameUniverseOffset);
      data := DataAt(packet, ChannelDataOffset);
      retval := Wrap16(U16At(packet[..], DmpCountOffset) as int - 1);
      var received := packet[FrameSeqOffset];
      var expected := sequence;
      sequence := Wrap8(sequence as int + 1);
      if received != expected {
        stats := stats.(sequenceErrors := Inc32(stats.sequenceErrors));
        sequence := Wrap8(received as int + 1);
      }
      stats := stats.(numPackets := Inc32(stats.numPackets));
    }
  }
}
