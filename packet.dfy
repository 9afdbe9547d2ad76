/** The fixed 638-byte E1.31 data packet (`e131_packet_t`): the offset of
    every field, the packed field-by-field layout of ANSI E1.31-2016
    (sections 5, 6 and 7: Root, Framing and DMP layers), and the
    correspondence between the structured view and the raw bytes that the
    source obtains from a union over `raw[638]`. */
module Packet {
  import opened Bytes

  /** `sizeof(e131_packet_t)`, the length of `raw`. */
  const PacketSize: nat := 638

  // Field offsets, one per `E131_*` offset macro.
  const RootPreambleSizeOffset: nat := 0
  const RootPostambleSizeOffset: nat := 2
  const RootIdOffset: nat := 4
  const RootFlengthOffset: nat := 16
  const RootVectorOffset: nat := 18
  const RootCidOffset: nat := 22
  const FrameFlengthOffset: nat := 38
  const FrameVectorOffset: nat := 40
  const FrameSourceOffset: nat := 44
  const FramePriorityOffset: nat := 108
  const FrameReservedOffset: nat := 109
  const FrameSeqOffset: nat := 111
  const FrameOptOffset: nat := 112
  const FrameUniverseOffset: nat := 113
  const DmpFlengthOffset: nat := 115
  const DmpVectorOffset: nat := 117
  const DmpTypeOffset: nat := 118
  const DmpAddrFirstOffset: nat := 119
  const DmpAddrIncOffset: nat := 121
  const DmpCountOffset: nat := 123
  const DmpDataOffset: nat := 125

  /** Capacity of `property_values`: the start code plus 512 DMX slots. */
  const PropertyValuesSize: nat := 513

  /** The members of the packed structure. */
  datatype Field =
    | PreambleSize | PostambleSize | AcnId | RootFlength | RootVector | Cid
    | FrameFlength | FrameVector | SourceName | Priority | Reserved
    | SequenceNumber | Options | Universe
    | DmpFlength | DmpVector | AddressType | FirstAddress | AddressIncrement
    | PropertyValueCount | PropertyValues

  /** The members in declaration order; `__attribute__((packed))` lays them
      out one after the other with no padding. */
  const Layout: seq<Field> := [
    PreambleSize, PostambleSize, AcnId, RootFlength, RootVector, Cid,
    FrameFlength, FrameVector, SourceName, Priority, Reserved,
    SequenceNumber, Options, Universe,
    DmpFlength, DmpVector, AddressType, FirstAddress, AddressIncrement,
    PropertyValueCount, PropertyValues]

  /** `sizeof` of each member's declared type. */
  function Size(f: Field): nat {
    match f
    case PreambleSize => 2
    case PostambleSize => 2
    case AcnId => 12
    case RootFlength => 2
    case RootVector => 4
    case Cid => 16
    case FrameFlength => 2
    case FrameVector => 4
    case SourceName => 64
    case Priority => 1
    case Reserved => 2
    case SequenceNumber => 1
    case Options => 1
    case Universe => 2
    case DmpFlength => 2
    case DmpVector => 1
    case AddressType => 1
    case FirstAddress => 2
    case AddressIncrement => 2
    case PropertyValueCount => 2
    case PropertyValues => PropertyValuesSize
  }

  /** The offset macro that names each member. */
  function Offset(f: Field): nat {
    match f
    case PreambleSize => RootPreambleSizeOffset
    case PostambleSize => RootPostambleSizeOffset
    case AcnId => RootIdOffset
    case RootFlength => RootFlengthOffset
    case RootVector => RootVectorOffset
    case Cid => RootCidOffset
    case FrameFlength => FrameFlengthOffset
    case FrameVector => FrameVectorOffset
    case SourceName => FrameSourceOffset
    case Priority => FramePriorityOffset
    case Reserved => FrameReservedOffset
    case SequenceNumber => FrameSeqOffset
    case Options => FrameOptOffset
    case Universe => FrameUniverseOffset
    case DmpFlength => DmpFlengthOffset
    case DmpVector => DmpVectorOffset
    case AddressType => DmpTypeOffset
    case FirstAddress => DmpAddrFirstOffset
    case AddressIncrement => DmpAddrIncOffset
    case PropertyValueCount => DmpCountOffset
    case PropertyValues => DmpDataOffset
  }

  /** The members `fields[i..]` sit one after the other, the first at
      `start`, and the last one ends at the end of `raw`. */
  predicate PackedFrom(fields: seq<Field>, i: nat, start: nat)
    decreases |fields| - i
  {
    if i >= |fields| then start == PacketSize
    else Offset(fields[i]) == start && PackedFrom(fields, i + 1, start + Size(fields[i]))
  }

  /** The DMP layer (section 7 of ANSI E1.31-2016) runs from offset 115 to
      the end of `raw`. */
  lemma DmpLayerPacked()
    ensures PackedFrom(Layout, 14, DmpFlengthOffset)
    ensures DmpDataOffset + PropertyValuesSize == PacketSize
  {
  }

  /** The framing layer (section 6 of ANSI E1.31-2016) runs from offset 38
      to 115. */
  lemma FramingLayerPacked()
    ensures PackedFrom(Layout, 6, FrameFlengthOffset)
  {
    DmpLayerPacked();
  }

  /** Each offset macro equals the sum of the sizes of the members before it,
      and the members together fill exactly the 638 bytes of `raw`. */
  lemma OffsetsMatchLayout()
    ensures PackedFrom(Layout, 0, 0)
  {
    FramingLayerPacked();
  }

  /** Where a member stands in the declaration order. */
  function Position(f: Field): (i: nat)
    ensures i < |Layout| && Layout[i] == f
  {
    match f
    case PreambleSize => 0
    case PostambleSize => 1
    case AcnId => 2
    case RootFlength => 3
    case RootVector => 4
    case Cid => 5
    case FrameFlength => 6
    case FrameVector => 7
    case SourceName => 8
    case Priority => 9
    case Reserved => 10
    case SequenceNumber => 11
    case Options => 12
    case Universe => 13
    case DmpFlength => 14
    case DmpVector => 15
    case AddressType => 16
    case FirstAddress => 17
    case AddressIncrement => 18
    case PropertyValueCount => 19
    case PropertyValues => 20
  }

  /** The structured view of a packet, every multi-byte value already in
      host order (as read through `htons`/`htonl`). */
  datatype Packet = Packet(
    // Root Layer
    preambleSize: uint16, postambleSize: uint16, acnId: seq<byte>,
    rootFlength: uint16, rootVector: uint32, cid: seq<byte>,
    // Framing Layer
    frameFlength: uint16, frameVector: uint32, sourceName: seq<byte>,
    priority: byte, reserved: uint16, sequenceNumber: byte, options: byte,
    universe: uint16,
    // DMP Layer
    dmpFlength: uint16, dmpVector: byte, addressType: byte,
    firstAddress: uint16, addressIncrement: uint16,
    propertyValueCount: uint16, propertyValues: seq<byte>)
  {
    /** The byte arrays have their declared lengths. */
    predicate WellFormed() {
      |acnId| == Size(AcnId) && |cid| == Size(Cid) && |sourceName| == Size(SourceName)
      && |propertyValues| == Size(PropertyValues)
    }
  }

  /** The wire bytes of one member (big-endian for the integers). */
  function FieldBytes(p: Packet, f: Field): (s: seq<byte>)
    requires p.WellFormed()
    ensures |s| == Size(f)
  {
    match f
    case PreambleSize => U16Bytes(p.preambleSize)
    case PostambleSize => U16Bytes(p.postambleSize)
    case AcnId => p.acnId
    case RootFlength => U16Bytes(p.rootFlength)
    case RootVector => U32Bytes(p.rootVector)
    case Cid => p.cid
    case FrameFlength => U16Bytes(p.frameFlength)
    case FrameVector => U32Bytes(p.frameVector)
    case SourceName => p.sourceName
    case Priority => [p.priority]
    case Reserved => U16Bytes(p.reserved)
    case SequenceNumber => [p.sequenceNumber]
    case Options => [p.options]
    case Universe => U16Bytes(p.universe)
    case DmpFlength => U16Bytes(p.dmpFlength)
    case DmpVector => [p.dmpVector]
    case AddressType => [p.addressType]
    case FirstAddress => U16Bytes(p.firstAddress)
    case AddressIncrement => U16Bytes(p.addressIncrement)
    case PropertyValueCount => U16Bytes(p.propertyValueCount)
    case PropertyValues => p.propertyValues
  }

  /** The wire bytes of the members from position i of `Layout` on,
      concatenated in order. */
  function ConcatFrom(p: Packet, fields: seq<Field>, i: nat): seq<byte>
    requires p.WellFormed()
    decreases |fields| - i
  {
    if i >= |fields| then [] else FieldBytes(p, fields[i]) + ConcatFrom(p, fields, i + 1)
  }

  lemma {:induction false} ConcatFromSize(p: Packet, fields: seq<Field>, i: nat, start: nat)
    requires p.WellFormed()
    requires PackedFrom(fields, i, start)
    ensures start + |ConcatFrom(p, fields, i)| == PacketSize
    decreases |fields| - i
  {
    if i < |fields| {
      ConcatFromSize(p, fields, i + 1, start + Size(fields[i]));
    }
  }

  /** The `raw` bytes of a structured packet. */
  function Encode(p: Packet): (raw: seq<byte>)
    requires p.WellFormed()
    ensures |raw| == PacketSize
  {
    OffsetsMatchLayout();
    ConcatFromSize(p, Layout, 0, 0);
    ConcatFrom(p, Layout, 0)
  }

  /** The structured view of `raw` bytes: each member read at its offset. */
  function Decode(raw: seq<byte>): Packet
    requires |raw| == PacketSize
  {
    Packet(
      U16At(raw, RootPreambleSizeOffset), U16At(raw, RootPostambleSizeOffset),
      raw[RootIdOffset..RootIdOffset + 12],
      U16At(raw, RootFlengthOffset), U32At(raw, RootVectorOffset),
      raw[RootCidOffset..RootCidOffset + 16],
      U16At(raw, FrameFlengthOffset), U32At(raw, FrameVectorOffset),
      raw[FrameSourceOffset..FrameSourceOffset + 64],
      raw[FramePriorityOffset], U16At(raw, FrameReservedOffset),
      raw[FrameSeqOffset], raw[FrameOptOffset], U16At(raw, FrameUniverseOffset),
      U16At(raw, DmpFlengthOffset), raw[DmpVectorOffset], raw[DmpTypeOffset],
      U16At(raw, DmpAddrFirstOffset), U16At(raw, DmpAddrIncOffset),
      U16At(raw, DmpCountOffset), raw[DmpDataOffset..DmpDataOffset + PropertyValuesSize])
  }

  lemma {:induction false} ConcatFromAt(p: Packet, fields: seq<Field>, i: nat, start: nat, j: nat)
    requires p.WellFormed()
    requires PackedFrom(fields, i, start)
    requires i <= j < |fields|
    ensures start <= Offset(fields[j]) && Offset(fields[j]) + Size(fields[j]) <= PacketSize
    ensures start + |ConcatFrom(p, fields, i)| == PacketSize
    ensures ConcatFrom(p, fields, i)[Offset(fields[j]) - start..Offset(fields[j]) - start + Size(fields[j])]
         == FieldBytes(p, fields[j])
    decreases |fields| - i
  {
    var a := FieldBytes(p, fields[i]);
    var b := ConcatFrom(p, fields, i + 1);
    var next := start + Size(fields[i]);
    assert Offset(fields[i]) == start && PackedFrom(fields, i + 1, next);
    assert ConcatFrom(p, fields, i) == a + b;
    ConcatFromSize(p, fields, i + 1, next);
    if j == i {
      SliceOfConcat(a, b, 0, |a|);
    } else {
      ConcatFromAt(p, fields, i + 1, next, j);
      SliceOfConcat(a, b, Offset(fields[j]) - start, Size(fields[j]));
    }
  }

  lemma SliceOfConcat(a: seq<byte>, b: seq<byte>, k: nat, n: nat)
    requires k + n <= |a| || (|a| <= k && k + n <= |a| + |b|)
    ensures k + n <= |a| ==> (a + b)[k..k + n] == a[k..k + n]
    ensures |a| <= k ==> (a + b)[k..k + n] == b[k - |a|..k - |a| + n]
  {
  }

  /** Each member's bytes sit in `raw` at the member's offset. */
  lemma EncodeAt(p: Packet, f: Field)
    requires p.WellFormed()
    ensures Offset(f) + Size(f) <= PacketSize
    ensures Encode(p)[Offset(f)..Offset(f) + Size(f)] == FieldBytes(p, f)
  {
    OffsetsMatchLayout();
    ConcatAt(p, Layout, Position(f));
  }

  lemma ConcatAt(p: Packet, fields: seq<Field>, j: nat)
    requires p.WellFormed()
    requires PackedFrom(fields, 0, 0) && j < |fields|
    ensures Offset(fields[j]) + Size(fields[j]) <= PacketSize
    ensures |ConcatFrom(p, fields, 0)| == PacketSize
    ensures ConcatFrom(p, fields, 0)[Offset(fields[j])..Offset(fields[j]) + Size(fields[j])]
         == FieldBytes(p, fields[j])
  {
    ConcatFromAt(p, fields, 0, 0, j);
  }

  /** Every member of `p` is found in `raw` at its offset: `raw` and `p`
      are the two views of one `e131_packet_t` union. */
  ghost predicate LaidOut(raw: seq<byte>, p: Packet)
    requires p.WellFormed()
  {
    |raw| == PacketSize &&
    forall f: Field :: Offset(f) + Size(f) <= PacketSize
      && raw[Offset(f)..Offset(f) + Size(f)] == FieldBytes(p, f)
  }

  /** Encoding puts every member at its offset. */
  lemma EncodeLaidOut(p: Packet)
    requires p.WellFormed()
    ensures LaidOut(Encode(p), p)
  {
    forall f: Field
      ensures Offset(f) + Size(f) <= PacketSize
      ensures Encode(p)[Offset(f)..Offset(f) + Size(f)] == FieldBytes(p, f)
    {
      EncodeAt(p, f);
    }
  }

  lemma U16RoundTrip(raw: seq<byte>, at: nat, v: uint16)
    requires at + 2 <= |raw| && raw[at..at + 2] == U16Bytes(v)
    ensures U16At(raw, at) == v
  {
  }

  lemma U32RoundTrip(raw: seq<byte>, at: nat, v: uint32)
    requires at + 4 <= |raw| && raw[at..at + 4] == U32Bytes(v)
    ensures U32At(raw, at) == v
  {
  }

  lemma ByteRoundTrip(raw: seq<byte>, at: nat, v: byte)
    requires at + 1 <= |raw| && raw[at..at + 1] == [v]
    ensures raw[at] == v
  {
    assert raw[at] == raw[at..at + 1][0];
  }

  /** Reading the members of bytes that hold `p` gives back `p`. */
  lemma DecodeLaidOut(raw: seq<byte>, p: Packet)
    requires p.WellFormed() && LaidOut(raw, p)
    ensures Decode(raw) == p
  {
    assert raw[RootPreambleSizeOffset..RootPreambleSizeOffset + 2] == FieldBytes(p, PreambleSize);
    assert raw[RootPostambleSizeOffset..RootPostambleSizeOffset + 2] == FieldBytes(p, PostambleSize);
    assert raw[RootIdOffset..RootIdOffset + 12] == FieldBytes(p, AcnId);
    assert raw[RootFlengthOffset..RootFlengthOffset + 2] == FieldBytes(p, RootFlength);
    assert raw[RootVectorOffset..RootVectorOffset + 4] == FieldBytes(p, RootVector);
    assert raw[RootCidOffset..RootCidOffset + 16] == FieldBytes(p, Cid);
    assert raw[FrameFlengthOffset..FrameFlengthOffset + 2] == FieldBytes(p, FrameFlength);
    assert raw[FrameVectorOffset..FrameVectorOffset + 4] == FieldBytes(p, FrameVector);
    assert raw[FrameSourceOffset..FrameSourceOffset + 64] == FieldBytes(p, SourceName);
    assert raw[FramePriorityOffset..FramePriorityOffset + 1] == FieldBytes(p, Priority);
    assert raw[FrameReservedOffset..FrameReservedOffset + 2] == FieldBytes(p, Reserved);
    assert raw[FrameSeqOffset..FrameSeqOffset + 1] == FieldBytes(p, SequenceNumber);
    assert raw[FrameOptOffset..FrameOptOffset + 1] == FieldBytes(p, Options);
    assert raw[FrameUniverseOffset..FrameUniverseOffset + 2] == FieldBytes(p, Universe);
    assert raw[DmpFlengthOffset..DmpFlengthOffset + 2] == FieldBytes(p, DmpFlength);
    assert raw[DmpVectorOffset..DmpVectorOffset + 1] == FieldBytes(p, DmpVector);
    assert raw[DmpTypeOffset..DmpTypeOffset + 1] == FieldBytes(p, AddressType);
    assert raw[DmpAddrFirstOffset..DmpAddrFirstOffset + 2] == FieldBytes(p, FirstAddress);
    assert raw[DmpAddrIncOffset..DmpAddrIncOffset + 2] == FieldBytes(p, AddressIncrement);
    assert raw[DmpCountOffset..DmpCountOffset + 2] == FieldBytes(p, PropertyValueCount);
    assert raw[DmpDataOffset..DmpDataOffset + PropertyValuesSize] == FieldBytes(p, PropertyValues);
    U16RoundTrip(raw, RootPreambleSizeOffset, p.preambleSize);
    U16RoundTrip(raw, RootPostambleSizeOffset, p.postambleSize);
    U16RoundTrip(raw, RootFlengthOffset, p.rootFlength);
    U32RoundTrip(raw, RootVectorOffset, p.rootVector);
    U16RoundTrip(raw, FrameFlengthOffset, p.frameFlength);
    U32RoundTrip(raw, FrameVectorOffset, p.frameVector);
    ByteRoundTrip(raw, FramePriorityOffset, p.priority);
    U16RoundTrip(raw, FrameReservedOffset, p.reserved);
    ByteRoundTrip(raw, FrameSeqOffset, p.sequenceNumber);
    ByteRoundTrip(raw, FrameOptOffset, p.options);
    U16RoundTrip(raw, FrameUniverseOffset, p.universe);
    U16RoundTrip(raw, DmpFlengthOffset, p.dmpFlength);
    ByteRoundTrip(raw, DmpVectorOffset, p.dmpVector);
    ByteRoundTrip(raw, DmpTypeOffset, p.addressType);
    U16RoundTrip(raw, DmpAddrFirstOffset, p.firstAddress);
    U16RoundTrip(raw, DmpAddrIncOffset, p.addressIncrement);
    U16RoundTrip(raw, DmpCountOffset, p.propertyValueCount);
  }

  lemma U16Slice(raw: seq<byte>, at: nat)
    requires at + 2 <= |raw|
    ensures U16Bytes(U16At(raw, at)) == raw[at..at + 2]
  {
    ToFromBigEndian(raw[at..at + 2]);
  }

  lemma U32Slice(raw: seq<byte>, at: nat)
    requires at + 4 <= |raw|
    ensures U32Bytes(U32At(raw, at)) == raw[at..at + 4]
  {
    ToFromBigEndian(raw[at..at + 4]);
  }

  /** The structured view of any 638 bytes holds exactly those bytes. */
  lemma DecodeIsLaidOut(raw: seq<byte>)
    requires |raw| == PacketSize
    ensures Decode(raw).WellFormed() && LaidOut(raw, Decode(raw))
  {
    var p := Decode(raw);
    forall f: Field
      ensures Offset(f) + Size(f) <= PacketSize
      ensures raw[Offset(f)..Offset(f) + Size(f)] == FieldBytes(p, f)
    {
      var at := Offset(f);
      match f
      case PreambleSize => U16Slice(raw, at);
      case PostambleSize => U16Slice(raw, at);
      case AcnId =>
      case RootFlength => U16Slice(raw, at);
      case RootVector => U32Slice(raw, at);
      case Cid =>
      case FrameFlength => U16Slice(raw, at);
      case FrameVector => U32Slice(raw, at);
      case SourceName =>
      case Priority => assert raw[at..at + 1] == [raw[at]];
      case Reserved => U16Slice(raw, at);
      case SequenceNumber => assert raw[at..at + 1] == [raw[at]];
      case Options => assert raw[at..at + 1] == [raw[at]];
      case Universe => U16Slice(raw, at);
      case DmpFlength => U16Slice(raw, at);
      case DmpVector => assert raw[at..at + 1] == [raw[at]];
      case AddressType => assert raw[at..at + 1] == [raw[at]];
      case FirstAddress => U16Slice(raw, at);
      case AddressIncrement => U16Slice(raw, at);
      case PropertyValueCount => U16Slice(raw, at);
      case PropertyValues =>
    }
  }

  /** Members laid out one after the other from `start` to the end cover
      every byte from `start` on. */
  lemma {:induction false} ConcatFromCovers(raw: seq<byte>, p: Packet, fields: seq<Field>, i: nat, start: nat)
    requires p.WellFormed() && LaidOut(raw, p)
    requires PackedFrom(fields, i, start)
    ensures start <= PacketSize
    ensures ConcatFrom(p, fields, i) == raw[start..]
    decreases |fields| - i
  {
    if i < |fields| {
      var n := Size(fields[i]);
      assert raw[start..start + n] == FieldBytes(p, fields[i]);
      ConcatFromCovers(raw, p, fields, i + 1, start + n);
      assert raw[start..] == raw[start..start + n] + raw[start + n..];
    }
  }

  /** Reading the members of `raw` gives back the packet that was laid out
      there: the offsets and the layout agree. */
  lemma DecodeEncode(p: Packet)
    requires p.WellFormed()
    ensures Decode(Encode(p)) == p
  {
    EncodeLaidOut(p);
    DecodeLaidOut(Encode(p), p);
  }

  /** Laying out the members read from `raw` rebuilds `raw`: the members
      leave no byte of the packet uncovered. */
  lemma EncodeDecode(raw: seq<byte>)
    requires |raw| == PacketSize
    ensures Decode(raw).WellFormed() && Encode(Decode(raw)) == raw
  {
    DecodeIsLaidOut(raw);
    OffsetsMatchLayout();
    ConcatFromCovers(raw, Decode(raw), Layout, 0, 0);
  }
}
