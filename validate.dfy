/** `E131::validate()`: the identifiers and vectors a packet must carry to
    be an E1.31 data packet, checked in a fixed order, the first failing
    check deciding the error. */
module Validator {
  import opened Bytes
  import opened Packet

  /** `e131_error_t`. `ErrorPacketSize` is declared by the source but no
      check produces it. */
  datatype E131Error =
    | ErrorNone
    | ErrorAcnId
    | ErrorPacketSize
    | ErrorVectorRoot
    | ErrorVectorFrame
    | ErrorVectorDmp

  /** `ACN_ID`, the ACN packet identifier "ASC-E1.17" padded with three
      zero bytes (section 5.3 of ANSI E1.31-2016). */
  const AcnPacketIdentifier: seq<byte> :=
    [0x41, 0x53, 0x43, 0x2d, 0x45, 0x31, 0x2e, 0x31, 0x37, 0x00, 0x00, 0x00]
  /** `VECTOR_ROOT`: the root layer carries E1.31 data. */
  const VectorRoot: uint32 := 4
  /** `VECTOR_FRAME`: the framing layer carries a DMP layer. */
  const VectorFrame: uint32 := 2
  /** `VECTOR_DMP`: the DMP layer is a "set property" message. */
  const VectorDmp: byte := 2

  /** The number of checks `validate()` makes. */
  const CheckCount: nat := 4

  /** Check k of the packet, in the order `validate()` makes them. */
  predicate Passes(p: Packet, k: nat)
    requires k < CheckCount
  {
    if k == 0 then p.acnId == AcnPacketIdentifier
    else if k == 1 then p.rootVector == VectorRoot
    else if k == 2 then p.frameVector == VectorFrame
    else p.dmpVector == VectorDmp
  }

  /** The error that reports a failure of check k. */
  function CheckError(k: nat): E131Error
    requires k < CheckCount
  {
    if k == 0 then ErrorAcnId
    else if k == 1 then ErrorVectorRoot
    else if k == 2 then ErrorVectorFrame
    else ErrorVectorDmp
  }

  /** The packet carries E1.31 data: it passes every check. */
  predicate IsDataPacket(p: Packet) {
    p.acnId == AcnPacketIdentifier && p.rootVector == VectorRoot
    && p.frameVector == VectorFrame && p.dmpVector == VectorDmp
  }

  /** `validate()` over the working buffer's bytes. It reports no error
      exactly when every check passes, and otherwise the error of the first
      check that fails; it never reports `ErrorPacketSize`. */
  function Validate(raw: seq<byte>): (error: E131Error)
    requires |raw| == PacketSize
    ensures error != ErrorPacketSize
  {
    if raw[RootIdOffset..RootIdOffset + 12] != AcnPacketIdentifier then ErrorAcnId
    else if U32At(raw, RootVectorOffset) != VectorRoot then ErrorVectorRoot
    else if U32At(raw, FrameVectorOffset) != VectorFrame then ErrorVectorFrame
    else if raw[DmpVectorOffset] != VectorDmp then ErrorVectorDmp
    else ErrorNone
  }

  /** First failure wins: `validate()` reports the error of check k exactly
      when check k fails and every check before it passes, and no error
      exactly when all checks pass. */
  lemma ValidateFirstFailure(raw: seq<byte>)
    requires |raw| == PacketSize
    ensures Validate(raw) == ErrorNone <==> IsDataPacket(Decode(raw))
    ensures Validate(raw) == ErrorNone <==> forall k :: 0 <= k < CheckCount ==> Passes(Decode(raw), k)
    ensures forall k :: 0 <= k < CheckCount ==>
      (Validate(raw) == CheckError(k) <==>
        !Passes(Decode(raw), k) && forall j :: 0 <= j < k ==> Passes(Decode(raw), j))
  {
    var p := Decode(raw);
    assert IsDataPacket(p) <==> Passes(p, 0) && Passes(p, 1) && Passes(p, 2) && Passes(p, 3);
    forall k | 0 <= k < CheckCount
      ensures Validate(raw) == CheckError(k) <==> !Passes(p, k) && forall j :: 0 <= j < k ==> Passes(p, j)
    {
      if k == 3 {
        assert (forall j :: 0 <= j < k ==> Passes(p, j)) <==> Passes(p, 0) && Passes(p, 1) && Passes(p, 2);
      } else if k == 2 {
        assert (forall j :: 0 <= j < k ==> Passes(p, j)) <==> Passes(p, 0) && Passes(p, 1);
      } else if k == 1 {
        assert (forall j :: 0 <= j < k ==> Passes(p, j)) <==> Passes(p, 0);
      }
    }
  }

  /** A packet laid out in bytes validates exactly when it carries E1.31
      data, and each corrupted identifier is reported by its own error when
      the identifiers checked before it are intact. */
  lemma ValidateEncoded(p: Packet)
    requires p.WellFormed()
    ensures Validate(Encode(p)) == ErrorNone <==> IsDataPacket(p)
    ensures p.acnId != AcnPacketIdentifier ==> Validate(Encode(p)) == ErrorAcnId
    ensures (p.acnId == AcnPacketIdentifier && p.rootVector != VectorRoot)
      ==> Validate(Encode(p)) == ErrorVectorRoot
    ensures (p.acnId == AcnPacketIdentifier && p.rootVector == VectorRoot
      && p.frameVector != VectorFrame) ==> Validate(Encode(p)) == ErrorVectorFrame
    ensures (p.acnId == AcnPacketIdentifier && p.rootVector == VectorRoot
      && p.frameVector == VectorFrame && p.dmpVector != VectorDmp)
      ==> Validate(Encode(p)) == ErrorVectorDmp
  {
    DecodeEncode(p);
    ValidateFirstFailure(Encode(p));
  }

  /** `validate()` looks at the ACN identifier and the three vectors and at
      nothing else: bytes that agree there validate alike. */
  lemma ValidateReadsOnlyIdentifiers(raw: seq<byte>, other: seq<byte>)
    requires |raw| == PacketSize && |other| == PacketSize
    requires raw[RootIdOffset..RootIdOffset + 12] == other[RootIdOffset..RootIdOffset + 12]
    requires raw[RootVectorOffset..RootVectorOffset + 4] == other[RootVectorOffset..RootVectorOffset + 4]
    requires raw[FrameVectorOffset..FrameVectorOffset + 4] == other[FrameVectorOffset..FrameVectorOffset + 4]
    requires raw[DmpVectorOffset] == other[DmpVectorOffset]
    ensures Validate(raw) == Validate(other)
  {
  }
}
