/** The fixed 12-byte DNS message header (section 4.1.1 of RFC 1035). */
module Header {
  import opened Binary
  import opened Wrappers

  /**
   * The unpacked header. As in the Go struct, every flag is held in a whole byte even though
   * it occupies only 1, 3 or 4 bits on the wire; the flags are bit-vectors so that shifts and
   * ors truncate as Go's byte arithmetic does.
   */
  datatype DNSHeader = DNSHeader(
    id: uint16,
    qr: bv8,
    opcode: bv8,
    aa: bv8,
    tc: bv8,
    rd: bv8,
    ra: bv8,
    z: bv8,
    rcode: bv8,
    qdCount: uint16,
    anCount: uint16,
    nsCount: uint16,
    arCount: uint16)

  /** Every flag fits the number of bits it occupies on the wire. */
  predicate ValidHeader(h: DNSHeader)
  {
    h.qr < 2 && h.opcode < 16 && h.aa < 2 && h.tc < 2 && h.rd < 2 &&
    h.ra < 2 && h.z < 8 && h.rcode < 16
  }

  /** Byte 2: QR, OPCODE, AA, TC and RD. */
  function FlagsHigh(h: DNSHeader): bv8
  {
    (h.qr << 7) | (h.opcode << 3) | (h.aa << 2) | (h.tc << 1) | h.rd
  }

  /** Byte 3: RA, Z and RCODE. */
  function FlagsLow(h: DNSHeader): bv8
  {
    (h.ra << 7) | (h.z << 4) | h.rcode
  }

  /** The wire image of a header: ID, the two flag bytes, then the four counts, all big-endian. */
  function HeaderWire(h: DNSHeader): (r: seq<byte>)
    ensures |r| == 12
  {
    Uint16Bytes(h.id) + [FlagsHigh(h) as byte, FlagsLow(h) as byte] +
    Uint16Bytes(h.qdCount) + Uint16Bytes(h.anCount) + Uint16Bytes(h.nsCount) + Uint16Bytes(h.arCount)
  }

  /** DNSHeader.Pack: fills a fresh 12-byte array in place. */
  method Pack(h: DNSHeader) returns (data: seq<byte>)
    ensures |data| == 12
    ensures data == HeaderWire(h)
  {
    var a := new byte[12];
    PutUint16(a, 0, h.id);
    var b2: bv8 := (h.qr << 7) | (h.opcode << 3) | (h.aa << 2) | (h.tc << 1) | h.rd;
    var b3: bv8 := (h.ra << 7) | (h.z << 4) | h.rcode;
    a[2] := b2 as byte;
    a[3] := b3 as byte;
    assert a[..4] == Uint16Bytes(h.id) + [FlagsHigh(h) as byte, FlagsLow(h) as byte];
    PutUint16(a, 4, h.qdCount);
    PutUint16(a, 6, h.anCount);
    assert a[..8] == HeaderWire(h)[..8];
    PutUint16(a, 8, h.nsCount);
    PutUint16(a, 10, h.arCount);
    data := a[..];
    assert data == data[..8] + data[8..10] + data[10..12];
  }

  /** The flag fields read back from bytes 2 and 3 by shifting and masking. */
  function UnpackFlags(id: uint16, b2: bv8, b3: bv8, qd: uint16, an: uint16, ns: uint16, ar: uint16): (h: DNSHeader)
    ensures ValidHeader(h) && FlagsHigh(h) == b2 && FlagsLow(h) == b3
  {
    DNSHeader(
      id := id,
      qr := b2 >> 7,
      opcode := (b2 >> 3) & 0x0F,
      aa := (b2 >> 2) & 0x01,
      tc := (b2 >> 1) & 0x01,
      rd := b2 & 0x01,
      ra := b3 >> 7,
      z := (b3 >> 4) & 0x07,
      rcode := b3 & 0x0F,
      qdCount := qd,
      anCount := an,
      nsCount := ns,
      arCount := ar)
  }

  /**
   * UnpackDNSHeader: None (Go's nil) unless the input is exactly 12 bytes. What it extracts
   * always fits the flag widths, and packing it gives back the input.
   */
  function UnpackDNSHeader(data: seq<byte>): (r: Option<DNSHeader>)
    ensures r.Some? <==> |data| == 12
    ensures r.Some? ==> ValidHeader(r.value) && HeaderWire(r.value) == data
  {
    if |data| != 12 then None
    else
      var h := UnpackFlags(Uint16(data[0..2]), data[2] as bv8, data[3] as bv8,
                           Uint16(data[4..6]), Uint16(data[6..8]), Uint16(data[8..10]), Uint16(data[10..12]));
      ByteBits(data[2]);
      ByteBits(data[3]);
      assert HeaderWire(h) == data;
      Some(h)
  }

  /** The flags of a valid header are recovered from the two bytes they are packed into. */
  lemma {:induction false} FlagsRoundTrip(h: DNSHeader)
    requires ValidHeader(h)
    ensures UnpackFlags(h.id, FlagsHigh(h), FlagsLow(h), h.qdCount, h.anCount, h.nsCount, h.arCount) == h
  {
  }

  /** Unpacking a packed header gives it back exactly when its flags fit their widths. */
  lemma {:induction false} HeaderRoundTrip(h: DNSHeader)
    ensures UnpackDNSHeader(HeaderWire(h)) == Some(h) <==> ValidHeader(h)
  {
    var w := HeaderWire(h);
    if ValidHeader(h) {
      Uint16RoundTrip(h.id);
      Uint16RoundTrip(h.qdCount);
      Uint16RoundTrip(h.anCount);
      Uint16RoundTrip(h.nsCount);
      Uint16RoundTrip(h.arCount);
      assert w[0..2] == Uint16Bytes(h.id);
      assert w[4..6] == Uint16Bytes(h.qdCount);
      assert w[6..8] == Uint16Bytes(h.anCount);
      assert w[8..10] == Uint16Bytes(h.nsCount);
      assert w[10..12] == Uint16Bytes(h.arCount);
      BitsByte(FlagsHigh(h));
      BitsByte(FlagsLow(h));
      FlagsRoundTrip(h);
    }
  }

  /** The instance checked by the repository's header test: ID 1234, QR 1, everything else 0. */
  lemma {:induction false} HeaderTestInstance()
    ensures UnpackDNSHeader(HeaderWire(DNSHeader(1234, 1, 0, 0, 0, 0, 0, 0, 0, 0, 0, 0, 0)))
         == Some(DNSHeader(1234, 1, 0, 0, 0, 0, 0, 0, 0, 0, 0, 0, 0))
  {
    HeaderRoundTrip(DNSHeader(1234, 1, 0, 0, 0, 0, 0, 0, 0, 0, 0, 0, 0));
  }
}
