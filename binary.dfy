/**
 * The slice of Go's encoding/binary that the codec uses: big-endian 16- and 32-bit integers.
 * Go's byte, uint16 and uint32 are the integers below 2^8, 2^16 and 2^32.
 */
module Binary {
  type byte = b: int | 0 <= b < 0x100
  type uint16 = x: int | 0 <= x < 0x1_0000
  type uint32 = x: int | 0 <= x < 0x1_0000_0000

  /** A byte seen as 8 bits and back is the same byte; shown quarter by quarter of the byte's range. */
  lemma {:induction false} ByteBits(b: byte)
    ensures (b as bv8) as byte == b
  {
    if b < 0x40 {
      assert (b as bv8) as int == b;
    } else if b < 0x80 {
      assert (b as bv8) as int == b;
    } else if b < 0xC0 {
      assert (b as bv8) as int == b;
    } else {
      assert (b as bv8) as int == b;
    }
  }

  /** 8 bits seen as a byte and back are the same bits. */
  lemma {:induction false} BitsByte(b: bv8)
    ensures (b as byte) as bv8 == b
  {
  }

  /** The two bytes of x, most significant first. */
  function Uint16Bytes(x: uint16): (r: seq<byte>)
    ensures |r| == 2
  {
    [x / 0x100, x % 0x100]
  }

  /** The four bytes of x, most significant first. */
  function Uint32Bytes(x: uint32): (r: seq<byte>)
    ensures |r| == 4
  {
    Uint16Bytes(x / 0x1_0000) + Uint16Bytes(x % 0x1_0000)
  }

  /** binary.BigEndian.Uint16 on a two-byte slice. */
  function Uint16(b: seq<byte>): uint16
    requires |b| == 2
  {
    (b[0] as int) * 0x100 + b[1]
  }

  /** binary.BigEndian.Uint32 on a four-byte slice. */
  function Uint32(b: seq<byte>): uint32
    requires |b| == 4
  {
    Uint16(b[0..2]) * 0x1_0000 + Uint16(b[2..4])
  }

  /** The bytes of the integer read from two bytes are those bytes. */
  lemma {:induction false} Uint16Inverse(b: seq<byte>)
    requires |b| == 2
    ensures Uint16Bytes(Uint16(b)) == b
  {
  }

  /** The bytes of the integer read from four bytes are those bytes. */
  lemma {:induction false} Uint32Inverse(b: seq<byte>)
    requires |b| == 4
    ensures Uint32Bytes(Uint32(b)) == b
  {
    var hi, lo := Uint16(b[0..2]), Uint16(b[2..4]);
    assert Uint32(b) / 0x1_0000 == hi && Uint32(b) % 0x1_0000 == lo;
    Uint16Inverse(b[0..2]);
    Uint16Inverse(b[2..4]);
    assert b == b[0..2] + b[2..4];
  }

  /** Reading back the two bytes of x gives x. */
  lemma {:induction false} Uint16RoundTrip(x: uint16)
    ensures Uint16(Uint16Bytes(x)) == x
  {
  }

  /** Reading back the four bytes of x gives x. */
  lemma {:induction false} Uint32RoundTrip(x: uint32)
    ensures Uint32(Uint32Bytes(x)) == x
  {
  }

  /** Bytes d that start with w of length n, then ws of length m, have w + ws as their first n + m bytes. */
  lemma {:induction false} TakeConcat(d: seq<byte>, n: nat, m: nat, w: seq<byte>, ws: seq<byte>)
    requires n + m <= |d| && d[..n] == w && d[n..][..m] == ws
    ensures d[..n + m] == w + ws
  {
    assert d[..n + m] == d[..n] + d[n..][..m];
  }

  /** The first m bytes are the first n, then the bytes from n to m. */
  lemma {:induction false} TakeSplit(d: seq<byte>, n: nat, m: nat)
    requires n <= m <= |d|
    ensures d[..m] == d[..n] + d[n..m]
  {
  }

  /** The bytes from a to c are those from a to b, then those from b to c. */
  lemma {:induction false} SliceSplit(d: seq<byte>, a: nat, b: nat, c: nat)
    requires a <= b <= c <= |d|
    ensures d[a..c] == d[a..b] + d[b..c]
  {
  }

  /** binary.BigEndian.PutUint16(a[off:off+2], x): writes x into the array in place. */
  method PutUint16(a: array<byte>, off: nat, x: uint16)
    requires off + 2 <= a.Length
    modifies a
    ensures a[off..off + 2] == Uint16Bytes(x)
    ensures forall k :: 0 <= k < a.Length && k != off && k != off + 1 ==> a[k] == old(a[k])
  {
    a[off] := x / 0x100;
    a[off + 1] := x % 0x100;
  }
}
