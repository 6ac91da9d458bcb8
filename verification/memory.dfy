/** The inspected process's memory, seen read-only, and the bit arithmetic the
    printers perform on the bytes they read. */
module Memory {

  type Byte = x: int | 0 <= x < 256

  /** The bytes of the inspected process, by address. */
  type Mem = map<nat, Byte>

  /** The byte the debugger yields for a one-byte value at `addr`. A read the
      debugger cannot satisfy yields 0, the default fail value of
      `GetValueAsUnsigned`. */
  function ReadByte(mem: Mem, addr: nat): Byte {
    if addr in mem then mem[addr] else 0
  }

  /** The unsigned integer of `width` bytes at `addr`, least significant byte
      first: the debugger's reading of an integer-typed value on a
      little-endian target. */
  function ReadUnsigned(mem: Mem, addr: nat, width: nat): (r: nat)
    ensures r < Pow256(width)
    decreases width
  {
    if width == 0 then 0 else ReadByte(mem, addr) + 256 * ReadUnsigned(mem, addr + 1, width - 1)
  }

  function Pow256(n: nat): (r: nat)
    ensures r >= 1
  {
    if n == 0 then 1 else 256 * Pow256(n - 1)
  }

  /** The `width` bytes of `n`, least significant first: how a little-endian
      target stores an unsigned integer of that width. */
  function LittleEndian(n: nat, width: nat): (bytes: seq<Byte>)
    ensures |bytes| == width
  {
    if width == 0 then [] else [n % 256] + LittleEndian(n / 256, width - 1)
  }

  /** `bytes` are stored from `addr` on. */
  predicate HoldsBytes(mem: Mem, addr: nat, bytes: seq<Byte>) {
    forall k :: 0 <= k < |bytes| ==> ReadByte(mem, addr + k) == bytes[k]
  }

  /** An integer that fits in `width` bytes, stored little-endian, reads back
      as itself. */
  lemma {:induction false} ReadStoredUnsigned(mem: Mem, addr: nat, n: nat, width: nat)
    requires n < Pow256(width) && HoldsBytes(mem, addr, LittleEndian(n, width))
    ensures ReadUnsigned(mem, addr, width) == n
    decreases width
  {
    if width > 0 {
      var bytes := LittleEndian(n, width);
      var rest := LittleEndian(n / 256, width - 1);
      assert ReadByte(mem, addr) == n % 256 by { assert bytes[0] == n % 256; }
      forall k | 0 <= k < |rest|
        ensures ReadByte(mem, addr + 1 + k) == rest[k]
      {
        assert bytes[k + 1] == rest[k];
      }
      ReadStoredUnsigned(mem, addr + 1, n / 256, width - 1);
    }
  }

  /** Conversely, the number read is the one whose little-endian bytes are the
      bytes in memory. */
  lemma {:induction false} StoredBytesOfRead(mem: Mem, addr: nat, width: nat)
    ensures HoldsBytes(mem, addr, LittleEndian(ReadUnsigned(mem, addr, width), width))
    decreases width
  {
    if width > 0 {
      var n := ReadUnsigned(mem, addr, width);
      var m := ReadUnsigned(mem, addr + 1, width - 1);
      StoredBytesOfRead(mem, addr + 1, width - 1);
      assert n % 256 == ReadByte(mem, addr) && n / 256 == m;
      var bytes := LittleEndian(n, width);
      forall k | 0 <= k < width
        ensures ReadByte(mem, addr + k) == bytes[k]
      {
        if k > 0 {
          assert bytes[k] == LittleEndian(m, width - 1)[k - 1];
          assert ReadByte(mem, addr + 1 + (k - 1)) == LittleEndian(m, width - 1)[k - 1];
        }
      }
    }
  }

  /** `n & (1 << bit) != 0`: bit number `bit` of `n`, bit 0 being the least
      significant. Testing the mask bit is testing the low bit of `n` shifted
      right `bit` times. */
  function IsBitOn(n: nat, bit: nat): (r: bool)
    ensures r <==> (n / Pow2(bit)) % 2 == 1
  {
    if bit == 0 then n % 2 == 1
    else
      HalveThenDivide(n, bit - 1);
      IsBitOn(n / 2, bit - 1)
  }

  /** Shifting right once and then `b` times is shifting right `b + 1` times. */
  lemma HalveThenDivide(n: nat, b: nat)
    ensures n / 2 / Pow2(b) == n / Pow2(b + 1)
  {
    var p := Pow2(b);
    var q := n / 2 / p;
    var r := (n / 2) % p * 2 + n % 2;
    assert n == 2 * (n / 2) + n % 2;
    assert n / 2 == p * q + (n / 2) % p;
    assert n == (2 * p) * q + r;
    assert 0 <= r < 2 * p;
    DivideExactly(n, 2 * p, q, r);
  }

  /** Euclidean division is unique. */
  lemma DivideExactly(n: nat, d: nat, q: nat, r: nat)
    requires d > 0 && n == d * q + r && r < d
    ensures n / d == q
  {
    var q0 := n / d;
    assert n == d * q0 + n % d;
    MulGap(d, q0, q);
    MulGap(d, q, q0);
  }

  /** Multiples of `d` at distinct factors are at least `d` apart. */
  lemma MulGap(d: nat, a: nat, b: nat)
    ensures a < b ==> d * a + d <= d * b
  {
    if a < b {
      assert d * (a + 1) == d * a + d;
      MulLe(d, a + 1, b);
    }
  }

  lemma MulLe(d: nat, a: nat, b: nat)
    requires a <= b
    ensures d * a <= d * b
  {
    assert d * b == d * a + d * (b - a);
  }

  /** The low `width` bits of `n`, least significant first. */
  function BitsOf(n: nat, width: nat): (bits: seq<bool>)
    ensures |bits| == width
  {
    if width == 0 then [] else [n % 2 == 1] + BitsOf(n / 2, width - 1)
  }

  /** The number whose bits, least significant first, are `bits`. */
  function FromBits(bits: seq<bool>): nat {
    if |bits| == 0 then 0 else (if bits[0] then 1 else 0) + 2 * FromBits(bits[1..])
  }

  function Pow2(n: nat): (r: nat)
    ensures r >= 1
  {
    if n == 0 then 1 else 2 * Pow2(n - 1)
  }

  /** The eight bits of a byte in the order a least-significant-bit-first
      bitmap stores them. */
  function ByteBits(b: Byte): (bits: seq<bool>)
    ensures |bits| == 8
    ensures forall k :: 0 <= k < 8 ==> bits[k] == IsBitOn(b, k)
  {
    BitsOfIndex(b, 8);
    BitsOf(b, 8)
  }

  /** Position `k` of `BitsOf(n, width)` is the bit `IsBitOn` tests. */
  lemma {:induction false} BitsOfIndex(n: nat, width: nat)
    ensures forall k :: 0 <= k < width ==> BitsOf(n, width)[k] == IsBitOn(n, k)
  {
    if width > 0 {
      BitsOfIndex(n / 2, width - 1);
      forall k | 0 <= k < width
        ensures BitsOf(n, width)[k] == IsBitOn(n, k)
      {
        if k > 0 {
          assert BitsOf(n, width)[k] == BitsOf(n / 2, width - 1)[k - 1];
        }
      }
    }
  }

  /** Reading the bits of a number and reassembling them gives the number back. */
  lemma {:induction false} FromBitsOfBits(n: nat, width: nat)
    requires n < Pow2(width)
    ensures FromBits(BitsOf(n, width)) == n
  {
    if width > 0 {
      FromBitsOfBits(n / 2, width - 1);
      assert BitsOf(n, width)[1..] == BitsOf(n / 2, width - 1);
    }
  }

  /** Assembling a bit sequence into a number and reading its bits back gives
      the sequence back. */
  lemma {:induction false} BitsOfFromBits(bits: seq<bool>)
    ensures FromBits(bits) < Pow2(|bits|)
    ensures BitsOf(FromBits(bits), |bits|) == bits
  {
    if |bits| > 0 {
      BitsOfFromBits(bits[1..]);
      var n := FromBits(bits);
      assert n / 2 == FromBits(bits[1..]);
      assert (n % 2 == 1) == bits[0];
      assert BitsOf(n, |bits|) == [bits[0]] + BitsOf(FromBits(bits[1..]), |bits| - 1);
    }
  }

  /** A byte and its eight least-significant-first bits determine each other. */
  lemma ByteBitsRoundTrip(b: Byte, bits: seq<bool>)
    requires |bits| == 8
    ensures FromBits(ByteBits(b)) == b
    ensures ByteBits(b) == bits <==> FromBits(bits) == b
  {
    assert Pow2(8) == 256;
    FromBitsOfBits(b, 8);
    BitsOfFromBits(bits);
  }
}
