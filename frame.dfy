/**
 * The request frame that `uartCmd.pack` lays out: device ID, its check
 * byte, the read/write flag, a 16-bit address and a 16-bit length, and for
 * writes a 32-bit data word, every field big-endian.
 */
module Frame {
  import opened Options
  import opened ByteCodec

  /** The device ID that starts every frame. */
  const UartId: byte := 0x31

  /** The check byte: the ID with all eight bits flipped, `id ^ 0xff`. */
  function CheckByte(id: byte): byte
  {
    ((id as bv8) ^ 0xFF) as byte
  }

  /** Byte k of x counted from the least significant: `(x >> 8k) & 0xff` on a Python int. */
  function ByteOf(x: int, k: nat): byte
  {
    (x / Pow256(k)) % 256
  }

  /** The k-byte big-endian field for x: ByteOf(x, k-1), ..., ByteOf(x, 0). */
  function Field(x: int, k: nat): (f: seq<byte>)
    ensures |f| == k
  {
    seq(k, i requires 0 <= i < k => ByteOf(x, k - 1 - i))
  }

  /** The frame for a flag rw that fits a byte: seven bytes for rw == 0, eleven otherwise. */
  function EncodeFrame(rw: byte, address: int, length: int, data: int): seq<byte>
  {
    [UartId, CheckByte(UartId), rw] + Field(address, 2) + Field(length, 2)
      + (if rw == 0 then [] else Field(data, 4))
  }

  /**
   * What `pack` produces as `bin_val`: a flag outside 0..255 makes
   * `struct.pack('B', ...)` raise, so no frame is produced.
   */
  function PackFrame(rw: int, address: int, length: int, data: int): Option<seq<byte>>
  {
    if 0 <= rw < 256 then Some(EncodeFrame(rw, address, length, data)) else None
  }

  /** The number of reply bytes `pack` asks for in `return_length`: length for reads, one ack byte otherwise. */
  function ReturnLength(rw: int, length: int): int
  {
    if rw == 0 then length else 1
  }

  /** The check byte of the device ID is 0xCE and flipping it again gives the ID back. */
  lemma CheckByteOfUartId()
    ensures CheckByte(UartId) == 0xCE
    ensures CheckByte(CheckByte(UartId)) == UartId
  {
  }

  /** Euclidean division is determined by its defining equation. */
  lemma DivModUnique(x: int, d: int, q: int, r: int)
    requires d > 0 && x == d * q + r && 0 <= r < d
    ensures x / d == q && x % d == r
  {
    var q', r' := x / d, x % d;
    assert d * (q' - q) == r - r' by {
      assert x == d * q' + r';
      MulSub(d, q', q);
    }
    if q' != q {
      MulAtLeast(d, if q' > q then q' - q else q - q');
      MulSub(d, q, q');
    }
  }

  /** Multiplication distributes over a difference. */
  lemma MulSub(d: int, a: int, b: int)
    ensures d * (a - b) == d * a - d * b
  {
  }

  /** A positive multiple of d is at least d. */
  lemma MulAtLeast(d: int, n: int)
    requires d > 0 && n >= 1
    ensures d * n >= d
  {
  }

  /** Taking 8(k+1) bits off x is taking 8 bits and then 8k more. */
  lemma ByteOfShift(x: int, k: nat)
    ensures ByteOf(x, k + 1) == ByteOf(x / 256, k)
  {
    var p := Pow256(k);
    var q, r := x / 256, x % 256;
    var q2, r2 := q / p, q % p;
    assert x == 256 * p * q2 + (256 * r2 + r) by {
      assert x == 256 * q + r;
      assert q == p * q2 + r2;
      assert 256 * q == 256 * p * q2 + 256 * r2;
    }
    assert 256 * r2 + r < 256 * p by {
      assert r2 <= p - 1;
      assert 256 * r2 <= 256 * p - 256;
    }
    DivModUnique(x, 256 * p, q2, 256 * r2 + r);
  }

  /** x modulo 256^(k+1) splits into x / 256 modulo 256^k and the low byte. */
  lemma ModSplit(x: int, k: nat)
    ensures x % Pow256(k + 1) == ((x / 256) % Pow256(k)) * 256 + x % 256
  {
    var p := Pow256(k);
    var q, r := x / 256, x % 256;
    var q2, r2 := q / p, q % p;
    assert x == 256 * p * q2 + (r2 * 256 + r) by {
      assert x == 256 * q + r;
      assert q == p * q2 + r2;
      assert 256 * q == 256 * p * q2 + 256 * r2;
    }
    assert r2 * 256 + r < 256 * p by {
      assert r2 <= p - 1;
      assert r2 * 256 <= 256 * p - 256;
    }
    DivModUnique(x, 256 * p, q2, r2 * 256 + r);
  }

  /** The bytes the frame fields take, with the shifts written out. */
  lemma ByteOfSmall(x: int)
    ensures ByteOf(x, 0) == x % 256
    ensures ByteOf(x, 1) == (x / 256) % 256
    ensures ByteOf(x, 2) == (x / 0x1_0000) % 256
    ensures ByteOf(x, 3) == (x / 0x100_0000) % 256
  {
    assert Pow256(0) == 1 && Pow256(1) == 256;
    assert Pow256(3) == 0x100_0000 && Pow256(2) == 0x1_0000;
    assert x / 1 == x;
  }

  /** A k-byte field decodes back to x modulo 256^k: the field keeps the low 8k bits of x. */
  lemma {:induction false} FieldValue(x: int, k: nat)
    ensures BigEndian(Field(x, k)) == x % Pow256(k)
    decreases k
  {
    if k > 0 {
      var f := Field(x, k);
      var g := Field(x / 256, k - 1);
      forall i | 0 <= i < k - 1
        ensures f[i] == g[i]
      {
        ByteOfShift(x, k - 2 - i);
      }
      assert f[..k - 1] == g;
      assert f[k - 1] == x % 256 by { ByteOfSmall(x); }
      assert f == f[..k - 1] + [f[k - 1]];
      BigEndianSnoc(g, x % 256);
      FieldValue(x / 256, k - 1);
      ModSplit(x, k - 1);
    }
  }

  /** x modulo m is x itself when x already lies in 0..m-1. */
  lemma ModInRange(x: int, m: int)
    requires 0 <= x < m
    ensures x % m == x
  {
    DivModUnique(x, m, 0, x);
  }

  /**
   * A read frame, whatever data word the object holds, is the seven bytes 31 CE 00, the address high and low
   * byte and the length high and low byte.
   */
  lemma ReadFrameLayout(address: int, length: int, data: int)
    ensures PackFrame(0, address, length, data).Some?
    ensures PackFrame(0, address, length, data).value
         == [0x31, 0xCE, 0x00,
             (address / 256) % 256, address % 256,
             (length / 256) % 256, length % 256]
    ensures ReturnLength(0, length) == length
  {
    var f := EncodeFrame(0, address, length, data);
    ByteOfSmall(address);
    ByteOfSmall(length);
    assert f == [0x31, 0xCE, 0x00] + Field(address, 2) + Field(length, 2);
  }

  /**
   * A frame with a non-zero flag that fits a byte is eleven bytes: the read
   * layout with the flag in byte 2, then the data word from its most to its
   * least significant byte; it asks for a single reply byte.
   */
  lemma WriteFrameLayout(rw: int, address: int, length: int, data: int)
    requires 0 < rw < 256
    ensures PackFrame(rw, address, length, data).Some?
    ensures PackFrame(rw, address, length, data).value
         == [0x31, 0xCE, rw,
             (address / 256) % 256, address % 256,
             (length / 256) % 256, length % 256,
             (data / 0x100_0000) % 256, (data / 0x1_0000) % 256,
             (data / 256) % 256, data % 256]
    ensures ReturnLength(rw, length) == 1
  {
    var f := EncodeFrame(rw, address, length, data);
    ByteOfSmall(address);
    ByteOfSmall(length);
    ByteOfSmall(data);
    assert f == [0x31, 0xCE, rw] + Field(address, 2) + Field(length, 2) + Field(data, 4);
  }

  /**
   * Decoding the fields of any frame recovers the address and the length
   * modulo 2^16 and, in a write frame, the data modulo 2^32.
   */
  lemma FrameFields(rw: byte, address: int, length: int, data: int)
    ensures var f := EncodeFrame(rw, address, length, data);
      |f| == (if rw == 0 then 7 else 11) &&
      f[0] == UartId && f[1] == 0xCE && f[2] == rw &&
      BigEndian(f[3..5]) == address % 0x1_0000 &&
      BigEndian(f[5..7]) == length % 0x1_0000 &&
      (rw != 0 ==> BigEndian(f[7..11]) == data % 0x1_0000_0000)
  {
    var f := EncodeFrame(rw, address, length, data);
    var head: seq<byte> := [UartId, CheckByte(UartId), rw];
    assert f[3..5] == Field(address, 2);
    assert f[5..7] == Field(length, 2);
    FieldValue(address, 2);
    FieldValue(length, 2);
    assert Pow256(2) == 0x1_0000;
    if rw != 0 {
      assert f[7..11] == Field(data, 4);
      FieldValue(data, 4);
      assert Pow256(4) == 0x1_0000_0000;
    }
  }

  /**
   * Round trip: for an address and a length below 2^16 and data below 2^32,
   * `bytes2Int` of frame bytes 3..4, 5..6 and 7..10 gives them back.
   */
  lemma FrameRoundTrip(rw: byte, address: int, length: int, data: int)
    requires 0 <= address < 0x1_0000 && 0 <= length < 0x1_0000
    requires 0 <= data < 0x1_0000_0000
    ensures var f := EncodeFrame(rw, address, length, data);
      ParsedValue(f[3..5]) == Some(address) &&
      ParsedValue(f[5..7]) == Some(length) &&
      (rw != 0 ==> ParsedValue(f[7..11]) == Some(data))
  {
    FrameFields(rw, address, length, data);
    ModInRange(address, 0x1_0000);
    ModInRange(length, 0x1_0000);
    ModInRange(data, 0x1_0000_0000);
  }
}
