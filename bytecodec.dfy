/**
 * The response parser `bytes2Int` of uartserial.py: a big-endian
 * accumulation of the bytes the device sent back into one unsigned integer.
 */
module ByteCodec {
  import opened Options

  /** One octet, as the items of a Python `bytes` object. */
  type byte = b: int | 0 <= b < 256

  /** 256 to the power n: the number of values n bytes can hold. */
  function Pow256(n: nat): (p: nat)
    ensures p >= 1
  {
    if n == 0 then 1 else 256 * Pow256(n - 1)
  }

  /**
   * The big-endian value of s as a left fold: each byte shifts the bytes
   * before it up by eight bits, `acc = (acc << 8) + b`.
   */
  function BigEndian(s: seq<byte>): nat
  {
    if |s| == 0 then 0 else BigEndian(s[..|s| - 1]) * 256 + s[|s| - 1]
  }

  /** The positional sum of s[i] * 256^(n-1-i): the reading of s as base-256 digits. */
  function PositionalValue(s: seq<byte>): nat
  {
    if |s| == 0 then 0 else s[0] * Pow256(|s| - 1) + PositionalValue(s[1..])
  }

  /** What `bytes2Int` returns: nothing for no bytes, the big-endian value otherwise. */
  function ParsedValue(x: seq<byte>): Option<nat>
  {
    if |x| == 0 then None else Some(BigEndian(x))
  }

  /** k zero bytes. */
  function Zeros(k: nat): (z: seq<byte>)
    ensures |z| == k && forall i :: 0 <= i < k ==> z[i] == 0
  {
    if k == 0 then [] else [0] + Zeros(k - 1)
  }

  /**
   * `bytes2Int(x)`: None for an empty sequence, otherwise the bytes
   * accumulated from the first (most significant) to the last.
   */
  method Bytes2Int(x: seq<byte>) returns (r: Option<nat>)
    ensures r == ParsedValue(x)
    ensures r.None? <==> |x| == 0
    ensures r.Some? ==> r.value < Pow256(|x|)
  {
    if |x| == 0 {
      return None;
    }
    var received: nat := 0;
    for i := 0 to |x|
      invariant received == BigEndian(x[..i])
    {
      assert x[..i + 1][..i] == x[..i];
      // `received << 8` on a non-negative Python int is a multiplication by 256
      received := received * 256 + x[i];
    }
    assert x[..|x|] == x;
    BigEndianBound(x);
    return Some(received);
  }

  /** n bytes hold a value strictly below 256^n. */
  lemma {:induction false} BigEndianBound(s: seq<byte>)
    ensures BigEndian(s) < Pow256(|s|)
  {
    if |s| > 0 {
      var init := s[..|s| - 1];
      BigEndianBound(init);
      assert BigEndian(init) * 256 <= (Pow256(|init|) - 1) * 256;
    }
  }

  /** Appending a byte after the others shifts them up by one byte. */
  lemma BigEndianSnoc(s: seq<byte>, b: byte)
    ensures BigEndian(s + [b]) == BigEndian(s) * 256 + b
  {
    assert (s + [b])[..|s|] == s;
  }

  /** A leading byte a contributes a * 256^|t| to the value of [a] + t. */
  lemma {:induction false} BigEndianCons(a: byte, t: seq<byte>)
    ensures BigEndian([a] + t) == a * Pow256(|t|) + BigEndian(t)
  {
    if |t| > 0 {
      var init, z := t[..|t| - 1], t[|t| - 1];
      assert t == init + [z];
      assert [a] + t == ([a] + init) + [z];
      BigEndianSnoc([a] + init, z);
      BigEndianCons(a, init);
      BigEndianSnoc(init, z);
      calc {
        BigEndian([a] + t);
        BigEndian([a] + init) * 256 + z;
        (a * Pow256(|init|) + BigEndian(init)) * 256 + z;
        { assert (a * Pow256(|init|)) * 256 == a * (256 * Pow256(|init|)); }
        a * Pow256(|t|) + (BigEndian(init) * 256 + z);
      }
    }
  }

  /** The left fold computes exactly the positional sum of the bytes. */
  lemma {:induction false} BigEndianIsPositional(s: seq<byte>)
    ensures BigEndian(s) == PositionalValue(s)
  {
    if |s| > 0 {
      assert s == [s[0]] + s[1..];
      BigEndianCons(s[0], s[1..]);
      BigEndianIsPositional(s[1..]);
    }
  }

  /** Prepending zero bytes leaves the value unchanged. */
  lemma {:induction false} LeadingZeros(k: nat, s: seq<byte>)
    ensures BigEndian(Zeros(k) + s) == BigEndian(s)
  {
    if k > 0 {
      var t := Zeros(k - 1) + s;
      assert Zeros(k) + s == [0] + t;
      BigEndianCons(0, t);
      LeadingZeros(k - 1, s);
    } else {
      assert Zeros(k) + s == s;
    }
  }

  /** The examples of the parser's behaviour: empty, one, two and four bytes. */
  lemma ParseExamples()
    ensures ParsedValue([]) == None
    ensures ParsedValue([0x00, 0x00, 0x00, 0x01]) == Some(1)
    ensures ParsedValue([0xFF]) == Some(255)
    ensures ParsedValue([0x01, 0x00]) == Some(256)
  {
    BigEndianSnoc([], 0x01);
    BigEndianSnoc([0x01], 0x00);
    BigEndianSnoc([], 0xFF);
    var z3: seq<byte> := [0x00, 0x00, 0x00];
    assert [0x00, 0x00, 0x00, 0x01] == z3 + [0x01];
    BigEndianSnoc(z3, 0x01);
    assert Zeros(3) + [] == z3;
    LeadingZeros(3, []);
  }
}
