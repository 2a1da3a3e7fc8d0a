// Base 32 encoding of RFC 4648 (section 6, "base32", the standard alphabet),
// without padding: what base32.StdEncoding.WithPadding(base32.NoPadding)
// produces. The input is read as one bit string, most significant bit of
// each byte first, cut into 5-bit groups; the last group is completed with
// zero bits and no '=' padding follows.
module Base32 {
  import opened Common

  /** The 32 symbols of the alphabet: 'A'..'Z' then '2'..'7'. */
  predicate IsSymbol(c: char) {
    'A' <= c <= 'Z' || '2' <= c <= '7'
  }

  /** The symbol of a 5-bit value (table 3 of RFC 4648). */
  function Symbol(v: nat): (c: char)
    requires v < 32
    ensures IsSymbol(c)
    ensures v < 26 ==> c as int == 'A' as int + v
    ensures 26 <= v ==> c as int == '2' as int + (v - 26)
  {
    if v < 26 then ('A' as int + v) as char else ('2' as int + (v - 26)) as char
  }

  /** The 5-bit value of a symbol; the inverse of Symbol. */
  function SymbolValue(c: char): (v: nat)
    requires IsSymbol(c)
    ensures v < 32 && Symbol(v) == c
  {
    if 'A' <= c <= 'Z' then c as int - 'A' as int else c as int - '2' as int + 26
  }

  lemma SymbolValueOfSymbol(v: nat)
    requires v < 32
    ensures SymbolValue(Symbol(v)) == v
  {
  }

  function Zeros(n: nat): (z: seq<bool>)
    ensures |z| == n && forall i :: 0 <= i < n ==> !z[i]
  {
    seq(n, _ => false)
  }

  function Bit(b: bool): nat { if b then 1 else 0 }

  function Pow2(n: nat): (p: nat)
    ensures p >= 1
  {
    if n == 0 then 1 else 2 * Pow2(n - 1)
  }

  /** The `width` low bits of `v`, most significant first. */
  function BitsOfNat(v: nat, width: nat): (bits: seq<bool>)
    ensures |bits| == width
  {
    if width == 0 then [] else BitsOfNat(v / 2, width - 1) + [v % 2 == 1]
  }

  /** The number a bit string denotes, most significant bit first. */
  function NatOfBits(bits: seq<bool>): (v: nat)
    ensures v < Pow2(|bits|)
  {
    if bits == [] then 0 else 2 * NatOfBits(bits[..|bits| - 1]) + Bit(bits[|bits| - 1])
  }

  lemma {:induction false} NatOfBitsOfNat(v: nat, width: nat)
    requires v < Pow2(width)
    ensures NatOfBits(BitsOfNat(v, width)) == v
  {
    if width > 0 {
      NatOfBitsOfNat(v / 2, width - 1);
      var bits := BitsOfNat(v, width);
      assert bits[..|bits| - 1] == BitsOfNat(v / 2, width - 1);
    }
  }

  lemma {:induction false} BitsOfNatOfBits(bits: seq<bool>)
    ensures BitsOfNat(NatOfBits(bits), |bits|) == bits
  {
    if bits != [] {
      var init := bits[..|bits| - 1];
      BitsOfNatOfBits(init);
      assert NatOfBits(bits) / 2 == NatOfBits(init);
      assert bits == init + [bits[|bits| - 1]];
    }
  }

  /** The eight bits of a byte, most significant first. */
  function ByteBits(b: Byte): (bits: seq<bool>)
    ensures |bits| == 8
  {
    BitsOfNat(b, 8)
  }

  function ByteOfBits(bits: seq<bool>): Byte
    requires |bits| == 8
  {
    assert Pow2(8) == 256;
    NatOfBits(bits)
  }

  lemma ByteBitsRoundTrip(b: Byte)
    ensures ByteOfBits(ByteBits(b)) == b
  {
    assert Pow2(8) == 256;
    NatOfBitsOfNat(b, 8);
  }

  /** The value of a 5-bit group, most significant bit first. */
  function GroupValue(g: seq<bool>): (v: nat)
    requires |g| == 5
    ensures v < 32
  {
    assert Pow2(5) == 32;
    NatOfBits(g)
  }

  function GroupBits(v: nat): (g: seq<bool>)
    requires v < 32
    ensures |g| == 5
  {
    BitsOfNat(v, 5)
  }

  lemma GroupRoundTrip(g: seq<bool>)
    requires |g| == 5
    ensures GroupBits(GroupValue(g)) == g
  {
    BitsOfNatOfBits(g);
  }

  /** The bit string of a byte string. */
  function BitsOf(bytes: seq<Byte>): (bits: seq<bool>)
    ensures |bits| == 8 * |bytes|
  {
    if bytes == [] then [] else ByteBits(bytes[0]) + BitsOf(bytes[1..])
  }

  /** Encoding of a bit string: one symbol per 5-bit group, the last group
      filled up with zero bits. */
  function EncodeBits(bits: seq<bool>): (s: string)
    ensures |s| == (|bits| + 4) / 5
    ensures forall i :: 0 <= i < |s| ==> IsSymbol(s[i])
    decreases |bits|
  {
    if bits == [] then []
    else if |bits| <= 5 then [Symbol(GroupValue(bits + Zeros(5 - |bits|)))]
    else [Symbol(GroupValue(bits[..5]))] + EncodeBits(bits[5..])
  }

  /** EncodeToString of the unpadded standard encoding. */
  function Encode(bytes: seq<Byte>): (s: string)
    ensures |s| == (8 * |bytes| + 4) / 5
    ensures forall i :: 0 <= i < |s| ==> IsSymbol(s[i])
  {
    EncodeBits(BitsOf(bytes))
  }

  /** Sixteen random bytes always encode to 26 symbols. */
  lemma EncodeSixteen(bytes: seq<Byte>)
    requires |bytes| == 16
    ensures |Encode(bytes)| == 26
  {
  }

  // ---- Decoding: the inverse, used to show that the encoding loses nothing.

  /** The bit string carried by a string of symbols. */
  function SymbolBits(s: string): (bits: seq<bool>)
    requires forall i :: 0 <= i < |s| ==> IsSymbol(s[i])
    ensures |bits| == 5 * |s|
  {
    if s == [] then [] else GroupBits(SymbolValue(s[0])) + SymbolBits(s[1..])
  }

  /** The whole bytes of a bit string; fewer than 8 trailing bits are dropped. */
  function BytesOf(bits: seq<bool>): (bytes: seq<Byte>)
    ensures |bytes| == |bits| / 8
    decreases |bits|
  {
    if |bits| < 8 then [] else [ByteOfBits(bits[..8])] + BytesOf(bits[8..])
  }

  function Decode(s: string): (r: Option<seq<Byte>>)
    ensures r.Some? <==> forall i :: 0 <= i < |s| ==> IsSymbol(s[i])
  {
    if forall i :: 0 <= i < |s| ==> IsSymbol(s[i]) then Some(BytesOf(SymbolBits(s))) else None
  }

  lemma {:induction false} SymbolBitsAppend(a: string, b: string)
    requires forall i :: 0 <= i < |a| ==> IsSymbol(a[i])
    requires forall i :: 0 <= i < |b| ==> IsSymbol(b[i])
    ensures forall i :: 0 <= i < |a + b| ==> IsSymbol((a + b)[i])
    ensures SymbolBits(a + b) == SymbolBits(a) + SymbolBits(b)
  {
    if a == [] {
      assert a + b == b;
    } else {
      assert (a + b)[1..] == a[1..] + b;
      SymbolBitsAppend(a[1..], b);
    }
  }

  /** Decoding the symbols of a bit string gives the bits back, followed by
      the fewer than five zero bits that completed the last group. */
  lemma {:induction false} SymbolBitsOfEncodeBits(bits: seq<bool>)
    ensures exists k :: 0 <= k < 5 && SymbolBits(EncodeBits(bits)) == bits + Zeros(k)
    decreases |bits|
  {
    if bits == [] {
      assert SymbolBits(EncodeBits(bits)) == bits + Zeros(0);
    } else if |bits| <= 5 {
      var g := bits + Zeros(5 - |bits|);
      GroupRoundTrip(g);
      SymbolValueOfSymbol(GroupValue(g));
      assert SymbolBits(EncodeBits(bits)) == GroupBits(GroupValue(g)) + SymbolBits([]);
      assert SymbolBits(EncodeBits(bits)) == bits + Zeros(5 - |bits|);
    } else {
      var head := [Symbol(GroupValue(bits[..5]))];
      var tail := EncodeBits(bits[5..]);
      SymbolBitsAppend(head, tail);
      GroupRoundTrip(bits[..5]);
      SymbolValueOfSymbol(GroupValue(bits[..5]));
      assert SymbolBits(head) == bits[..5];
      SymbolBitsOfEncodeBits(bits[5..]);
      var k :| 0 <= k < 5 && SymbolBits(tail) == bits[5..] + Zeros(k);
      calc {
        SymbolBits(EncodeBits(bits));
        SymbolBits(head + tail);
        bits[..5] + (bits[5..] + Zeros(k));
        { assert bits[..5] + bits[5..] == bits; }
        bits + Zeros(k);
      }
    }
  }

  /** Reading whole bytes back from the bit string of some bytes followed by
      fewer than eight bits gives the bytes. */
  lemma {:induction false} BytesOfBitsOf(bytes: seq<Byte>, z: seq<bool>)
    requires |z| < 8
    ensures BytesOf(BitsOf(bytes) + z) == bytes
  {
    if bytes == [] {
      assert BitsOf(bytes) + z == z;
    } else {
      var bits := BitsOf(bytes) + z;
      assert bits[..8] == ByteBits(bytes[0]);
      assert bits[8..] == BitsOf(bytes[1..]) + z;
      ByteBitsRoundTrip(bytes[0]);
      BytesOfBitsOf(bytes[1..], z);
    }
  }

  /** Decode is a left inverse of Encode. */
  lemma DecodeEncode(bytes: seq<Byte>)
    ensures Decode(Encode(bytes)) == Some(bytes)
  {
    SymbolBitsOfEncodeBits(BitsOf(bytes));
    var k :| 0 <= k < 5 && SymbolBits(Encode(bytes)) == BitsOf(bytes) + Zeros(k);
    BytesOfBitsOf(bytes, Zeros(k));
  }

  /** So distinct byte strings never share an encoding. */
  lemma EncodeInjective(a: seq<Byte>, b: seq<Byte>)
    requires Encode(a) == Encode(b)
    ensures a == b
  {
    DecodeEncode(a);
    DecodeEncode(b);
  }
}
