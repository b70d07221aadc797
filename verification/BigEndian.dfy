/** Fixed-width and bare big-endian numbers, and lowercase hex. */
module BigEndian {
  import opened ByteStrings

  function Pow256(n: nat): nat {
    if n == 0 then 1 else 256 * Pow256(n - 1)
  }

  /** The number's low `width` bytes, high byte first. */
  function Encode(n: nat, width: nat): (s: ByteString)
    ensures |s| == width
  {
    if width == 0 then [] else Encode(n / 256, width - 1) + [n % 256]
  }

  function Decode(s: ByteString): nat {
    if s == [] then 0 else 256 * Decode(s[..|s| - 1]) + s[|s| - 1]
  }

  lemma {:induction false} DecodeEncode(n: nat, width: nat)
    ensures n < Pow256(width) ==> Decode(Encode(n, width)) == n
  {
    if width > 0 {
      DecodeEncode(n / 256, width - 1);
      assert Encode(n, width)[..width - 1] == Encode(n / 256, width - 1);
    }
  }

  lemma {:induction false} EncodeDecode(s: ByteString)
    ensures Decode(s) < Pow256(|s|) && Encode(Decode(s), |s|) == s
  {
    if s != [] {
      var high := s[..|s| - 1];
      EncodeDecode(high);
      assert Decode(s) / 256 == Decode(high) && Decode(s) % 256 == s[|s| - 1];
    }
  }

  lemma Widths()
    ensures Pow256(4) == 0x1_0000_0000 && Pow256(8) == 0x1_0000_0000_0000_0000
  {
    assert Pow256(0) == 1 && Pow256(1) == 256 && Pow256(2) == 65536 && Pow256(3) == 0x100_0000;
    assert Pow256(5) == 256 * Pow256(4) && Pow256(6) == 256 * Pow256(5) && Pow256(7) == 256 * Pow256(6);
  }

  function HexDigit(d: nat): Byte
    requires d < 16
  {
    if d < 10 then 48 + d else 87 + d
  }

  predicate IsHexDigit(b: Byte) { 48 <= b <= 57 || 97 <= b <= 102 }

  function HexValue(b: Byte): (d: nat)
    requires IsHexDigit(b)
    ensures d < 16 && HexDigit(d) == b
  {
    if b <= 57 then b - 48 else b - 87
  }

  /** `toString("hex")` */
  function Hex(s: ByteString): (h: ByteString)
    ensures |h| == 2 * |s|
    ensures forall i :: 0 <= i < |h| ==> IsHexDigit(h[i])
  {
    if s == [] then [] else [HexDigit(s[0] / 16), HexDigit(s[0] % 16)] + Hex(s[1..])
  }

  predicate IsHex(h: ByteString) {
    forall i :: 0 <= i < |h| ==> IsHexDigit(h[i])
  }

  /** `Buffer.from(h, "hex")` of an even number of hex digits */
  function Unhex(h: ByteString): (s: ByteString)
    requires IsHex(h) && |h| % 2 == 0
    ensures |s| == |h| / 2
    decreases |h|
  {
    if h == [] then [] else [16 * HexValue(h[0]) + HexValue(h[1])] + Unhex(h[2..])
  }

  lemma {:induction false} UnhexHex(s: ByteString)
    ensures Unhex(Hex(s)) == s
  {
    if s != [] {
      UnhexHex(s[1..]);
      assert Hex(s)[2..] == Hex(s[1..]);
    }
  }

  lemma {:induction false} HexUnhex(h: ByteString)
    requires IsHex(h) && |h| % 2 == 0
    ensures Hex(Unhex(h)) == h
    decreases |h|
  {
    if h != [] {
      HexUnhex(h[2..]);
      assert Unhex(h)[1..] == Unhex(h[2..]);
    }
  }
}
