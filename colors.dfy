/** The integer part of `hexToRgba`: a "#rrggbb" colour is read as one
    hexadecimal number and its three bytes are taken out with right
    shifts and a mask of 255. The alpha text is not modelled. */
module Colors {

  datatype Rgb = Rgb(r: int, g: int, b: int)

  predicate IsHexDigit(c: char) {
    '0' <= c <= '9' || 'a' <= c <= 'f' || 'A' <= c <= 'F'
  }

  function HexDigitValue(c: char): (d: nat)
    requires IsHexDigit(c)
    ensures d < 16
  {
    if '0' <= c <= '9' then (c - '0') as nat
    else if 'a' <= c <= 'f' then (c - 'a') as nat + 10
    else (c - 'A') as nat + 10
  }

  predicate AllHex(s: string) {
    forall i :: 0 <= i < |s| ==> IsHexDigit(s[i])
  }

  function Pow16(n: nat): (p: nat)
    ensures p >= 1
  {
    if n == 0 then 1 else 16 * Pow16(n - 1)
  }

  /** `parseInt(s, 16)` for a string of hexadecimal digits. */
  function HexValue(s: string): nat
    requires AllHex(s)
  {
    if s == [] then 0 else HexValue(s[..|s| - 1]) * 16 + HexDigitValue(s[|s| - 1])
  }

  /** n hex digits hold a value below 16^n. */
  lemma {:induction false} HexValueBound(s: string)
    requires AllHex(s)
    ensures HexValue(s) < Pow16(|s|)
  {
    if s != [] {
      var front := s[..|s| - 1];
      HexValueBound(front);
      var v, p := HexValue(front), Pow16(|front|);
      assert v <= p - 1;
      MulLe16(v, p - 1);
    }
  }

  lemma MulLe16(a: int, b: int)
    requires a <= b
    ensures a * 16 <= b * 16
  {
  }

  /** `replace('#', '')` with a string pattern: only the first '#' goes. */
  function StripHash(s: string): (r: string)
    ensures |r| == if '#' in s then |s| - 1 else |s|
    ensures '#' !in s ==> r == s
  {
    if s == [] then []
    else if s[0] == '#' then s[1..]
    else [s[0]] + StripHash(s[1..])
  }

  /** What comes before the first '#' and what comes after it are kept,
      in order; later '#' characters stay. */
  lemma {:induction false} StripHashFirst(a: string, b: string)
    requires '#' !in a
    ensures StripHash(a + "#" + b) == a + b
  {
    var x := a + "#" + b;
    if a != [] {
      assert x[0] == a[0] && a[0] != '#';
      assert x[1..] == a[1..] + "#" + b;
      StripHashFirst(a[1..], b);
      assert StripHash(x) == [a[0]] + (a[1..] + b);
      assert [a[0]] + (a[1..] + b) == a + b;
    } else {
      assert x == "#" + b;
      assert x[0] == '#' && x[1..] == b;
    }
  }

  /** The colours the phase tracker passes in: six hex digits once the
      hash is removed. */
  predicate IsHexColor(hex: string) {
    var n := StripHash(hex);
    |n| == 6 && AllHex(n)
  }

  /** `x >> k` on a non-negative 32-bit integer: the bits below position k
      are dropped, so the result times 2^k is x less fewer than 2^k. */
  function ShiftRight(x: nat, k: nat): (y: int)
    ensures 0 <= y && y * Pow2(k) <= x < y * Pow2(k) + Pow2(k)
  {
    DivBounds(x, Pow2(k));
    x / Pow2(k)
  }

  /** Whole division leaves less than one divisor over. */
  lemma DivBounds(x: nat, p: nat)
    requires p >= 1
    ensures 0 <= x / p && (x / p) * p <= x < (x / p) * p + p
  {
  }

  function Pow2(k: nat): (p: nat)
    ensures p >= 1
  {
    if k == 0 then 1 else 2 * Pow2(k - 1)
  }

  /** `x & 255`: the lowest byte, the part of x that a multiple of 256
      leaves over. */
  function MaskByte(x: int): (b: int)
    ensures 0 <= b < 256 && (x - b) % 256 == 0
  {
    x % 256
  }

  /** The channels are bytes, and shifting and masking takes apart the
      24-bit value: it is red * 65536 + green * 256 + blue. */
  function HexToRgb(hex: string): (c: Rgb)
    requires IsHexColor(hex)
    ensures 0 <= c.r < 256 && 0 <= c.g < 256 && 0 <= c.b < 256
    ensures c.r * 0x1_0000 + c.g * 0x100 + c.b == HexValue(StripHash(hex))
  {
    var bits := HexValue(StripHash(hex));
    HexValueBound(StripHash(hex));
    assert Pow16(6) == 0x100_0000;
    assert Pow2(8) == 0x100 && Pow2(16) == 0x1_0000;
    RecomposeBytes(bits);
    Rgb(MaskByte(ShiftRight(bits, 16)), MaskByte(ShiftRight(bits, 8)), MaskByte(bits))
  }

  lemma RecomposeBytes(v: nat)
    requires v < 0x100_0000
    ensures (v / 0x1_0000) % 256 == v / 0x1_0000 < 256
    ensures (v / 0x1_0000) * 0x1_0000 + ((v / 0x100) % 256) * 0x100 + v % 256 == v
  {
  }

  /** Reading digits one after another: the value of a concatenation. */
  lemma {:induction false} HexValueAppend(a: string, b: string)
    requires AllHex(a) && AllHex(b)
    ensures AllHex(a + b) && HexValue(a + b) == HexValue(a) * Pow16(|b|) + HexValue(b)
  {
    if b != [] {
      var ab, front := a + b, b[..|b| - 1];
      assert ab[..|ab| - 1] == a + front;
      HexValueAppend(a, front);
      var x, p, y, d := HexValue(a), Pow16(|front|), HexValue(front), HexDigitValue(b[|b| - 1]);
      calc {
        HexValue(ab);
        (x * p + y) * 16 + d;
        { ShiftDigit(x, p, y); }
        x * (p * 16) + (y * 16 + d);
        x * Pow16(|b|) + HexValue(b);
      }
    } else {
      assert a + b == a;
    }
  }

  lemma ShiftDigit(x: int, p: int, y: int)
    ensures (x * p + y) * 16 == x * (p * 16) + y * 16
  {
  }

  /** Two lower-case hex digits of a byte, as colours are written. */
  function HexChar(d: nat): (c: char)
    requires d < 16
    ensures IsHexDigit(c) && HexDigitValue(c) == d
  {
    if d < 10 then '0' + d as char else 'a' + (d - 10) as char
  }

  function ByteHex(x: nat): (s: string)
    requires x < 256
    ensures |s| == 2 && AllHex(s)
  {
    [HexChar(x / 16), HexChar(x % 16)]
  }

  function ColorHex(c: Rgb): (s: string)
    requires 0 <= c.r < 256 && 0 <= c.g < 256 && 0 <= c.b < 256
  {
    "#" + ByteHex(c.r) + ByteHex(c.g) + ByteHex(c.b)
  }

  lemma ByteHexValue(x: nat)
    requires x < 256
    ensures HexValue(ByteHex(x)) == x
  {
    var h := ByteHex(x);
    assert h[..1] == [HexChar(x / 16)];
    assert HexValue(h[..1]) == x / 16 by {
      assert h[..1][..0] == [];
    }
    assert HexValue(h) == (x / 16) * 16 + x % 16;
  }

  /** Taking apart red * 65536 + green * 256 + blue with shifts and masks. */
  lemma SplitBytes(r: nat, g: nat, b: nat)
    requires r < 256 && g < 256 && b < 256
    ensures var v := r * 0x1_0000 + g * 0x100 + b;
      MaskByte(ShiftRight(v, 16)) == r && MaskByte(ShiftRight(v, 8)) == g && MaskByte(v) == b
  {
    assert Pow2(8) == 0x100 && Pow2(16) == 0x1_0000;
    var v := r * 0x1_0000 + g * 0x100 + b;
    assert v / 0x100 == r * 0x100 + g;
    assert v / 0x1_0000 == r;
  }

  lemma ThreeBytesValue(r: nat, g: nat, b: nat)
    requires r < 256 && g < 256 && b < 256
    ensures AllHex(ByteHex(r) + ByteHex(g) + ByteHex(b))
    ensures HexValue(ByteHex(r) + ByteHex(g) + ByteHex(b)) == r * 0x1_0000 + g * 0x100 + b
  {
    var hr, hg, hb := ByteHex(r), ByteHex(g), ByteHex(b);
    HexValueAppend(hr, hg);
    HexValueAppend(hr + hg, hb);
    ByteHexValue(r);
    ByteHexValue(g);
    ByteHexValue(b);
    assert Pow16(2) == 0x100;
    assert HexValue(hr + hg) == r * 0x100 + g;
  }

  /** Writing a colour as "#rrggbb" and reading it with `hexToRgba` gives
      back its three channels. */
  lemma ColorRoundTrip(c: Rgb)
    requires 0 <= c.r < 256 && 0 <= c.g < 256 && 0 <= c.b < 256
    ensures IsHexColor(ColorHex(c)) && HexToRgb(ColorHex(c)) == c
  {
    var n := ByteHex(c.r) + ByteHex(c.g) + ByteHex(c.b);
    assert ColorHex(c) == "#" + n;
    assert StripHash("#" + n) == n;
    ThreeBytesValue(c.r, c.g, c.b);
    SplitBytes(c.r, c.g, c.b);
  }

  /** The four phase colours (Inhale, Hold, Exhale, Wait) and the bytes
      `hexToRgba` takes out of them for the phase tracker's soft colour. */
  const PhaseColors: seq<string> := ["#f97316", "#fbbf24", "#38bdf8", "#22c55e"]

  lemma PhaseColorBytes()
    ensures forall i :: 0 <= i < |PhaseColors| ==> IsHexColor(PhaseColors[i])
    ensures HexToRgb(PhaseColors[0]) == Rgb(249, 115, 22)
    ensures HexToRgb(PhaseColors[1]) == Rgb(251, 191, 36)
    ensures HexToRgb(PhaseColors[2]) == Rgb(56, 189, 248)
    ensures HexToRgb(PhaseColors[3]) == Rgb(34, 197, 94)
  {
    KnownColor(Rgb(249, 115, 22), 'f', '9', '7', '3', '1', '6');
    KnownColor(Rgb(251, 191, 36), 'f', 'b', 'b', 'f', '2', '4');
    KnownColor(Rgb(56, 189, 248), '3', '8', 'b', 'd', 'f', '8');
    KnownColor(Rgb(34, 197, 94), '2', '2', 'c', '5', '5', 'e');
  }

  /** A colour whose six hex digits are given one by one. */
  lemma KnownColor(c: Rgb, r1: char, r0: char, g1: char, g0: char, b1: char, b0: char)
    requires 0 <= c.r < 256 && 0 <= c.g < 256 && 0 <= c.b < 256
    requires HexChar(c.r / 16) == r1 && HexChar(c.r % 16) == r0
    requires HexChar(c.g / 16) == g1 && HexChar(c.g % 16) == g0
    requires HexChar(c.b / 16) == b1 && HexChar(c.b % 16) == b0
    ensures IsHexColor(['#', r1, r0, g1, g0, b1, b0])
    ensures HexToRgb(['#', r1, r0, g1, g0, b1, b0]) == c
  {
    assert ColorHex(c) == ['#', r1, r0, g1, g0, b1, b0];
    ColorRoundTrip(c);
  }
}
