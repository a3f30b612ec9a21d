/** Hexadecimal text as the scripts read and write it: Python's `int(s, 16)`
    and the fixed-width lower-case formats `{v:04x}` and `{v:02x}`. */
module Hex {
  import opened Text

  predicate IsHexDigit(c: char) {
    '0' <= c <= '9' || 'a' <= c <= 'f' || 'A' <= c <= 'F'
  }

  /** The digits `{:x}` writes. */
  predicate IsLowerHexDigit(c: char) {
    '0' <= c <= '9' || 'a' <= c <= 'f'
  }

  predicate AllHexDigits(s: string) {
    forall k :: 0 <= k < |s| ==> IsHexDigit(s[k])
  }

  function HexDigitValue(c: char): (d: nat)
    requires IsHexDigit(c)
    ensures d < 16
  {
    if '0' <= c <= '9' then c as int - '0' as int
    else if 'a' <= c <= 'f' then c as int - 'a' as int + 10
    else c as int - 'A' as int + 10
  }

  function Pow16(k: nat): (p: nat)
    ensures p >= 1
  {
    if k == 0 then 1 else 16 * Pow16(k - 1)
  }

  /** The value of a string of hex digits, most significant first; it is
      below 16 to the power of its length. */
  function HexValue(s: string): (n: nat)
    requires AllHexDigits(s)
    ensures n < Pow16(|s|)
  {
    if |s| == 0 then 0
    else HexValue(s[..|s| - 1]) * 16 + HexDigitValue(s[|s| - 1])
  }

  /** The lower-case digit for a value below 16. */
  function HexDigitChar(d: nat): (c: char)
    requires d < 16
    ensures IsLowerHexDigit(c) && HexDigitValue(c) == d
  {
    if d < 10 then ('0' as int + d) as char else ('a' as int + d - 10) as char
  }

  /** `f'{v:0{width}x}'` for a value that fits in `width` digits: exactly
      `width` lower-case digits that read back as `v`. */
  function HexPad(v: nat, width: nat): (s: string)
    requires v < Pow16(width)
    ensures |s| == width && AllHexDigits(s) && HexValue(s) == v
    ensures forall k :: 0 <= k < |s| ==> IsLowerHexDigit(s[k])
  {
    if width == 0 then ""
    else
      var s := HexPad(v / 16, width - 1) + [HexDigitChar(v % 16)];
      assert s[..|s| - 1] == HexPad(v / 16, width - 1);
      s
  }

  /** `f'{v:04x}'` for a 16-bit value. */
  function Hex4(v: nat): string
    requires v < 0x1_0000
  {
    HexPad(v, 4)
  }

  /** `f'{v:02x}'` for a byte. */
  function Hex2(v: nat): string
    requires v < 0x100
  {
    HexPad(v, 2)
  }

  /** Drops an optional `0x` / `0X` prefix. */
  function DropHexPrefix(u: string): string {
    if |u| >= 2 && u[0] == '0' && (u[1] == 'x' || u[1] == 'X') then u[2..] else u
  }

  /** Python's `int(s, 16)` without digit underscores: surrounding
      whitespace, an optional sign and an optional `0x` prefix around hex
      digits. `None` stands for the `ValueError` raised on an empty digit
      string or any other character; Python would also accept `ff_ff` and
      `0x_ff`, which read as `None` here. */
  function ParseHexInt(s: string): Option<int> {
    var (negative, u) := SignAndRest(Strip(s));
    var d := DropHexPrefix(u);
    if |d| > 0 && AllHexDigits(d) then Some(if negative then -(HexValue(d) as int) else HexValue(d))
    else None
  }

  /** A string of hex digits with nothing else around it has no whitespace to strip. */
  lemma StripDigits(s: string)
    requires |s| > 0 && AllHexDigits(s)
    requires forall k :: 0 <= k < |s| ==> !IsSpace(s[k])
    ensures Strip(s) == s
  {
    assert LeadingSpaces(s) == 0;
    assert !IsSpace(s[|s| - 1]);
  }

  /** A bare string of hex digits reads as its value. */
  lemma ParseHexDigits(s: string)
    requires |s| > 0 && AllHexDigits(s)
    ensures ParseHexInt(s) == Some(HexValue(s))
  {
    forall k | 0 <= k < |s| ensures !IsSpace(s[k]) {
      assert IsHexDigit(s[k]);
    }
    StripDigits(s);
    assert IsHexDigit(s[0]);
    assert SignAndRest(s) == (false, s);
    if |s| >= 2 {
      assert IsHexDigit(s[1]);
    }
    assert DropHexPrefix(s) == s;
  }

  /** Reading back a written field: `int(f'{v:0{w}x}', 16) == v`. */
  lemma ParseHexPad(v: nat, width: nat)
    requires width > 0 && v < Pow16(width)
    ensures ParseHexInt(HexPad(v, width)) == Some(v)
  {
    ParseHexDigits(HexPad(v, width));
  }

  lemma ParseHex4(v: nat)
    requires v < 0x1_0000
    ensures |Hex4(v)| == 4
    ensures ParseHexInt(Hex4(v)) == Some(v)
  {
    ParseHexPad(v, 4);
  }

  lemma DivMod16(v: nat, q: nat, r: nat)
    requires v == 16 * q + r && r < 16
    ensures v / 16 == q && v % 16 == r
  {
  }

  /** Widening a byte `p` to `p * 257` repeats its two hex digits:
      `f'{p * 257:04x}' == f'{p:02x}' * 2`. */
  lemma Hex4OfRepeatedByte(p: nat)
    requires p < 0x100
    ensures p * 257 < 0x1_0000
    ensures Hex4(p * 257) == Hex2(p) + Hex2(p)
  {
    var a, b := p / 16, p % 16;
    var v := p * 257;
    DivMod16(p, a, b);
    assert v == 16 * (256 * a + 16 * b + a) + b;
    DivMod16(v, 256 * a + 16 * b + a, b);
    DivMod16(256 * a + 16 * b + a, 16 * a + b, a);
    DivMod16(16 * a + b, a, b);
    assert a < 16;
    DivMod16(a, 0, a);
    assert HexPad(a, 1) == [HexDigitChar(a)];
    assert Hex2(p) == HexPad(a, 1) + [HexDigitChar(b)];
    var v1 := 256 * a + 16 * b + a;
    var v2 := 16 * a + b;
    assert HexPad(v1, 3) == HexPad(v2, 2) + [HexDigitChar(a)];
    assert Hex4(v) == HexPad(v1, 3) + [HexDigitChar(b)];
  }
}
