/**
 * Identifiers. A `Uuid` is a 128-bit number; its `Display` form is the
 * hyphenated lower-case hexadecimal text of 32 digits grouped 8-4-4-4-12.
 */
module Uuids {

  const UUID_BOUND: nat := 0x1_0000_0000_0000_0000_0000_0000_0000_0000

  type Uuid = n: nat | n < UUID_BOUND

  function Pow16(w: nat): (p: nat)
    ensures p > 0
  {
    if w == 0 then 1 else 16 * Pow16(w - 1)
  }

  lemma {:induction false} Pow16Add(a: nat, b: nat)
    ensures Pow16(a + b) == Pow16(a) * Pow16(b)
  {
    if a > 0 {
      Pow16Add(a - 1, b);
    }
  }

  lemma Pow16Is128Bits()
    ensures Pow16(32) == UUID_BOUND
  {
    assert Pow16(2) == 256;
    Pow16Add(2, 2);
    Pow16Add(4, 4);
    Pow16Add(8, 8);
    Pow16Add(16, 16);
  }

  function HexDigit(d: nat): (c: char)
    requires d < 16
  {
    if d < 10 then ('0' as int + d) as char else ('a' as int + d - 10) as char
  }

  function DigitValue(c: char): nat {
    if '0' <= c <= '9' then c as int - '0' as int
    else if 'a' <= c <= 'f' then c as int - 'a' as int + 10
    else 0
  }

  /** The `w` lowest hexadecimal digits of `n`, most significant first. */
  function Hex(n: nat, w: nat): (s: string)
    ensures |s| == w
  {
    if w == 0 then [] else Hex(n / 16, w - 1) + [HexDigit(n % 16)]
  }

  function Unhex(s: string): nat {
    if s == [] then 0 else Unhex(s[..|s| - 1]) * 16 + DigitValue(s[|s| - 1])
  }

  /** Reading the digits back gives the number: `Hex` loses nothing below its width. */
  lemma {:induction false} UnhexHex(n: nat, w: nat)
    requires n < Pow16(w)
    ensures Unhex(Hex(n, w)) == n
  {
    if w > 0 {
      var s := Hex(n, w);
      assert s[..|s| - 1] == Hex(n / 16, w - 1);
      UnhexHex(n / 16, w - 1);
    }
  }

  /** `Uuid`'s `Display`: hyphenated lower-case hexadecimal. */
  function UuidText(u: Uuid): (t: string)
    ensures |t| == 36
  {
    var h := Hex(u, 32);
    h[..8] + "-" + h[8..12] + "-" + h[12..16] + "-" + h[16..20] + "-" + h[20..]
  }

  /** The digits of a uuid's text, with the hyphens taken out. */
  function UuidDigits(t: string): string
    requires |t| == 36
  {
    t[..8] + t[9..13] + t[14..18] + t[19..23] + t[24..]
  }

  /** Distinct ids display differently. */
  lemma UuidTextInjective(a: Uuid, b: Uuid)
    requires UuidText(a) == UuidText(b)
    ensures a == b
  {
    var ha, hb := Hex(a, 32), Hex(b, 32);
    assert UuidDigits(UuidText(a)) == ha by {
      assert ha == ha[..8] + ha[8..12] + ha[12..16] + ha[16..20] + ha[20..];
    }
    assert UuidDigits(UuidText(b)) == hb by {
      assert hb == hb[..8] + hb[8..12] + hb[12..16] + hb[16..20] + hb[20..];
    }
    Pow16Is128Bits();
    UnhexHex(a, 32);
    UnhexHex(b, 32);
  }
}
