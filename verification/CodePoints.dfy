/** Characters as section 3 of RFC 3629 encodes them, against the byte tables of its section 4. */
module CodePoints {
  import opened Utf8

  /** A code point that is no surrogate. */
  predicate IsScalar(c: int) {
    0 <= c < 0xD800 || 0xE000 <= c <= 0x10FFFF
  }

  function Encoded(c: int): Bytes
    requires IsScalar(c)
  {
    if c < 0x80 then [c]
    else if c < 0x800 then [0xC0 + c / 64, 0x80 + c % 64]
    else if c < 0x1_0000 then [0xE0 + c / 4096, 0x80 + c / 64 % 64, 0x80 + c % 64]
    else [0xF0 + c / 0x4_0000, 0x80 + c / 4096 % 64, 0x80 + c / 64 % 64, 0x80 + c % 64]
  }

  lemma TwoDigits(a: nat, b: nat)
    requires b < 64
    ensures (64 * a + b) / 64 == a && (64 * a + b) % 64 == b
  {
  }

  lemma ThreeDigits(a: nat, b: nat, c: nat)
    requires b < 64 && c < 64
    ensures var n := 4096 * a + 64 * b + c; n / 4096 == a && n / 64 % 64 == b && n % 64 == c
  {
    TwoDigits(64 * a + b, c);
    TwoDigits(a, b);
  }

  lemma FourDigits(a: nat, b: nat, c: nat, d: nat)
    requires b < 64 && c < 64 && d < 64
    ensures var n := 0x4_0000 * a + 4096 * b + 64 * c + d;
            n / 0x4_0000 == a && n / 4096 % 64 == b && n / 64 % 64 == c && n % 64 == d
  {
    TwoDigits(4096 * a + 64 * b + c, d);
    ThreeDigits(a, b, c);
  }

  /** The character s starts with, from the payload bits of its bytes. */
  function CodePoint(s: Bytes): int
    requires RuneLen(s) > 0
  {
    match RuneLen(s)
    case 1 => Bits(s, 0, 0)
    case 2 => 64 * Bits(s, 0, 0xC0) + Bits(s, 1, 0x80)
    case 3 => 4096 * Bits(s, 0, 0xE0) + 64 * Bits(s, 1, 0x80) + Bits(s, 2, 0x80)
    case _ => 0x4_0000 * Bits(s, 0, 0xF0) + 4096 * Bits(s, 1, 0x80) + 64 * Bits(s, 2, 0x80) + Bits(s, 3, 0x80)
  }

  function Bits(s: Bytes, i: nat, mark: int): int
    requires i < |s|
  {
    s[i] as int - mark
  }

  lemma TwoDecode(s: Bytes)
    requires RuneLen(s) == 2
    ensures IsScalar(CodePoint(s)) && Encoded(CodePoint(s)) == s[..2]
  {
    TwoDigits(Bits(s, 0, 0xC0), Bits(s, 1, 0x80));
  }

  lemma ThreeDecode(s: Bytes)
    requires RuneLen(s) == 3
    ensures IsScalar(CodePoint(s)) && Encoded(CodePoint(s)) == s[..3]
  {
    ThreeDigits(Bits(s, 0, 0xE0), Bits(s, 1, 0x80), Bits(s, 2, 0x80));
  }

  lemma FourDecode(s: Bytes)
    requires RuneLen(s) == 4
    ensures IsScalar(CodePoint(s)) && Encoded(CodePoint(s)) == s[..4]
  {
    FourDigits(Bits(s, 0, 0xF0), Bits(s, 1, 0x80), Bits(s, 2, 0x80), Bits(s, 3, 0x80));
  }

  lemma RuneDecodes(s: Bytes)
    requires RuneLen(s) > 0
    ensures IsScalar(CodePoint(s)) && Encoded(CodePoint(s)) == s[..RuneLen(s)]
  {
    match RuneLen(s)
    case 1 =>
    case 2 => TwoDecode(s);
    case 3 => ThreeDecode(s);
    case _ => FourDecode(s);
  }

  lemma ThreeParts(c: nat)
    ensures c == 4096 * (c / 4096) + 64 * (c / 64 % 64) + c % 64
  {
    assert c / 64 == 64 * (c / 4096) + c / 64 % 64;
  }

  lemma FourParts(c: nat)
    ensures c == 0x4_0000 * (c / 0x4_0000) + 4096 * (c / 4096 % 64) + 64 * (c / 64 % 64) + c % 64
  {
    ThreeParts(c);
    assert c / 4096 == 64 * (c / 0x4_0000) + c / 4096 % 64;
  }

  lemma ShortStarts(c: int, s: Bytes)
    requires 0 <= c < 0x800 && Encoded(c) <= s
    ensures RuneLen(s) == |Encoded(c)|
  {
    assert forall i :: 0 <= i < |Encoded(c)| ==> s[i] == Encoded(c)[i];
  }

  lemma ThreeStart(c: int, s: Bytes)
    requires 0x800 <= c < 0x1_0000 && IsScalar(c) && Encoded(c) <= s
    ensures RuneLen(s) == 3
  {
    ThreeParts(c);
    assert s[0] == Encoded(c)[0] && s[1] == Encoded(c)[1] && s[2] == Encoded(c)[2];
  }

  lemma FourStart(c: int, s: Bytes)
    requires 0x1_0000 <= c && IsScalar(c) && Encoded(c) <= s
    ensures RuneLen(s) == 4
  {
    FourParts(c);
    assert s[0] == Encoded(c)[0] && s[1] == Encoded(c)[1] && s[2] == Encoded(c)[2] && s[3] == Encoded(c)[3];
  }

  lemma EncodedStarts(c: int, s: Bytes)
    requires IsScalar(c) && Encoded(c) <= s
    ensures RuneLen(s) == |Encoded(c)|
  {
    if c < 0x800 {
      ShortStarts(c, s);
    } else if c < 0x1_0000 {
      ThreeStart(c, s);
    } else {
      FourStart(c, s);
    }
  }

  /** A character starts s exactly when s starts with the encoding of a code point, and that long. */
  lemma RuneIsEncoded(s: Bytes)
    ensures RuneLen(s) > 0 <==> exists c :: IsScalar(c) && Encoded(c) <= s
    ensures forall c :: IsScalar(c) && Encoded(c) <= s ==> RuneLen(s) == |Encoded(c)|
  {
    if RuneLen(s) > 0 {
      RuneDecodes(s);
    }
    forall c | IsScalar(c) && Encoded(c) <= s ensures RuneLen(s) == |Encoded(c)| {
      EncodedStarts(c, s);
    }
  }
}
