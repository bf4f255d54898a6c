/** The conversion of typed characters to UTF-8, and where it leaves RFC 3629. */
module Utf8 {
  import opened Bytes

  /** The six low-order bits, and the others. */
  function Low(c: nat): nat { c % 64 }
  function High(c: nat): nat { c / 64 }

  /** UTF32toUTF8 with room for five bytes. */
  function Utf32ToUtf8(c: nat): (r: seq<byte>)
    ensures 1 <= |r| <= 4
  {
    if c <= 0x7F then [c]
    else if c <= 0x7FF then [0xC0 + High(c), 0x80 + Low(c)]
    else if c <= 0xFFFF then [0xE0 + High(High(c)), 0x80 + High(c) % 32, 0x80 + Low(c)]
    else if c <= 0x10FFFF then
      [0xF0 + High(High(High(c))), 0x80 + Low(High(High(c))), 0x80 + Low(High(c)), 0x80 + Low(c)]
    else [c % 256]
  }

  /** Section 3 of RFC 3629. */
  function Standard(c: nat): (r: seq<byte>)
    requires c <= 0x10FFFF
    ensures 1 <= |r| <= 4
  {
    if c <= 0x7F then [c]
    else if c <= 0x7FF then [0xC0 + High(c), 0x80 + Low(c)]
    else if c <= 0xFFFF then [0xE0 + High(High(c)), 0x80 + Low(High(c)), 0x80 + Low(c)]
    else [0xF0 + High(High(High(c))), 0x80 + Low(High(High(c))), 0x80 + Low(High(c)), 0x80 + Low(c)]
  }

  /** Six more bits. */
  function Next(v: nat, b: byte): nat { v * 64 + Low(b) }

  /** The first character of a text and the bytes after it. */
  function Decode(s: seq<byte>): (r: (nat, seq<byte>))
    requires s != []
  {
    if s[0] >= 0xF0 && |s| >= 4 then (Next(Next(Next(s[0] - 0xF0, s[1]), s[2]), s[3]), s[4..])
    else if s[0] >= 0xE0 && |s| >= 3 then (Next(Next(s[0] - 0xE0, s[1]), s[2]), s[3..])
    else if s[0] >= 0xC0 && |s| >= 2 then (Next(s[0] - 0xC0, s[1]), s[2..])
    else (s[0], s[1..])
  }

  lemma NextOfHigh(c: nat)
    ensures Low(c) < 64 && Next(High(c), 0x80 + Low(c)) == c
  {
  }

  lemma StandardRoundTrip(c: nat, rest: seq<byte>)
    requires c <= 0x10FFFF
    ensures Decode(Standard(c) + rest) == (c, rest)
  {
    NextOfHigh(c);
    NextOfHigh(High(c));
    NextOfHigh(High(High(c)));
    DecodeParts(Standard(c), rest);
  }

  lemma DecodeParts(s: seq<byte>, rest: seq<byte>)
    requires 1 <= |s| <= 4
    requires |s| == if s[0] >= 0xF0 then 4 else if s[0] >= 0xE0 then 3 else if s[0] >= 0xC0 then 2 else 1
    ensures Decode(s + rest) == (Decode(s).0, rest)
  {
    var t := s + rest;
    assert t[|s|..] == rest;
    assert t[0] == s[0] && (|s| > 1 ==> t[1] == s[1]) && (|s| > 2 ==> t[2] == s[2]) && (|s| > 3 ==> t[3] == s[3]);
  }

  /** Bit 11 is lost when the encoding takes three bytes. */
  predicate LosesBit(c: nat) { 0x800 <= c <= 0xFFFF && High(c) / 32 % 2 == 1 }

  lemma LowBits(h: nat)
    ensures Low(h) == h % 32 + if h / 32 % 2 == 1 then 32 else 0
  {
  }

  /** The conversion is the standard one exactly for the characters that do not have that bit. */
  lemma StandardUnlessBitLost(c: nat)
    requires c <= 0x10FFFF
    ensures |Utf32ToUtf8(c)| == |Standard(c)|
    ensures Utf32ToUtf8(c) == Standard(c) <==> !LosesBit(c)
  {
    LowBits(High(c));
    if 0x800 <= c <= 0xFFFF {
      assert Utf32ToUtf8(c)[1] == Standard(c)[1] <==> !LosesBit(c);
    }
  }

  /** Such a character reads back as the one without the bit. */
  lemma LostBitReadsBack(c: nat, rest: seq<byte>)
    requires LosesBit(c)
    ensures Decode(Utf32ToUtf8(c) + rest) == (c - 0x800, rest)
  {
    LowBits(High(c));
    NextOfHigh(c);
    NextOfHigh(High(c));
    DecodeParts(Utf32ToUtf8(c), rest);
  }
}
