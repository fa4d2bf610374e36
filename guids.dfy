/** `System.Guid` as a 128-bit number read in the order its text form shows. */
module Guids {
  import opened Text

  const GuidBound: nat := 0x1_0000_0000_0000_0000_0000_0000_0000_0000

  type Guid = g: nat | g < GuidBound

  /** `Guid.Empty`, the all-zero identifier every entity check rejects. */
  const Empty: Guid := 0

  /** The first 32 bits, the first group of the text form. */
  function Head(g: Guid): nat {
    g / 0x1_0000_0000_0000_0000_0000_0000
  }

  /** `Guid.ToString()`: 32 lower-case hexadecimal digits grouped 8-4-4-4-12. */
  function GuidText(g: Guid): (s: string)
    ensures |s| == 36
    ensures s[8] == '-' && s[13] == '-' && s[18] == '-' && s[23] == '-'
  {
    HexPad(Head(g), 8) + "-" +
    HexPad(g / 0x1_0000_0000_0000_0000_0000 % 0x1_0000, 4) + "-" +
    HexPad(g / 0x1_0000_0000_0000_0000 % 0x1_0000, 4) + "-" +
    HexPad(g / 0x1_0000_0000_0000 % 0x1_0000, 4) + "-" +
    HexPad(g % 0x1_0000_0000_0000, 12)
  }

  /** The first six characters of the text form are the top 24 bits in hexadecimal. */
  lemma GuidTextPrefix(g: Guid)
    ensures GuidText(g)[..6] == HexPad(Head(g) / 256, 6)
  {
    var s := GuidText(g);
    assert s[..8] == HexPad(Head(g), 8);
    assert s[..6] == HexPad(Head(g), 8)[..6];
    HexPadDropTwo(Head(g), 8);
  }
}
