/** The hash that gives addresses their identity in a record set: a CRC-32
    checksum clamped to a non-negative Go `int`, taken over the canonical
    text of the address when it parses as an IP address. */
module IpHash {
  import opened Wrappers

  type Uint32 = x: int | 0 <= x < 0x1_0000_0000

  /** The width of Go's `int` on the target platform. */
  datatype WordSize = Word32 | Word64

  /** 2 to the power of the word width. */
  function Modulus(w: WordSize): int {
    match w
    case Word32 => 0x1_0000_0000
    case Word64 => 0x1_0000_0000_0000_0000
  }

  /** The most negative `int`. */
  function MinInt(w: WordSize): int {
    match w
    case Word32 => -0x8000_0000
    case Word64 => -0x8000_0000_0000_0000
  }

  /** Two's-complement truncation of `x` to an `int` of width `w`: what a
      conversion or an overflowing negation produces. */
  function Wrap(x: int, w: WordSize): (v: int)
    ensures MinInt(w) <= v < -MinInt(w)
    ensures MinInt(w) <= x < -MinInt(w) ==> v == x
    ensures -MinInt(w) <= x < Modulus(w) - MinInt(w) ==> v == x - Modulus(w)
  {
    var m := Modulus(w);
    var h := -MinInt(w);
    if MinInt(w) <= x < h then x
    else if h <= x < m + h then x - m
    else (x + h) % m - h
  }

  /** `hashcodeString`: the checksum converted to `int`, negated when negative;
      the one value whose negation overflows gives 0. */
  function HashcodeString(s: string, crc: string -> Uint32, w: WordSize): (h: int)
    ensures h >= 0
    ensures Wrap(crc(s), w) >= 0 ==> h == Wrap(crc(s), w)
    ensures MinInt(w) < Wrap(crc(s), w) < 0 ==> h == -Wrap(crc(s), w)
    ensures Wrap(crc(s), w) == MinInt(w) ==> h == 0
  {
    var v := Wrap(crc(s), w);
    if v >= 0 then v
    else
      var negated := Wrap(-v, w);
      if negated >= 0 then negated else 0
  }

  /** On a 64-bit platform the conversion never goes negative, so the hash is
      the checksum itself. */
  lemma Word64HashIsChecksum(s: string, crc: string -> Uint32)
    ensures HashcodeString(s, crc, Word64) == crc(s)
  {
  }

  /** On a 32-bit platform checksums of 2^31 and above fold onto their
      two's-complement magnitude, and exactly 2^31 becomes 0. */
  lemma Word32HashFolds(s: string, crc: string -> Uint32)
    ensures crc(s) < 0x8000_0000 ==> HashcodeString(s, crc, Word32) == crc(s)
    ensures crc(s) == 0x8000_0000 ==> HashcodeString(s, crc, Word32) == 0
    ensures crc(s) > 0x8000_0000 ==> HashcodeString(s, crc, Word32) == 0x1_0000_0000 - crc(s)
  {
  }

  /** The text an address is hashed by: its canonical form when `canonical`
      (ParseIP followed by String) accepts it, otherwise the text itself. */
  function HashText(addr: string, canonical: string -> Option<string>): (t: string)
    ensures canonical(addr).None? ==> t == addr
    ensures canonical(addr).Some? ==> t == canonical(addr).value
  {
    match canonical(addr)
    case Some(text) => text
    case None => addr
  }

  /** `hashIPString`. */
  function HashIpString(addr: string, crc: string -> Uint32, canonical: string -> Option<string>, w: WordSize): (h: int)
    ensures h >= 0
    ensures canonical(addr).None? ==> h == HashcodeString(addr, crc, w)
    ensures canonical(addr).Some? ==> h == HashcodeString(canonical(addr).value, crc, w)
  {
    HashcodeString(HashText(addr, canonical), crc, w)
  }

  /** Two spellings of one address hash alike. */
  lemma SameCanonicalFormSameHash(a: string, b: string, crc: string -> Uint32,
                                  canonical: string -> Option<string>, w: WordSize)
    requires canonical(a).Some? && canonical(b).Some? && canonical(a).value == canonical(b).value
    ensures HashIpString(a, crc, canonical, w) == HashIpString(b, crc, canonical, w)
  {
  }
}
