/** The NMEA 0183 checksum: the exclusive OR of every character between the
    begin character and the checksum delimiter '*', written after the
    delimiter as two upper-case hexadecimal digits. */
module Checksum {
  import opened Common
  import Bytes

  type Byte = Bytes.Byte

  predicate IsHexDigit(c: char) {
    '0' <= c <= '9' || 'A' <= c <= 'F'
  }

  /** The shape of a checksum field: exactly two upper-case hex digits. */
  predicate IsHexPair(h: string) {
    |h| == 2 && IsHexDigit(h[0]) && IsHexDigit(h[1])
  }

  /** The byte a character contributes: its low eight bits.  Every character
      a valid sentence may hold is ASCII, so nothing is lost there. */
  function ByteOf(c: char): Byte {
    if c as int < 256 then c as Byte else (c as int % 256) as Byte
  }

  /** XOR of the bytes of `s`: no characters give 0, one character its
      low eight bits; with XorAppend this fixes the checksum of every text. */
  function Xor(s: string): (x: Byte)
    ensures |s| == 0 ==> x == 0
    ensures |s| == 1 ==> x == ByteOf(s[0])
  {
    if s == [] then 0 else Xor(s[..|s| - 1]) ^ ByteOf(s[|s| - 1])
  }

  /** XOR distributes over concatenation, so the checksum can be computed
      piecewise (address, then each field). */
  lemma {:induction false} XorAppend(a: string, b: string)
    ensures Xor(a + b) == Xor(a) ^ Xor(b)
  {
    if b == [] {
      assert a + b == a;
    } else {
      var b' := b[..|b| - 1];
      assert (a + b)[..|a + b| - 1] == a + b';
      XorAppend(a, b');
    }
  }

  /** The hex digit of a nibble 0..15. */
  function HexDigit(n: int): (c: char)
    requires 0 <= n < 16
    ensures IsHexDigit(c)
  {
    if n < 10 then ('0' as int + n) as char
    else ('A' as int + (n - 10)) as char
  }

  function HexValue(c: char): (n: int)
    requires IsHexDigit(c)
    ensures 0 <= n < 16 && HexDigit(n) == c
  {
    if c <= '9' then c as int - '0' as int
    else c as int - 'A' as int + 10
  }

  /** A byte as two upper-case hex digits, high nibble first ("%02X"). */
  function ToHex(b: Byte): (h: string)
    ensures IsHexPair(h)
    ensures HexValue(h[0]) * 16 + HexValue(h[1]) == b as int
  {
    HexValueOfDigit(b as int / 16);
    HexValueOfDigit(b as int % 16);
    [HexDigit(b as int / 16), HexDigit(b as int % 16)]
  }

  /** Reads a checksum field back; None unless it is two upper-case hex
      digits. */
  function FromHex(h: string): (r: Option<Byte>)
    ensures r.Some? <==> IsHexPair(h)
  {
    if IsHexPair(h) then Some((HexValue(h[0]) * 16 + HexValue(h[1])) as Byte) else None
  }

  lemma HexRoundTrip(b: Byte)
    ensures FromHex(ToHex(b)) == Some(b)
  {
    var h := ToHex(b);
    assert FromHex(h) == Some((HexValue(h[0]) * 16 + HexValue(h[1])) as Byte);
    Bytes.ByteOfValue(b);
  }

  lemma HexValueOfDigit(n: int)
    requires 0 <= n < 16
    ensures HexValue(HexDigit(n)) == n
  {
    HexDigitInjective(HexValue(HexDigit(n)), n);
  }

  lemma HexPairRoundTrip(h: string)
    requires IsHexPair(h)
    ensures ToHex(FromHex(h).value) == h
  {
    var hi, lo := HexValue(h[0]), HexValue(h[1]);
    var n := hi * 16 + lo;
    NibbleSplit(hi, lo);
    Bytes.ByteConversion(n);
  }

  lemma NibbleSplit(hi: int, lo: int)
    requires 0 <= hi < 16 && 0 <= lo < 16
    ensures 0 <= hi * 16 + lo < 256
    ensures (hi * 16 + lo) / 16 == hi && (hi * 16 + lo) % 16 == lo
  {
  }

  lemma HexDigitInjective(m: int, n: int)
    requires 0 <= m < 16 && 0 <= n < 16
    ensures HexDigit(m) == HexDigit(n) ==> m == n
  {
  }

  /** Two different bytes never print the same, so a checksum field is
      compared as text without losing anything. */
  lemma ToHexInjective(a: Byte, b: Byte)
    ensures ToHex(a) == ToHex(b) ==> a == b
  {
    HexRoundTrip(a);
    HexRoundTrip(b);
  }

  /** Whether `s` carries a checksum delimiter. */
  predicate HasChecksum(s: string) {
    IndexOf(s, CHECKSUM_DELIMITER) < |s|
  }

  /** What follows the first '*': the checksum field as written. */
  function ChecksumField(s: string): (f: string)
    requires HasChecksum(s)
    ensures s == s[..IndexOf(s, CHECKSUM_DELIMITER)] + [CHECKSUM_DELIMITER] + f
  {
    var k := IndexOf(s, CHECKSUM_DELIMITER);
    assert s == s[..k] + [s[k]] + s[k + 1..];
    s[k + 1..]
  }

  /** The characters the checksum covers: after a leading begin character (if
      any) and before the first '*' (or the end). */
  function Body(s: string): (b: string)
    ensures CHECKSUM_DELIMITER !in b
    ensures |s| > 0 && IsBeginChar(s[0]) ==>
              s == [s[0]] + b + s[IndexOf(s, CHECKSUM_DELIMITER)..]
    ensures !(|s| > 0 && IsBeginChar(s[0])) ==>
              s == b + s[IndexOf(s, CHECKSUM_DELIMITER)..]
  {
    var k := IndexOf(s, CHECKSUM_DELIMITER);
    if 0 < k && IsBeginChar(s[0]) then
      assert s == [s[0]] + s[1..k] + s[k..];
      s[1..k]
    else
      assert s == s[..k] + s[k..];
      s[..k]
  }

  /** The checksum of a sentence, as Checksum.calculate renders it. */
  function Calculate(s: string): (h: string)
    ensures IsHexPair(h)
  {
    ToHex(Xor(Body(s)))
  }

  /** Checksum.add: drops any existing checksum and appends '*' and the
      freshly calculated one. */
  function Add(s: string): (r: string)
    ensures |r| >= 3 && r[|r| - 3] == CHECKSUM_DELIMITER && r[|r| - 2..] == Calculate(s)
    ensures CHECKSUM_DELIMITER !in s ==> r == s + [CHECKSUM_DELIMITER] + Calculate(s)
  {
    var k := IndexOf(s, CHECKSUM_DELIMITER);
    assert CHECKSUM_DELIMITER !in s ==> k == |s| && s[..k] == s;
    s[..k] + [CHECKSUM_DELIMITER] + Calculate(s)
  }

  /** What Add produces carries exactly the checksum of its own body: the
      body is unchanged, the delimiter is the one Add wrote and the field is
      the calculated checksum. */
  lemma AddCarriesChecksum(s: string)
    ensures Body(Add(s)) == Body(s)
    ensures HasChecksum(Add(s)) && ChecksumField(Add(s)) == Calculate(s)
    ensures Calculate(Add(s)) == Calculate(s)
  {
    var k := IndexOf(s, CHECKSUM_DELIMITER);
    var p := s[..k];
    var r := Add(s);
    IndexOfDelimiter(p, CHECKSUM_DELIMITER, Calculate(s));
    assert IndexOf(r, CHECKSUM_DELIMITER) == k;
    assert r[..k] == p;
  }

  /** Add keeps the first character of a non-empty line, and the line it
      produces carries its own checksum. */
  lemma AddSelfChecked(s: string)
    requires |s| > 0
    ensures var r := Add(s);
            |r| > 0 && r[0] == s[0] && HasChecksum(r) && ChecksumField(r) == Calculate(r)
  {
    AddCarriesChecksum(s);
    var k := IndexOf(s, CHECKSUM_DELIMITER);
    if k == 0 {
      assert s[0] == CHECKSUM_DELIMITER == Add(s)[0];
    } else {
      assert Add(s)[0] == s[..k][0] == s[0];
    }
  }

  /** Adding a checksum twice is the same as adding it once. */
  lemma AddIdempotent(s: string)
    ensures Add(Add(s)) == Add(s)
  {
    AddCarriesChecksum(s);
    var r := Add(s);
    var k := IndexOf(s, CHECKSUM_DELIMITER);
    IndexOfDelimiter(s[..k], CHECKSUM_DELIMITER, Calculate(s));
    assert r[..IndexOf(r, CHECKSUM_DELIMITER)] == s[..k];
  }
}
