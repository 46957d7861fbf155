/** SentenceValidator: decides whether a line of text is an NMEA 0183
    sentence and whether it is a valid one.

    A sentence is laid out as
        <begin char><address>,<fields>[*<checksum>]
    where the begin char is '$' or '!', the address is 3 to 10 upper-case
    letters or digits, the fields are comma-separated runs of field
    characters (any of them may be empty) and the optional checksum is two
    upper-case hex digits.  A sentence is valid when, in addition, a checksum
    that is present equals the XOR of everything between the begin char and
    the '*'.  A Java null is modelled as None. */
module SentenceValidator {
  import opened Common
  import opened Checksum

  /** Bounds on the address length: wide enough for the five-character
      talker-and-type address, the four-character "PUBX" and the
      eight-character "PRWIILOG" proprietary ones; two and eleven characters
      are too short and too long. */
  const MIN_ADDRESS_LENGTH := 3
  const MAX_ADDRESS_LENGTH := 10

  predicate IsAddressChar(c: char) {
    'A' <= c <= 'Z' || '0' <= c <= '9'
  }

  predicate IsAddress(a: string) {
    && MIN_ADDRESS_LENGTH <= |a| <= MAX_ADDRESS_LENGTH
    && forall i :: 0 <= i < |a| ==> IsAddressChar(a[i])
  }

  /** Characters a field may hold: printable ASCII except the delimiters and
      the begin chars. */
  predicate IsFieldChar(c: char) {
    ' ' <= c <= '~' && c != FIELD_DELIMITER && c != CHECKSUM_DELIMITER && !IsBeginChar(c)
  }

  /** The comma-separated field list after the address. */
  predicate IsFieldData(d: string) {
    forall i :: 0 <= i < |d| ==> d[i] == FIELD_DELIMITER || IsFieldChar(d[i])
  }

  /** The address of a body: everything before the first comma. */
  function Address(b: string): string {
    b[..IndexOf(b, FIELD_DELIMITER)]
  }

  /** A checksummed body: an address, a comma, then the field list. */
  predicate IsBody(b: string) {
    var a := IndexOf(b, FIELD_DELIMITER);
    a < |b| && IsAddress(b[..a]) && IsFieldData(b[a + 1..])
  }

  /** Begin char, then a well-formed body up to the first '*' or the end. */
  predicate IsFramed(s: string) {
    |s| > 0 && IsBeginChar(s[0]) && IsBody(Body(s))
  }

  /** A sentence starts with a begin char and carries a well-formed
      address. */
  predicate IsSentenceText(s: string): (b: bool)
    ensures b ==> |s| > 0 && IsBeginChar(s[0]) && IsAddress(Address(Body(s)))
  {
    IsFramed(s) && (HasChecksum(s) ==> IsHexPair(ChecksumField(s)))
  }

  /** A valid sentence is a sentence whose checksum field, if it has one,
      reads as the XOR of its body. */
  predicate IsValidText(s: string): (b: bool)
    ensures b ==> IsSentenceText(s)
    ensures b && HasChecksum(s) ==> FromHex(ChecksumField(s)) == Some(Xor(Body(s)))
  {
    HexRoundTrip(Xor(Body(s)));
    IsSentenceText(s) && (HasChecksum(s) ==> ChecksumField(s) == Calculate(s))
  }

  /** SentenceValidator.isSentence: null is not a sentence. */
  predicate IsSentence(nmea: Option<string>): (b: bool)
    ensures nmea.None? ==> !b
    ensures b ==> |nmea.value| > 0 && IsBeginChar(nmea.value[0])
  {
    nmea.Some? && IsSentenceText(nmea.value)
  }

  /** SentenceValidator.isValid: null is not valid, and every valid line is
      a sentence. */
  predicate IsValid(nmea: Option<string>): (b: bool)
    ensures nmea.None? ==> !b
    ensures b ==> IsSentence(nmea)
    ensures b && HasChecksum(nmea.value) ==> FromHex(ChecksumField(nmea.value)) == Some(Xor(Body(nmea.value)))
  {
    nmea.Some? && IsValidText(nmea.value)
  }

  /** How a line built from begin char, address, ',' and fields (no '*' in
      any of them) splits: the body is address ',' fields and the address is
      the part before the first comma. */
  lemma {:induction false} Anatomy(b: char, a: string, d: string, t: string)
    requires IsBeginChar(b)
    requires FIELD_DELIMITER !in a && CHECKSUM_DELIMITER !in a && CHECKSUM_DELIMITER !in d
    requires t == [] || t[0] == CHECKSUM_DELIMITER
    ensures var s := [b] + a + [FIELD_DELIMITER] + d + t;
            && IndexOf(s, CHECKSUM_DELIMITER) == |s| - |t|
            && Body(s) == a + [FIELD_DELIMITER] + d
            && Address(Body(s)) == a
            && (IsBody(Body(s)) <==> IsAddress(a) && IsFieldData(d))
  {
    var body := a + [FIELD_DELIMITER] + d;
    var s := [b] + a + [FIELD_DELIMITER] + d + t;
    NoChecksumDelimiter(b, a, d);
    assert s == ([b] + body) + t;
    IndexOfAfter([b] + body, t, CHECKSUM_DELIMITER);
    IndexOfAt(t, CHECKSUM_DELIMITER, 0);
    var k := IndexOf(s, CHECKSUM_DELIMITER);
    assert k == |s| - |t|;
    assert s[1..k] == body;
    AddressOf(a, d);
  }

  lemma NoChecksumDelimiter(b: char, a: string, d: string)
    requires IsBeginChar(b) && CHECKSUM_DELIMITER !in a && CHECKSUM_DELIMITER !in d
    ensures CHECKSUM_DELIMITER !in [b] + a + [FIELD_DELIMITER] + d
  {
    var p := [b] + a + [FIELD_DELIMITER] + d;
    forall i | 0 <= i < |p| ensures p[i] != CHECKSUM_DELIMITER {
      if i == 0 {
      } else if i <= |a| {
        assert p[i] == a[i - 1];
      } else if i > |a| + 1 {
        assert p[i] == d[i - |a| - 2];
      }
    }
  }

  /** The address of address ',' fields is the address. */
  lemma AddressOf(a: string, d: string)
    requires FIELD_DELIMITER !in a
    ensures var body := a + [FIELD_DELIMITER] + d;
            && Address(body) == a
            && (IsBody(body) <==> IsAddress(a) && IsFieldData(d))
  {
    var body := a + [FIELD_DELIMITER] + d;
    IndexOfDelimiter(a, FIELD_DELIMITER, d);
    assert body[..|a|] == a && body[|a| + 1..] == d;
  }

  /** A line without a checksum is valid exactly when it has a begin char, a
      well-formed address and well-formed fields. */
  lemma ValidWithoutChecksum(b: char, a: string, d: string)
    requires FIELD_DELIMITER !in a && CHECKSUM_DELIMITER !in a && CHECKSUM_DELIMITER !in d
    ensures var s := [b] + a + [FIELD_DELIMITER] + d;
            && (IsSentenceText(s) <==> IsBeginChar(b) && IsAddress(a) && IsFieldData(d))
            && (IsValidText(s) <==> IsBeginChar(b) && IsAddress(a) && IsFieldData(d))
  {
    if IsBeginChar(b) {
      Anatomy(b, a, d, []);
      assert [b] + a + [FIELD_DELIMITER] + d + [] == [b] + a + [FIELD_DELIMITER] + d;
    }
  }

  /** A line with a checksum field `h` is a sentence exactly when its parts
      are well-formed and `h` is two hex digits, and valid exactly when its
      parts are well-formed and `h` is the XOR of address ',' fields. */
  lemma ValidWithChecksum(b: char, a: string, d: string, h: string)
    requires FIELD_DELIMITER !in a && CHECKSUM_DELIMITER !in a && CHECKSUM_DELIMITER !in d
    ensures var s := [b] + a + [FIELD_DELIMITER] + d + [CHECKSUM_DELIMITER] + h;
            && (IsSentenceText(s) <==> IsBeginChar(b) && IsAddress(a) && IsFieldData(d) && IsHexPair(h))
            && (IsValidText(s) <==>
                  IsBeginChar(b) && IsAddress(a) && IsFieldData(d)
                  && h == ToHex(Xor(a + [FIELD_DELIMITER] + d)))
  {
    var s := [b] + a + [FIELD_DELIMITER] + d + [CHECKSUM_DELIMITER] + h;
    var t := [CHECKSUM_DELIMITER] + h;
    assert s == [b] + a + [FIELD_DELIMITER] + d + t;
    assert s[0] == b;
    if IsBeginChar(b) {
      Anatomy(b, a, d, t);
      var k := IndexOf(s, CHECKSUM_DELIMITER);
      assert k == |s| - |t|;
      assert HasChecksum(s);
      assert ChecksumField(s) == s[k + 1..] == h;
      assert Calculate(s) == ToHex(Xor(a + [FIELD_DELIMITER] + d));
      assert IsFramed(s) <==> IsAddress(a) && IsFieldData(d);
    }
  }

  /** Checksum.add yields a valid sentence exactly when the line it is given
      is well framed (begin char, address, fields): whatever checksum the
      line had before, right or wrong, is replaced by the correct one. */
  lemma {:induction false} AddValidIff(s: string)
    ensures IsValidText(Add(s)) <==> IsFramed(s)
  {
    AddCarriesChecksum(s);
    var r := Add(s);
    var k := IndexOf(s, CHECKSUM_DELIMITER);
    assert r == s[..k] + [CHECKSUM_DELIMITER] + Calculate(s);
    if k == 0 {
      assert r[0] == CHECKSUM_DELIMITER;
      assert !IsFramed(r);
      assert |s| > 0 ==> s[0] == CHECKSUM_DELIMITER;
    } else {
      assert r[0] == s[0];
    }
  }

  /** Checksum.add preserves validity. */
  lemma AddPreservesValid(s: string)
    ensures IsValidText(s) ==> IsValidText(Add(s))
  {
    AddValidIff(s);
  }

  /** Replacing a correct checksum by any other two hex digits keeps the line
      a sentence but makes it invalid. */
  lemma WrongChecksumRejected(s: string, h: string)
    requires IsValidText(s) && HasChecksum(s)
    requires IsHexPair(h) && h != ChecksumField(s)
    ensures var k := IndexOf(s, CHECKSUM_DELIMITER);
            var r := s[..k] + [CHECKSUM_DELIMITER] + h;
            IsSentenceText(r) && !IsValidText(r)
  {
    ReplaceChecksum(s, h);
  }

  /** A line whose checksum field is replaced keeps its begin char and its
      body, so its calculated checksum, and carries the new field. */
  lemma ReplaceChecksum(s: string, h: string)
    requires HasChecksum(s)
    ensures var k := IndexOf(s, CHECKSUM_DELIMITER);
            var r := s[..k] + [CHECKSUM_DELIMITER] + h;
            && IsFramed(r) == IsFramed(s)
            && HasChecksum(r) && ChecksumField(r) == h
            && Calculate(r) == Calculate(s)
  {
    var k := IndexOf(s, CHECKSUM_DELIMITER);
    var p := s[..k];
    var r := p + [CHECKSUM_DELIMITER] + h;
    IndexOfDelimiter(p, CHECKSUM_DELIMITER, h);
    assert IndexOf(r, CHECKSUM_DELIMITER) == k;
    assert r[..k] == p;
    assert ChecksumField(r) == r[k + 1..] == h;
    if k > 0 {
      assert r[0] == s[0];
      assert Body(s) == Body(r);
    } else {
      assert Body(r) == [] == Body(s);
    }
  }
}
