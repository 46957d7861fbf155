/** The accept and reject vectors of SentenceValidatorTest, each proved about
    the validator model.

    Each vector comes with a "parts" lemma that takes the literal line and its
    pieces as parameters and states how the line is assembled from them; the
    vector itself is then an instance of one of the general lemmas of
    SentenceValidator.  Keeping the literals behind parameters keeps the
    solver from evaluating the validator on long literals. */
module SentenceValidatorTest {
  import opened Common
  import opened Checksum
  import opened SentenceValidator

  /** The byte of a character below 256 is its code. */
  lemma ByteValue(c: char, x: Byte)
    requires c as int == x as int
    ensures ByteOf(c) == x
  {
  }

  /** XOR of short strings from the bytes of their characters. */
  lemma Xor1(p: string, c: char, x: Byte)
    requires p == [c] && ByteOf(c) == x
    ensures Xor(p) == x
  {
    assert p[..0] == [];
  }

  lemma Xor2(p: string, c0: char, c1: char, x: Byte)
    requires p == [c0, c1] && ByteOf(c0) ^ ByteOf(c1) == x
    ensures Xor(p) == x
  {
    assert p[..1] == [c0];
    Xor1([c0], c0, ByteOf(c0));
  }

  lemma Xor4(p: string, c0: char, c1: char, c2: char, c3: char, x: Byte)
    requires p == [c0, c1, c2, c3] && ByteOf(c0) ^ ByteOf(c1) ^ ByteOf(c2) ^ ByteOf(c3) == x
    ensures Xor(p) == x
  {
    var l, r := [c0, c1], [c2, c3];
    assert p == l + r;
    Xor2(l, c0, c1, ByteOf(c0) ^ ByteOf(c1));
    Xor2(r, c2, c3, ByteOf(c2) ^ ByteOf(c3));
    XorAppend(l, r);
  }

  lemma Xor5(p: string, c0: char, c1: char, c2: char, c3: char, c4: char, x: Byte)
    requires p == [c0, c1, c2, c3, c4]
    requires ByteOf(c0) ^ ByteOf(c1) ^ ByteOf(c2) ^ ByteOf(c3) ^ ByteOf(c4) == x
    ensures Xor(p) == x
  {
    var l, r := [c0, c1, c2, c3], [c4];
    assert p == l + r;
    Xor4(l, c0, c1, c2, c3, ByteOf(c0) ^ ByteOf(c1) ^ ByteOf(c2) ^ ByteOf(c3));
    Xor1(r, c4, ByteOf(c4));
    XorAppend(l, r);
  }

  /** XOR over a string cut into five pieces. */
  lemma XorOfParts(p0: string, p1: string, p2: string, p3: string, p4: string)
    ensures Xor(p0 + p1 + p2 + p3 + p4) == Xor(p0) ^ Xor(p1) ^ Xor(p2) ^ Xor(p3) ^ Xor(p4)
  {
    XorAppend(p0, p1);
    XorAppend(p0 + p1, p2);
    XorAppend(p0 + p1 + p2, p3);
    XorAppend(p0 + p1 + p2 + p3, p4);
  }

  lemma NormalFieldsParts(f: string, p0: string, p1: string, p2: string, p3: string, p4: string)
    requires f == ",1,2,3,4,5,6,7,8,9"
    requires p0 == ",1,2" && p1 == ",3,4" && p2 == ",5,6" && p3 == ",7,8" && p4 == ",9"
    ensures f == p0 + p1 + p2 + p3 + p4
  {
  }

  /** The fields of the "normal" example, with their leading comma, XOR to
      0x1D. */
  lemma NormalFieldsChecksum(f: string)
    requires f == ",1,2,3,4,5,6,7,8,9"
    ensures Xor(f) == 0x1D
  {
    ByteValue(',', 0x2C);
    ByteValue('1', 0x31);
    ByteValue('2', 0x32);
    ByteValue('3', 0x33);
    ByteValue('4', 0x34);
    ByteValue('5', 0x35);
    ByteValue('6', 0x36);
    ByteValue('7', 0x37);
    ByteValue('8', 0x38);
    ByteValue('9', 0x39);
    var p0, p1, p2, p3, p4 := ",1,2", ",3,4", ",5,6", ",7,8", ",9";
    Xor4(p0, ',', '1', ',', '2', 0x03);
    Xor4(p1, ',', '3', ',', '4', 0x07);
    Xor4(p2, ',', '5', ',', '6', 0x03);
    Xor4(p3, ',', '7', ',', '8', 0x0F);
    Xor2(p4, ',', '9', 0x15);
    XorOfParts(p0, p1, p2, p3, p4);
    NormalFieldsParts(f, p0, p1, p2, p3, p4);
  }

  /** An address followed by the "normal" fields: the body XORs to the
      address's XOR combined with 0x1D. */
  lemma NumbersBodyChecksum(b: string, a: string, x: Byte)
    requires b == a + ",1,2,3,4,5,6,7,8,9" && Xor(a) ^ 0x1D == x
    ensures Xor(b) == x
  {
    var f := ",1,2,3,4,5,6,7,8,9";
    NormalFieldsChecksum(f);
    XorAppend(a, f);
  }

  /** Shared step of the accept vectors: a line with no checksum whose parts
      are well-formed is a valid sentence, and so is the same line after
      Checksum.add. */
  lemma ValidBothWays(s: string, b: char, a: string, d: string)
    requires s == [b] + a + [FIELD_DELIMITER] + d
    requires FIELD_DELIMITER !in a && CHECKSUM_DELIMITER !in a && CHECKSUM_DELIMITER !in d
    requires IsBeginChar(b) && IsAddress(a) && IsFieldData(d)
    ensures IsSentence(Some(s)) && IsValid(Some(s)) && IsValid(Some(Add(s)))
  {
    ValidWithoutChecksum(b, a, d);
    AddPreservesValid(s);
  }

  /** "ABCDE", the address of most vectors, is a well-formed address. */
  lemma AbcdeAddress(a: string)
    requires a == "ABCDE"
    ensures IsAddress(a) && FIELD_DELIMITER !in a && CHECKSUM_DELIMITER !in a
  {
  }

  /** "1,2,3,4,5,6,7,8,9", the fields of most vectors, is field data. */
  lemma NumbersFields(d: string)
    requires d == "1,2,3,4,5,6,7,8,9"
    ensures IsFieldData(d) && CHECKSUM_DELIMITER !in d
  {
  }

  lemma NormalLine(s: string, a: string, d: string)
    requires s == "$ABCDE,1,2,3,4,5,6,7,8,9" && a == "ABCDE" && d == "1,2,3,4,5,6,7,8,9"
    ensures s == [BEGIN_CHAR] + a + [FIELD_DELIMITER] + d
  {
  }

  /** "$ABCDE,1,2,3,4,5,6,7,8,9" is valid, with and without a checksum. */
  lemma ValidNormal()
    ensures IsValid(Some("$ABCDE,1,2,3,4,5,6,7,8,9"))
    ensures IsValid(Some(Add("$ABCDE,1,2,3,4,5,6,7,8,9")))
  {
    var s, a, d := "$ABCDE,1,2,3,4,5,6,7,8,9", "ABCDE", "1,2,3,4,5,6,7,8,9";
    NormalLine(s, a, d);
    AbcdeAddress(a);
    NumbersFields(d);
    ValidBothWays(s, BEGIN_CHAR, a, d);
  }

  lemma EmptyFieldLine(s: string, a: string, d: string)
    requires s == "$ABCDE," && a == "ABCDE" && d == ""
    ensures s == [BEGIN_CHAR] + a + [FIELD_DELIMITER] + d
    ensures IsFieldData(d) && CHECKSUM_DELIMITER !in d
  {
  }

  /** "$ABCDE," (one empty field) is valid, with and without a checksum. */
  lemma ValidSingleEmptyField()
    ensures IsValid(Some("$ABCDE,"))
    ensures IsValid(Some(Add("$ABCDE,")))
  {
    var s, a, d := "$ABCDE,", "ABCDE", "";
    EmptyFieldLine(s, a, d);
    AbcdeAddress(a);
    ValidBothWays(s, BEGIN_CHAR, a, d);
  }

  lemma EmptyFieldsLine(s: string, a: string, d: string)
    requires s == "$ABCDE,,,,,," && a == "ABCDE" && d == ",,,,,"
    ensures s == [BEGIN_CHAR] + a + [FIELD_DELIMITER] + d
    ensures IsFieldData(d) && CHECKSUM_DELIMITER !in d
  {
  }

  /** "$ABCDE,,,,,," (six empty fields) is valid, with and without a
      checksum. */
  lemma ValidEmptyFields()
    ensures IsValid(Some("$ABCDE,,,,,,"))
    ensures IsValid(Some(Add("$ABCDE,,,,,,")))
  {
    var s, a, d := "$ABCDE,,,,,,", "ABCDE", ",,,,,";
    EmptyFieldsLine(s, a, d);
    AbcdeAddress(a);
    ValidBothWays(s, BEGIN_CHAR, a, d);
  }

  /** Field data followed by more field data is field data. */
  lemma FieldDataConcat(d0: string, d1: string)
    requires IsFieldData(d0) && IsFieldData(d1)
    requires CHECKSUM_DELIMITER !in d0 && CHECKSUM_DELIMITER !in d1
    ensures IsFieldData(d0 + d1) && CHECKSUM_DELIMITER !in d0 + d1
  {
    var d := d0 + d1;
    forall i | 0 <= i < |d| ensures d[i] != CHECKSUM_DELIMITER && (d[i] == FIELD_DELIMITER || IsFieldChar(d[i])) {
      if i < |d0| {
        assert d[i] == d0[i];
      } else {
        assert d[i] == d1[i - |d0|];
      }
    }
  }

  lemma MixedFieldsLine(s: string, d0: string, d1: string, d2: string)
    requires s == "$ABCDE,1,TWO,three," + d1 + d2 && d0 == "1,TWO,three,"
    ensures s == [BEGIN_CHAR] + "ABCDE" + [FIELD_DELIMITER] + (d0 + d1 + d2)
  {
    assert "$ABCDE,1,TWO,three," == [BEGIN_CHAR] + "ABCDE" + [FIELD_DELIMITER] + d0;
  }

  lemma MixedFieldsHead(d: string)
    requires d == "1,TWO,three,"
    ensures IsFieldData(d) && CHECKSUM_DELIMITER !in d
  {
  }

  lemma MixedFieldsMiddle(d: string)
    requires d == "FOUR?,5,6.0,"
    ensures IsFieldData(d) && CHECKSUM_DELIMITER !in d
  {
  }

  lemma MixedFieldsTail(d: string)
    requires d == "-7.0,Eigth-8,N1N3,#T3n"
    ensures IsFieldData(d) && CHECKSUM_DELIMITER !in d
  {
  }

  /** Letters of both cases, digits and ". - ? #" inside fields are valid:
      "$ABCDE,1,TWO,three,FOUR?,5,6.0,-7.0,Eigth-8,N1N3,#T3n", written here
      in three pieces. */
  lemma ValidMixedFields()
    ensures IsValid(Some("$ABCDE,1,TWO,three," + "FOUR?,5,6.0," + "-7.0,Eigth-8,N1N3,#T3n"))
    ensures IsValid(Some(Add("$ABCDE,1,TWO,three," + "FOUR?,5,6.0," + "-7.0,Eigth-8,N1N3,#T3n")))
  {
    var d0, d1, d2 := "1,TWO,three,", "FOUR?,5,6.0,", "-7.0,Eigth-8,N1N3,#T3n";
    var s := "$ABCDE,1,TWO,three," + d1 + d2;
    MixedFieldsLine(s, d0, d1, d2);
    MixedFieldsHead(d0);
    MixedFieldsMiddle(d1);
    MixedFieldsTail(d2);
    FieldDataConcat(d0, d1);
    FieldDataConcat(d0 + d1, d2);
    AbcdeAddress("ABCDE");
    ValidBothWays(s, BEGIN_CHAR, "ABCDE", d0 + d1 + d2);
  }

  lemma AlternativeLine(s: string, a: string, d: string)
    requires s == "!ABCDE,1,2,3,4,5,6,7,8,9" && a == "ABCDE" && d == "1,2,3,4,5,6,7,8,9"
    ensures s == [ALTERNATIVE_BEGIN_CHAR] + a + [FIELD_DELIMITER] + d
  {
  }

  /** '!' is accepted as begin char like '$'. */
  lemma ValidAlternativeBeginChar()
    ensures IsValid(Some("!ABCDE,1,2,3,4,5,6,7,8,9"))
    ensures IsValid(Some(Add("!ABCDE,1,2,3,4,5,6,7,8,9")))
  {
    var s, a, d := "!ABCDE,1,2,3,4,5,6,7,8,9", "ABCDE", "1,2,3,4,5,6,7,8,9";
    AlternativeLine(s, a, d);
    AbcdeAddress(a);
    NumbersFields(d);
    ValidBothWays(s, ALTERNATIVE_BEGIN_CHAR, a, d);
  }

  /** Shared step of the checksum-mismatch vectors: a line whose checksum
      field differs from the XOR of its body is not valid, and is a sentence
      exactly when its parts are well-formed. */
  lemma MismatchInvalid(s: string, a: string, d: string, h: string, x: Byte)
    requires s == [BEGIN_CHAR] + a + [FIELD_DELIMITER] + d + [CHECKSUM_DELIMITER] + h
    requires FIELD_DELIMITER !in a && CHECKSUM_DELIMITER !in a && CHECKSUM_DELIMITER !in d
    requires Xor(a + [FIELD_DELIMITER] + d) == x && h != ToHex(x)
    ensures IsSentence(Some(s)) == (IsAddress(a) && IsFieldData(d) && IsHexPair(h))
    ensures !IsValid(Some(s))
  {
    ValidWithChecksum(BEGIN_CHAR, a, d, h);
  }

  /** "00" is not the checksum of a body that XORs to 0x5C or 0x4B. */
  lemma ZeroChecksumMismatch()
    ensures ToHex(0x5C) != "00" && ToHex(0x4B) != "00"
  {
    assert ToHex(0) == "00";
    ToHexInjective(0x5C, 0);
    ToHexInjective(0x4B, 0);
  }

  /** How the "*00" vectors are built from their address. */
  lemma ZeroChecksumLine(s: string, a: string, d: string)
    requires s == [BEGIN_CHAR] + a + ",1,2,3,4,5,6,7,8,9*00" && d == "1,2,3,4,5,6,7,8,9"
    ensures s == [BEGIN_CHAR] + a + [FIELD_DELIMITER] + d + [CHECKSUM_DELIMITER] + "00"
    ensures a + [FIELD_DELIMITER] + d == a + ",1,2,3,4,5,6,7,8,9"
  {
    assert [FIELD_DELIMITER] + d + [CHECKSUM_DELIMITER] + "00" == ",1,2,3,4,5,6,7,8,9*00";
    assert [FIELD_DELIMITER] + d == ",1,2,3,4,5,6,7,8,9";
  }

  lemma NormalZeroChecksumLine(s: string, a: string)
    requires s == "$ABCDE,1,2,3,4,5,6,7,8,9*00" && a == "ABCDE"
    ensures s == [BEGIN_CHAR] + a + ",1,2,3,4,5,6,7,8,9*00"
  {
  }

  /** A well-formed line whose checksum field does not match is invalid:
      the body of "$ABCDE,1,2,3,4,5,6,7,8,9" XORs to 0x5C, not 0x00. */
  lemma NormalWrongChecksumInvalid()
    ensures !IsValid(Some("$ABCDE,1,2,3,4,5,6,7,8,9*00"))
  {
    var s, a, d := "$ABCDE,1,2,3,4,5,6,7,8,9*00", "ABCDE", "1,2,3,4,5,6,7,8,9";
    NormalZeroChecksumLine(s, a);
    ZeroChecksumLine(s, a, d);
    AbcdeAddress(a);
    NumbersFields(d);
    ByteValue('A', 0x41);
    ByteValue('B', 0x42);
    ByteValue('C', 0x43);
    ByteValue('D', 0x44);
    ByteValue('E', 0x45);
    Xor5(a, 'A', 'B', 'C', 'D', 'E', 0x41);
    NumbersBodyChecksum(a + [FIELD_DELIMITER] + d, a, 0x5C);
    ZeroChecksumMismatch();
    MismatchInvalid(s, a, d, "00", 0x5C);
  }

  lemma GgaZeroChecksumLine(s: string, a: string)
    requires s == "$GPGGA,1,2,3,4,5,6,7,8,9*00" && a == "GPGGA"
    ensures s == [BEGIN_CHAR] + a + ",1,2,3,4,5,6,7,8,9*00"
  {
  }

  lemma GpggaAddress(a: string)
    requires a == "GPGGA"
    ensures IsAddress(a) && FIELD_DELIMITER !in a && CHECKSUM_DELIMITER !in a
  {
  }

  /** With address GPGGA the body XORs to 0x4B, so "*00" is wrong there
      too. */
  lemma GgaWrongChecksumInvalid()
    ensures !IsValid(Some("$GPGGA,1,2,3,4,5,6,7,8,9*00"))
  {
    var s, a, d := "$GPGGA,1,2,3,4,5,6,7,8,9*00", "GPGGA", "1,2,3,4,5,6,7,8,9";
    GgaZeroChecksumLine(s, a);
    GpggaAddress(a);
    ZeroChecksumLine(s, a, d);
    NumbersFields(d);
    ByteValue('G', 0x47);
    ByteValue('P', 0x50);
    ByteValue('A', 0x41);
    Xor5(a, 'G', 'P', 'G', 'G', 'A', 0x56);
    NumbersBodyChecksum(a + [FIELD_DELIMITER] + d, a, 0x4B);
    ZeroChecksumMismatch();
    MismatchInvalid(s, a, d, "00", 0x4B);
  }

  /** A line that does not start with a begin char is rejected. */
  lemma NoBeginCharInvalid(s: string)
    requires |s| == 0 || !IsBeginChar(s[0])
    ensures !IsSentence(Some(s)) && !IsValid(Some(s))
  {
  }

  /** null, the empty line, a lone '*', and text without a begin char are
      all rejected (none of them raises an error). */
  lemma NoSentenceInvalid()
    ensures !IsValid(None)
    ensures !IsValid(Some(""))
    ensures !IsValid(Some("*"))
    ensures !IsValid(Some("foobar"))
    ensures !IsValid(Some("GPGGA,1,2,3,4,5,6,7,8,9"))
  {
    NoBeginCharInvalid("");
    NoBeginCharInvalid("*");
    NoBeginCharInvalid("foobar");
    NoBeginCharInvalid("GPGGA,1,2,3,4,5,6,7,8,9");
  }

  /** A lone begin char, an empty address, and an address followed directly
      by '*' are rejected. */
  lemma NoAddressInvalid()
    ensures !IsValid(Some("$"))
    ensures !IsValid(Some("$,*"))
    ensures !IsValid(Some("$GPGSV*"))
  {
    BeginCharOnly("$");
    EmptyAddress("$,*");
    AddressOnly("$GPGSV*", "GPGSV");
  }

  lemma BeginCharOnly(s: string)
    requires s == "$"
    ensures !IsValid(Some(s))
  {
    assert Body(s) == [];
  }

  lemma EmptyAddress(s: string)
    requires s == "$,*"
    ensures !IsValid(Some(s))
  {
    assert Body(s) == [FIELD_DELIMITER];
    assert IndexOf([FIELD_DELIMITER], FIELD_DELIMITER) == 0;
  }

  lemma AddressOnly(s: string, a: string)
    requires s == "$GPGSV*" && a == "GPGSV"
    ensures !IsValid(Some(s))
  {
    assert Body(s) == a;
    assert IndexOf(a, FIELD_DELIMITER) == |a|;
  }

  /** A line whose address contains a character other than an upper-case
      letter or a digit is rejected. */
  lemma BadAddressCharInvalid(s: string, a: string, d: string, i: nat)
    requires s == [BEGIN_CHAR] + a + [FIELD_DELIMITER] + d
    requires FIELD_DELIMITER !in a && CHECKSUM_DELIMITER !in a && CHECKSUM_DELIMITER !in d
    requires i < |a| && !IsAddressChar(a[i])
    ensures !IsSentence(Some(s)) && !IsValid(Some(s))
  {
    ValidWithoutChecksum(BEGIN_CHAR, a, d);
  }

  /** How the bad-address vectors are built from their address. */
  lemma NumbersLine(s: string, a: string, d: string)
    requires s == [BEGIN_CHAR] + a + ",1,2,3,4,5,6,7,8,9" && d == "1,2,3,4,5,6,7,8,9"
    ensures s == [BEGIN_CHAR] + a + [FIELD_DELIMITER] + d
  {
    assert [FIELD_DELIMITER] + d == ",1,2,3,4,5,6,7,8,9";
  }

  lemma LowerCaseLine(s: string, a: string)
    requires s == "$gpgga,1,2,3,4,5,6,7,8,9" && a == "gpgga"
    ensures s == [BEGIN_CHAR] + a + ",1,2,3,4,5,6,7,8,9"
    ensures FIELD_DELIMITER !in a && CHECKSUM_DELIMITER !in a && !IsAddressChar(a[0])
  {
  }

  /** Lower-case letters or '#' in the address make a line invalid, although
      both are allowed inside fields. */
  lemma LowerCaseAddressInvalid()
    ensures !IsValid(Some("$gpgga,1,2,3,4,5,6,7,8,9"))
  {
    var s, a, d := "$gpgga,1,2,3,4,5,6,7,8,9", "gpgga", "1,2,3,4,5,6,7,8,9";
    LowerCaseLine(s, a);
    NumbersLine(s, a, d);
    NumbersFields(d);
    BadAddressCharInvalid(s, a, d, 0);
  }

  lemma InnerLowerCaseLine(s: string, a: string)
    requires s == "$GpGGA,1,2,3,4,5,6,7,8,9" && a == "GpGGA"
    ensures s == [BEGIN_CHAR] + a + ",1,2,3,4,5,6,7,8,9"
    ensures FIELD_DELIMITER !in a && CHECKSUM_DELIMITER !in a && !IsAddressChar(a[1])
  {
  }

  lemma InnerLowerCaseAddressInvalid()
    ensures !IsValid(Some("$GpGGA,1,2,3,4,5,6,7,8,9"))
  {
    var s, a, d := "$GpGGA,1,2,3,4,5,6,7,8,9", "GpGGA", "1,2,3,4,5,6,7,8,9";
    InnerLowerCaseLine(s, a);
    NumbersLine(s, a, d);
    NumbersFields(d);
    BadAddressCharInvalid(s, a, d, 1);
  }

  lemma LastLowerCaseLine(s: string, a: string)
    requires s == "$GPGGa,1,2,3,4,5,6,7,8,9" && a == "GPGGa"
    ensures s == [BEGIN_CHAR] + a + ",1,2,3,4,5,6,7,8,9"
    ensures FIELD_DELIMITER !in a && CHECKSUM_DELIMITER !in a && !IsAddressChar(a[4])
  {
  }

  lemma LastLowerCaseAddressInvalid()
    ensures !IsValid(Some("$GPGGa,1,2,3,4,5,6,7,8,9"))
  {
    var s, a, d := "$GPGGa,1,2,3,4,5,6,7,8,9", "GPGGa", "1,2,3,4,5,6,7,8,9";
    LastLowerCaseLine(s, a);
    NumbersLine(s, a, d);
    NumbersFields(d);
    BadAddressCharInvalid(s, a, d, 4);
  }

  lemma HashLine(s: string, a: string)
    requires s == "$GPGG#,1,2,3,4,5,6,7,8,9" && a == "GPGG#"
    ensures s == [BEGIN_CHAR] + a + ",1,2,3,4,5,6,7,8,9"
    ensures FIELD_DELIMITER !in a && CHECKSUM_DELIMITER !in a && !IsAddressChar(a[4])
  {
  }

  lemma HashAddressInvalid()
    ensures !IsValid(Some("$GPGG#,1,2,3,4,5,6,7,8,9"))
  {
    var s, a, d := "$GPGG#,1,2,3,4,5,6,7,8,9", "GPGG#", "1,2,3,4,5,6,7,8,9";
    HashLine(s, a);
    NumbersLine(s, a, d);
    NumbersFields(d);
    BadAddressCharInvalid(s, a, d, 4);
  }

  /** A line with a bad address length is rejected. */
  lemma AddressLengthInvalid(s: string, a: string, d: string)
    requires s == [BEGIN_CHAR] + a + [FIELD_DELIMITER] + d
    requires FIELD_DELIMITER !in a && CHECKSUM_DELIMITER !in a && CHECKSUM_DELIMITER !in d
    requires |a| < MIN_ADDRESS_LENGTH || |a| > MAX_ADDRESS_LENGTH
    ensures !IsSentence(Some(s)) && !IsValid(Some(s))
  {
    ValidWithoutChecksum(BEGIN_CHAR, a, d);
  }

  lemma ShortAddressLine(s: string, a: string)
    requires s == "$AB,1,2,3,4,5,6,7,8,9" && a == "AB"
    ensures s == [BEGIN_CHAR] + a + ",1,2,3,4,5,6,7,8,9"
    ensures FIELD_DELIMITER !in a && CHECKSUM_DELIMITER !in a && |a| == 2
  {
  }

  /** Two-character and eleven-character addresses are rejected. */
  lemma AddressTooShortInvalid()
    ensures !IsValid(Some("$AB,1,2,3,4,5,6,7,8,9"))
  {
    var s, a, d := "$AB,1,2,3,4,5,6,7,8,9", "AB", "1,2,3,4,5,6,7,8,9";
    ShortAddressLine(s, a);
    NumbersLine(s, a, d);
    NumbersFields(d);
    AddressLengthInvalid(s, a, d);
  }

  lemma LongAddressLine(s: string, a: string)
    requires s == "$ABCDEFGHIJK," + "1,2,3,4,5,6,7,8,9" && a == "ABCDEFGHIJK"
    ensures s == [BEGIN_CHAR] + a + ",1,2,3,4,5,6,7,8,9"
    ensures FIELD_DELIMITER !in a && CHECKSUM_DELIMITER !in a && |a| == 11
  {
    assert "$ABCDEFGHIJK," == [BEGIN_CHAR] + a + [FIELD_DELIMITER];
  }

  lemma AddressTooLongInvalid()
    ensures !IsValid(Some("$ABCDEFGHIJK," + "1,2,3,4,5,6,7,8,9"))
  {
    var s, a, d := "$ABCDEFGHIJK," + "1,2,3,4,5,6,7,8,9", "ABCDEFGHIJK", "1,2,3,4,5,6,7,8,9";
    LongAddressLine(s, a);
    NumbersLine(s, a, d);
    NumbersFields(d);
    AddressLengthInvalid(s, a, d);
  }

  lemma LongProprietaryLine(s: string, a: string, d: string)
    requires s == "$PRWIILOG,GGA,A,T,1,0" && a == "PRWIILOG" && d == "GGA,A,T,1,0"
    ensures s == [BEGIN_CHAR] + a + [FIELD_DELIMITER] + d
  {
  }

  lemma LongProprietaryFacts(a: string, d: string)
    requires a == "PRWIILOG" && d == "GGA,A,T,1,0"
    ensures IsAddress(a) && FIELD_DELIMITER !in a && CHECKSUM_DELIMITER !in a
    ensures IsFieldData(d) && CHECKSUM_DELIMITER !in d
  {
  }

  /** The eight-character proprietary address "PRWIILOG" is accepted. */
  lemma LongProprietaryId()
    ensures IsSentence(Some("$PRWIILOG,GGA,A,T,1,0"))
    ensures IsValid(Some("$PRWIILOG,GGA,A,T,1,0"))
  {
    var s, a, d := "$PRWIILOG,GGA,A,T,1,0", "PRWIILOG", "GGA,A,T,1,0";
    LongProprietaryLine(s, a, d);
    LongProprietaryFacts(a, d);
    ValidBothWays(s, BEGIN_CHAR, a, d);
  }

  lemma PubxLine(s: string, a: string, d0: string, d1: string, d2: string)
    requires s == "$PUBX,03,GT{,ID," + d1 + d2 && a == "PUBX" && d0 == "03,GT{,ID,"
    ensures s == [BEGIN_CHAR] + a + [FIELD_DELIMITER] + (d0 + d1 + d2)
    ensures IsAddress(a) && FIELD_DELIMITER !in a && CHECKSUM_DELIMITER !in a
  {
    assert "$PUBX,03,GT{,ID," == [BEGIN_CHAR] + a + [FIELD_DELIMITER] + d0;
  }

  lemma PubxFields(d0: string, d1: string, d2: string)
    requires d0 == "03,GT{,ID," && d1 == "s,AZM,EL," && d2 == "SN,LK},"
    ensures IsFieldData(d0) && IsFieldData(d1) && IsFieldData(d2)
    ensures CHECKSUM_DELIMITER !in d0 && CHECKSUM_DELIMITER !in d1 && CHECKSUM_DELIMITER !in d2
  {
  }

  /** The four-character proprietary address "PUBX", with braces and a
      trailing empty field, is accepted:
      "$PUBX,03,GT{,ID,s,AZM,EL,SN,LK},", written here in three pieces. */
  lemma ShortProprietaryId()
    ensures IsSentence(Some("$PUBX,03,GT{,ID," + "s,AZM,EL," + "SN,LK},"))
    ensures IsValid(Some("$PUBX,03,GT{,ID," + "s,AZM,EL," + "SN,LK},"))
  {
    var a, d0, d1, d2 := "PUBX", "03,GT{,ID,", "s,AZM,EL,", "SN,LK},";
    var s := "$PUBX,03,GT{,ID," + d1 + d2;
    PubxLine(s, a, d0, d1, d2);
    PubxFields(d0, d1, d2);
    FieldDataConcat(d0, d1);
    FieldDataConcat(d0 + d1, d2);
    ValidBothWays(s, BEGIN_CHAR, a, d0 + d1 + d2);
  }
}
