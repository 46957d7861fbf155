/** The example VTG sentence "$GPVTG,46.96,T,,,16.89,N,31.28,K,A*43": it is a
    valid sentence whose checksum is 0x43, and a VTG sentence holding its
    fields reads back a true course of 46.96, no magnetic course, 16.89 knots,
    31.28 km/h and automatic mode.

    The line is handled as the address "GPVTG" and three pieces of field
    data, "46.96,T,,,", "16.89,N," and "31.28,K,A", so that no long literal
    has to be evaluated as a whole. */
module VtgExample {
  import opened Common
  import opened Checksum
  import opened Decimal
  import opened SentenceValidator
  import opened SentenceValidatorTest
  import opened Fields
  import opened Vtg

  /** XOR over a string cut into three pieces. */
  lemma Xor3(p: string, c0: string, c1: string, c2: string, x: Byte)
    requires p == c0 + c1 + c2 && Xor(c0) ^ Xor(c1) ^ Xor(c2) == x
    ensures Xor(p) == x
  {
    XorOfParts(c0, c1, c2, [], []);
    assert p == c0 + c1 + c2 + [] + [];
  }

  /** The three pieces of field data XOR to 0x77, 0x66 and 0x2C. */
  lemma CoursePieceChecksum(d: string, c0: string, c1: string, c2: string)
    requires d == "46.96,T,,," && c0 == "46.9" && c1 == "6,T," && c2 == ",,"
    ensures Xor(d) == 0x77
  {
    ByteValue('4', 0x34);
    ByteValue('6', 0x36);
    ByteValue('.', 0x2E);
    ByteValue('9', 0x39);
    ByteValue(',', 0x2C);
    ByteValue('T', 0x54);
    Xor4(c0, '4', '6', '.', '9', 0x15);
    Xor4(c1, '6', ',', 'T', ',', 0x62);
    Xor2(c2, ',', ',', 0x00);
    Xor3(d, c0, c1, c2, 0x77);
  }

  lemma KnotsPieceChecksum(d: string, c0: string, c1: string, c2: string)
    requires d == "16.89,N," && c0 == "16.8" && c1 == "9,N," && c2 == ""
    ensures Xor(d) == 0x66
  {
    ByteValue('1', 0x31);
    ByteValue('6', 0x36);
    ByteValue('.', 0x2E);
    ByteValue('8', 0x38);
    ByteValue('9', 0x39);
    ByteValue(',', 0x2C);
    ByteValue('N', 0x4E);
    Xor4(c0, '1', '6', '.', '8', 0x11);
    Xor4(c1, '9', ',', 'N', ',', 0x77);
    Xor3(d, c0, c1, c2, 0x66);
  }

  lemma KmhPieceChecksum(d: string, c0: string, c1: string, c2: string)
    requires d == "31.28,K,A" && c0 == "31.2" && c1 == "8,K," && c2 == "A"
    ensures Xor(d) == 0x2C
  {
    ByteValue('3', 0x33);
    ByteValue('1', 0x31);
    ByteValue('.', 0x2E);
    ByteValue('2', 0x32);
    ByteValue('8', 0x38);
    ByteValue(',', 0x2C);
    ByteValue('K', 0x4B);
    ByteValue('A', 0x41);
    Xor4(c0, '3', '1', '.', '2', 0x1E);
    Xor4(c1, '8', ',', 'K', ',', 0x73);
    Xor1(c2, 'A', 0x41);
    Xor3(d, c0, c1, c2, 0x2C);
  }

  /** The body of the example, "GPVTG,46.96,T,,,16.89,N,31.28,K,A", XORs to
      0x43, so "43" is its checksum field. */
  lemma BodyChecksum(a: string, d0: string, d1: string, d2: string)
    requires a == "GPVTG" && d0 == "46.96,T,,," && d1 == "16.89,N," && d2 == "31.28,K,A"
    ensures Xor(a + [FIELD_DELIMITER] + (d0 + d1 + d2)) == 0x43
  {
    ByteValue('G', 0x47);
    ByteValue('P', 0x50);
    ByteValue('V', 0x56);
    ByteValue('T', 0x54);
    ByteValue(',', 0x2C);
    Xor5(a, 'G', 'P', 'V', 'T', 'G', 0x52);
    Xor1([FIELD_DELIMITER], ',', 0x2C);
    CoursePieceChecksum(d0, "46.9", "6,T,", ",,");
    KnotsPieceChecksum(d1, "16.8", "9,N,", "");
    KmhPieceChecksum(d2, "31.2", "8,K,", "A");
    XorOfParts(a, [FIELD_DELIMITER], d0, d1, d2);
    assert a + [FIELD_DELIMITER] + (d0 + d1 + d2) == a + [FIELD_DELIMITER] + d0 + d1 + d2;
  }

  /** 0x43 is written "43". */
  lemma ChecksumText()
    ensures ToHex(0x43) == "43"
  {
    assert ToHex(0x43) == [HexDigit(4), HexDigit(3)];
  }

  /** The address and the pieces of field data are well-formed. */
  lemma ExampleParts(a: string, d0: string, d1: string, d2: string)
    requires a == "GPVTG" && d0 == "46.96,T,,," && d1 == "16.89,N," && d2 == "31.28,K,A"
    ensures IsAddress(a) && FIELD_DELIMITER !in a && CHECKSUM_DELIMITER !in a
    ensures IsFieldData(d0) && IsFieldData(d1) && IsFieldData(d2)
    ensures CHECKSUM_DELIMITER !in d0 && CHECKSUM_DELIMITER !in d1 && CHECKSUM_DELIMITER !in d2
  {
  }

  lemma ExampleLine(s: string, a: string, d0: string, d1: string, d2: string)
    requires s == "$GPVTG," + d0 + d1 + d2 + "*43" && a == "GPVTG"
    ensures s == [BEGIN_CHAR] + a + [FIELD_DELIMITER] + (d0 + d1 + d2) + [CHECKSUM_DELIMITER] + "43"
  {
    assert "$GPVTG," == [BEGIN_CHAR] + a + [FIELD_DELIMITER];
    assert "*43" == [CHECKSUM_DELIMITER] + "43";
  }

  /** The example is a sentence and a valid one. */
  lemma ExampleValid()
    ensures IsSentence(Some("$GPVTG," + "46.96,T,,," + "16.89,N," + "31.28,K,A" + "*43"))
    ensures IsValid(Some("$GPVTG," + "46.96,T,,," + "16.89,N," + "31.28,K,A" + "*43"))
  {
    var a, d0, d1, d2 := "GPVTG", "46.96,T,,,", "16.89,N,", "31.28,K,A";
    var s := "$GPVTG," + d0 + d1 + d2 + "*43";
    ExampleLine(s, a, d0, d1, d2);
    ExampleParts(a, d0, d1, d2);
    FieldDataConcat(d0, d1);
    FieldDataConcat(d0 + d1, d2);
    BodyChecksum(a, d0, d1, d2);
    ChecksumText();
    ValidWithChecksum(BEGIN_CHAR, a, d0 + d1 + d2, "43");
  }

  /** Two comma-free fields split off the front of a region. */
  lemma SplitTwo(a: string, b: string, rest: string)
    requires FIELD_DELIMITER !in a && FIELD_DELIMITER !in b
    ensures Split(a + [FIELD_DELIMITER] + (b + [FIELD_DELIMITER] + rest)) == [a, b] + Split(rest)
  {
    SplitStep(b, rest);
    SplitStep(a, b + [FIELD_DELIMITER] + rest);
  }

  /** Four comma-free fields split off the front of a region. */
  lemma SplitFour(a: string, b: string, c: string, e: string, rest: string)
    requires FIELD_DELIMITER !in a && FIELD_DELIMITER !in b
    requires FIELD_DELIMITER !in c && FIELD_DELIMITER !in e
    ensures var r := c + [FIELD_DELIMITER] + (e + [FIELD_DELIMITER] + rest);
            Split(a + [FIELD_DELIMITER] + (b + [FIELD_DELIMITER] + r)) == [a, b, c, e] + Split(rest)
  {
    var r := c + [FIELD_DELIMITER] + (e + [FIELD_DELIMITER] + rest);
    SplitTwo(c, e, rest);
    SplitTwo(a, b, r);
    assert [a, b] + ([c, e] + Split(rest)) == [a, b, c, e] + Split(rest);
  }

  /** The course piece of the example holds the two course fields and their
      indicators. */
  lemma CoursePieceSplit(d: string, rest: string)
    requires d == "46.96,T,,,"
    ensures Split(d + rest) == ["46.96", "T", "", ""] + Split(rest)
  {
    var r := "" + [FIELD_DELIMITER] + ("" + [FIELD_DELIMITER] + rest);
    assert d + rest == "46.96" + [FIELD_DELIMITER] + ("T" + [FIELD_DELIMITER] + r);
    SplitFour("46.96", "T", "", "", rest);
  }

  /** The knots piece holds the speed in knots and its unit. */
  lemma KnotsPieceSplit(d: string, rest: string)
    requires d == "16.89,N,"
    ensures Split(d + rest) == ["16.89", "N"] + Split(rest)
  {
    assert d + rest == "16.89" + [FIELD_DELIMITER] + ("N" + [FIELD_DELIMITER] + rest);
    SplitTwo("16.89", "N", rest);
  }

  /** The km/h piece holds the speed in km/h, its unit and the mode. */
  lemma KmhPieceSplit(d: string)
    requires d == "31.28,K,A"
    ensures Split(d) == ["31.28", "K", "A"]
  {
    assert d == "31.28" + [FIELD_DELIMITER] + ("K" + [FIELD_DELIMITER] + "A");
    SplitTwo("31.28", "K", "A");
    IndexOfAt("A", FIELD_DELIMITER, 1);
  }

  /** The data region of the example splits into its nine fields. */
  lemma ExampleFields(f: seq<string>, d0: string, d1: string, d2: string)
    requires f == ["46.96", "T", "", "", "16.89", "N", "31.28", "K", "A"]
    requires d0 == "46.96,T,,," && d1 == "16.89,N," && d2 == "31.28,K,A"
    ensures Split(d0 + d1 + d2) == f
  {
    KmhPieceSplit(d2);
    KnotsPieceSplit(d1, d2);
    CoursePieceSplit(d0, d1 + d2);
    assert d0 + d1 + d2 == d0 + (d1 + d2);
    Regroup(["46.96", "T", "", ""], ["16.89", "N"], ["31.28", "K", "A"]);
  }

  /** Appending field lists is associative. */
  lemma Regroup(f0: seq<string>, f1: seq<string>, f2: seq<string>)
    ensures f0 + (f1 + f2) == f0 + f1 + f2
  {
  }

  /** A four-digit string denotes the number its digits spell. */
  lemma ValueOf4(s: string)
    requires |s| == 4 && IsDigits(s)
    ensures ValueOf(s) == DigitValue(s[0]) * 1000 + DigitValue(s[1]) * 100 + DigitValue(s[2]) * 10 + DigitValue(s[3])
  {
    var s1, s2, s3 := s[..1], s[..2], s[..3];
    assert s1[..0] == [];
    assert ValueOf(s1) == DigitValue(s[0]);
    assert s2[..1] == s1;
    assert ValueOf(s2) == DigitValue(s[0]) * 10 + DigitValue(s[1]);
    assert s3[..2] == s2;
    assert ValueOf(s3) == DigitValue(s[0]) * 100 + DigitValue(s[1]) * 10 + DigitValue(s[2]);
    assert s[..3] == s3;
  }

  /** A decimal "dd.dd" reads as its four digits in hundredths. */
  lemma Hundredths(s: string, w: string, fr: string, x: real)
    requires |w| == 2 && |fr| == 2 && IsDigits(w) && IsDigits(fr)
    requires s == w + [DECIMAL_POINT] + fr
    requires x * 100.0 == (DigitValue(w[0]) * 1000 + DigitValue(w[1]) * 100 + DigitValue(fr[0]) * 10 + DigitValue(fr[1])) as real
    ensures ParseDecimal(s) == Some(x)
  {
    ParseFractionUnits(w, fr);
    var u := w + fr;
    assert u[0] == w[0] && u[1] == w[1] && u[2] == fr[0] && u[3] == fr[1];
    ValueOf4(u);
    assert s[0] == w[0];
    assert Pow10(2) == 100;
  }

  /** The number fields of the example. */
  lemma TrueCourseText(s: string)
    requires s == "46.96"
    ensures ParseDecimal(s) == Some(46.96)
  {
    Hundredths(s, "46", "96", 46.96);
  }

  lemma SpeedKnotsText(s: string)
    requires s == "16.89"
    ensures ParseDecimal(s) == Some(16.89)
  {
    Hundredths(s, "16", "89", 16.89);
  }

  lemma SpeedKmhText(s: string)
    requires s == "31.28"
    ensures ParseDecimal(s) == Some(31.28)
  {
    Hundredths(s, "31", "28", 31.28);
  }

  /** Field by field, what the example's data region holds. */
  lemma ExampleFieldValues(d: string)
    requires d == "46.96,T,,," + "16.89,N," + "31.28,K,A"
    ensures var f := Split(d);
            && |f| == FIELD_COUNT
            && f[TRUE_COURSE] == "46.96" && f[TRUE_COURSE_UNIT] == [TRUE_INDICATOR]
            && f[MAGNETIC_COURSE] == "" && f[MAGNETIC_COURSE_UNIT] == ""
            && f[SPEED_KNOTS] == "16.89" && f[KNOTS_UNIT] == [KNOT]
            && f[SPEED_KMPH] == "31.28" && f[KMPH_UNIT] == [KMPH]
            && f[MODE] == [MODE_AUTOMATIC]
  {
    ExampleFields(["46.96", "T", "", "", "16.89", "N", "31.28", "K", "A"], "46.96,T,,,", "16.89,N,", "31.28,K,A");
  }

  /** A VTG sentence read from the example's data region: the magnetic
      course field is empty, so its getter reports DataNotAvailable, while
      the other getters return the example's values; the two units fields
      hold KNOT and KMPH. */
  lemma ExampleReads(v: VtgSentence, d: string)
    requires d == "46.96,T,,," + "16.89,N," + "31.28,K,A" && v.fields == Split(d)
    ensures v.MagneticCourse() == Err(DataNotAvailable)
    ensures v.TrueCourse() == Ok(46.96)
    ensures v.SpeedKnots() == Ok(16.89)
    ensures v.SpeedKmh() == Ok(31.28)
    ensures v.Mode() == Ok(Some(Automatic))
    ensures v.fields[KNOTS_UNIT] == [KNOT] && v.fields[KMPH_UNIT] == [KMPH]
  {
    ExampleFieldValues(d);
    TrueCourseText(v.fields[TRUE_COURSE]);
    SpeedKnotsText(v.fields[SPEED_KNOTS]);
    SpeedKmhText(v.fields[SPEED_KMPH]);
  }
}
