/** The VTG sentence: course over ground (true and magnetic) and speed over
    ground (knots and km/h), with the receiver's operating mode as an
    optional last field.  Its fields, after the address, are

        0 true course     1 'T'
        2 magnetic course 3 'M'
        4 speed in knots  5 'N' (KNOT)
        6 speed in km/h   7 'K' (KMPH)
        8 mode, 'A' (MODE_AUTOMATIC) or 'M' (MODE_MANUAL), absent before
          NMEA 0183 version 2.3

    as in "$GPVTG,46.96,T,,,16.89,N,31.28,K,A*43". */
module Vtg {
  import opened Common
  import opened Checksum
  import opened Decimal
  import opened SentenceValidator
  import opened Fields

  /** Units indicator for kilometres per hour. */
  const KMPH := 'K'
  /** Units indicator for knots (nautical miles per hour). */
  const KNOT := 'N'
  /** Operating in manual mode (forced 2D or 3D). */
  const MODE_MANUAL := 'M'
  /** Operating in automatic mode (2D/3D). */
  const MODE_AUTOMATIC := 'A'
  /** Reference indicators of the two courses. */
  const TRUE_INDICATOR := 'T'
  const MAGNETIC_INDICATOR := 'M'

  const TRUE_COURSE := 0
  const TRUE_COURSE_UNIT := 1
  const MAGNETIC_COURSE := 2
  const MAGNETIC_COURSE_UNIT := 3
  const SPEED_KNOTS := 4
  const KNOTS_UNIT := 5
  const SPEED_KMPH := 6
  const KMPH_UNIT := 7
  const MODE := 8
  const FIELD_COUNT := 9

  /** Courses are degrees in 0..360. */
  const MAX_COURSE := 360.0

  /** The sentence type in the address, after the two-letter talker id. */
  const SENTENCE_ID := "VTG"

  /** The receiver's operating mode as the mode field reports it. */
  datatype GpsMode = Automatic | Manual

  function ModeChar(m: GpsMode): (c: char)
    ensures c == MODE_AUTOMATIC || c == MODE_MANUAL
  {
    match m
    case Automatic => MODE_AUTOMATIC
    case Manual => MODE_MANUAL
  }

  /** The mode a field character stands for; None for any other
      character. */
  function ModeOf(c: char): (m: Option<GpsMode>)
    ensures m.Some? <==> c == MODE_AUTOMATIC || c == MODE_MANUAL
  {
    if c == MODE_AUTOMATIC then Some(Automatic)
    else if c == MODE_MANUAL then Some(Manual)
    else None
  }

  /** The two mode characters and the two modes correspond one to one. */
  lemma ModeRoundTrip(m: GpsMode, c: char)
    ensures ModeOf(ModeChar(m)) == Some(m)
    ensures ModeOf(c) == Some(m) ==> ModeChar(m) == c
  {
  }

  /** The two units indicators and the two mode characters are single,
      distinct field characters, so they can be written into a sentence. */
  lemma IndicatorsAreFieldText()
    ensures KMPH != KNOT && MODE_MANUAL != MODE_AUTOMATIC
    ensures IsFieldText([KMPH]) && IsFieldText([KNOT])
    ensures IsFieldText([MODE_MANUAL]) && IsFieldText([MODE_AUTOMATIC])
    ensures IsFieldText([TRUE_INDICATOR]) && IsFieldText([MAGNETIC_INDICATOR])
  {
  }

  /** What a decimal getter promises about field `i` of `f`: the value the
      field's text denotes; DataNotAvailable when the field is missing or
      empty; ParseError when it holds text that is not a number. */
  predicate DecimalRead(f: seq<string>, i: nat, r: Result<real>) {
    match r
    case Ok(x) => HasValue(f, i) && ParseDecimal(f[i]) == Some(x)
    case Err(e) =>
      if HasValue(f, i) then e == ParseError && ParseDecimal(f[i]).None?
      else e == DataNotAvailable
  }

  /** GetReal keeps that promise, and it is the only result that does. */
  lemma GetRealIsDecimalRead(f: seq<string>, i: nat, r: Result<real>)
    ensures DecimalRead(f, i, r) <==> r == GetReal(f, i)
  {
  }

  /** What the mode getter promises about the fields `f`: Ok(None) (Java's
      null) when the sentence has no mode field; DataNotAvailable when the
      field is empty; the mode its character stands for; ParseError when it
      holds anything but one of the two mode characters. */
  predicate ModeRead(f: seq<string>, r: Result<Option<GpsMode>>) {
    match r
    case Ok(None) => |f| <= MODE
    case Ok(Some(m)) => |f| > MODE && f[MODE] == [ModeChar(m)]
    case Err(e) =>
      && |f| > MODE
      && if f[MODE] == "" then e == DataNotAvailable
         else e == ParseError && f[MODE] != [MODE_AUTOMATIC] && f[MODE] != [MODE_MANUAL]
  }

  /** Reads the mode field. */
  function ReadMode(f: seq<string>): (r: Result<Option<GpsMode>>)
    ensures ModeRead(f, r)
  {
    if |f| <= MODE then Ok(None)
    else match GetChar(f, MODE)
      case Err(e) => Err(e)
      case Ok(c) =>
        match ModeOf(c)
        case Some(m) => Ok(Some(m))
        case None => Err(ParseError)
  }

  /** ReadMode is the only result that keeps the mode getter's promise. */
  lemma ModeReadUnique(f: seq<string>, r: Result<Option<GpsMode>>)
    ensures ModeRead(f, r) <==> r == ReadMode(f)
  {
  }

  /** A VTG sentence as its list of data fields; every setter rewrites the
      list in place. */
  class VtgSentence {
    var fields: seq<string>

    /** There is at least one field, and every field holds text a sentence
        may carry. */
    predicate Valid()
      reads this
    {
      |fields| > 0 && AllFieldText(fields)
    }

    /** An empty VTG sentence: nine fields, all empty except the four units
        indicators. */
    constructor ()
      ensures fields == ["", [TRUE_INDICATOR], "", [MAGNETIC_INDICATOR], "", [KNOT], "", [KMPH], ""]
      ensures Valid()
    {
      fields := ["", [TRUE_INDICATOR], "", [MAGNETIC_INDICATOR], "", [KNOT], "", [KMPH], ""];
      IndicatorsAreFieldText();
    }

    /** A VTG sentence read from the data region of a line. */
    constructor FromData(d: string)
      requires IsFieldData(d)
      ensures fields == Split(d) && Join(fields) == d
      ensures Valid()
    {
      fields := Split(d);
      JoinSplit(d);
      SplitIsFieldText(d);
    }

    /** The true course over ground, in degrees. */
    function TrueCourse(): (r: Result<real>)
      reads this
      ensures DecimalRead(fields, TRUE_COURSE, r)
    {
      GetReal(fields, TRUE_COURSE)
    }

    /** The magnetic course over ground, in degrees. */
    function MagneticCourse(): (r: Result<real>)
      reads this
      ensures DecimalRead(fields, MAGNETIC_COURSE, r)
    {
      GetReal(fields, MAGNETIC_COURSE)
    }

    /** The speed over ground in knots. */
    function SpeedKnots(): (r: Result<real>)
      reads this
      ensures DecimalRead(fields, SPEED_KNOTS, r)
    {
      GetReal(fields, SPEED_KNOTS)
    }

    /** The speed over ground in km/h. */
    function SpeedKmh(): (r: Result<real>)
      reads this
      ensures DecimalRead(fields, SPEED_KMPH, r)
    {
      GetReal(fields, SPEED_KMPH)
    }

    /** The operating mode; see ModeRead. */
    function Mode(): (r: Result<Option<GpsMode>>)
      reads this
      ensures ModeRead(fields, r)
    {
      ReadMode(fields)
    }

    /** Sets the true course; a course outside 0..360 degrees is refused
        with IllegalArgument and leaves the sentence as it was. */
    method SetTrueCourse(tcog: real) returns (o: Outcome)
      modifies this
      ensures tcog < 0.0 || tcog > MAX_COURSE ==> o == Fail(IllegalArgument) && fields == old(fields)
      ensures 0.0 <= tcog <= MAX_COURSE ==>
                && o == Pass
                && fields == SetField(old(fields), TRUE_COURSE, Render(tcog))
                && TrueCourse() == Ok(Rounded(tcog, VALUE_DECIMALS))
      ensures MagneticCourse() == old(MagneticCourse()) && SpeedKnots() == old(SpeedKnots())
      ensures SpeedKmh() == old(SpeedKmh()) && Mode() == old(Mode())
      ensures old(Valid()) ==> Valid()
    {
      if tcog < 0.0 || tcog > MAX_COURSE {
        return Fail(IllegalArgument);
      }
      WriteValue(fields, TRUE_COURSE, tcog);
      fields := SetField(fields, TRUE_COURSE, Render(tcog));
      o := Pass;
    }

    /** Sets the magnetic course; any value is accepted. */
    method SetMagneticCourse(mcog: real)
      modifies this
      ensures fields == SetField(old(fields), MAGNETIC_COURSE, Render(mcog))
      ensures MagneticCourse() == Ok(Rounded(mcog, VALUE_DECIMALS))
      ensures TrueCourse() == old(TrueCourse()) && SpeedKnots() == old(SpeedKnots())
      ensures SpeedKmh() == old(SpeedKmh()) && Mode() == old(Mode())
      ensures old(Valid()) ==> Valid()
    {
      WriteValue(fields, MAGNETIC_COURSE, mcog);
      fields := SetField(fields, MAGNETIC_COURSE, Render(mcog));
    }

    /** Sets the speed in knots; any value is accepted. */
    method SetSpeedKnots(knots: real)
      modifies this
      ensures fields == SetField(old(fields), SPEED_KNOTS, Render(knots))
      ensures SpeedKnots() == Ok(Rounded(knots, VALUE_DECIMALS))
      ensures TrueCourse() == old(TrueCourse()) && MagneticCourse() == old(MagneticCourse())
      ensures SpeedKmh() == old(SpeedKmh()) && Mode() == old(Mode())
      ensures old(Valid()) ==> Valid()
    {
      WriteValue(fields, SPEED_KNOTS, knots);
      fields := SetField(fields, SPEED_KNOTS, Render(knots));
    }

    /** Sets the speed in km/h; any value is accepted. */
    method SetSpeedKmh(kmh: real)
      modifies this
      ensures fields == SetField(old(fields), SPEED_KMPH, Render(kmh))
      ensures SpeedKmh() == Ok(Rounded(kmh, VALUE_DECIMALS))
      ensures TrueCourse() == old(TrueCourse()) && MagneticCourse() == old(MagneticCourse())
      ensures SpeedKnots() == old(SpeedKnots()) && Mode() == old(Mode())
      ensures old(Valid()) ==> Valid()
    {
      WriteValue(fields, SPEED_KMPH, kmh);
      fields := SetField(fields, SPEED_KMPH, Render(kmh));
    }

    /** Sets the operating mode, adding the mode field when the sentence
        has none. */
    method SetMode(mode: GpsMode)
      modifies this
      ensures fields == SetField(old(fields), MODE, [ModeChar(mode)])
      ensures Mode() == Ok(Some(mode))
      ensures TrueCourse() == old(TrueCourse()) && MagneticCourse() == old(MagneticCourse())
      ensures SpeedKnots() == old(SpeedKnots()) && SpeedKmh() == old(SpeedKmh())
      ensures old(Valid()) ==> Valid()
    {
      var f := fields;
      fields := SetField(fields, MODE, [ModeChar(mode)]);
      WriteLeavesOthers(f, MODE, TRUE_COURSE, [ModeChar(mode)]);
      WriteLeavesOthers(f, MODE, MAGNETIC_COURSE, [ModeChar(mode)]);
      WriteLeavesOthers(f, MODE, SPEED_KNOTS, [ModeChar(mode)]);
      WriteLeavesOthers(f, MODE, SPEED_KMPH, [ModeChar(mode)]);
      IndicatorsAreFieldText();
      if AllFieldText(f) {
        SetFieldText(f, MODE, [ModeChar(mode)]);
      }
    }

    /** The line this sentence is written as (Sentence.toSentence): begin
        char, talker id and "VTG", the fields, then the checksum that
        Checksum.add appends.  The line starts with the begin char, carries
        `*` and its own checksum, is valid, its body is the address
        followed by the joined fields, and those split back into the
        fields. */
    function ToSentence(talker: string): (r: string)
      reads this
      requires Valid()
      requires |talker| == 2 && forall i :: 0 <= i < 2 ==> 'A' <= talker[i] <= 'Z'
      ensures IsValid(Some(r))
      ensures |r| > 0 && r[0] == BEGIN_CHAR
      ensures HasChecksum(r) && ChecksumField(r) == Calculate(r)
      ensures Body(r) == talker + SENTENCE_ID + [FIELD_DELIMITER] + Join(fields)
      ensures Split(Join(fields)) == fields
    {
      var s := [BEGIN_CHAR] + (talker + SENTENCE_ID) + [FIELD_DELIMITER] + Join(fields);
      WrittenLine(talker, fields, s, Add(s));
      Add(s)
    }
  }

  /** Shared step of the four value setters: writing `x` into the decimal
      field `i` makes it read as `x` rounded, leaves the reads of the other
      three decimal fields and of the mode field as they were, and keeps the
      fields field text. */
  lemma WriteValue(f: seq<string>, i: nat, x: real)
    requires i in {TRUE_COURSE, MAGNETIC_COURSE, SPEED_KNOTS, SPEED_KMPH}
    ensures var r := SetField(f, i, Render(x));
            && GetReal(r, i) == Ok(Rounded(x, VALUE_DECIMALS))
            && (i != TRUE_COURSE ==> GetReal(r, TRUE_COURSE) == GetReal(f, TRUE_COURSE))
            && (i != MAGNETIC_COURSE ==> GetReal(r, MAGNETIC_COURSE) == GetReal(f, MAGNETIC_COURSE))
            && (i != SPEED_KNOTS ==> GetReal(r, SPEED_KNOTS) == GetReal(f, SPEED_KNOTS))
            && (i != SPEED_KMPH ==> GetReal(r, SPEED_KMPH) == GetReal(f, SPEED_KMPH))
            && ReadMode(r) == ReadMode(f)
            && (AllFieldText(f) ==> AllFieldText(r))
  {
    var v := Render(x);
    WriteThenRead(f, i, x);
    if i != TRUE_COURSE {
      WriteLeavesOthers(f, i, TRUE_COURSE, v);
    }
    if i != MAGNETIC_COURSE {
      WriteLeavesOthers(f, i, MAGNETIC_COURSE, v);
    }
    if i != SPEED_KNOTS {
      WriteLeavesOthers(f, i, SPEED_KNOTS, v);
    }
    if i != SPEED_KMPH {
      WriteLeavesOthers(f, i, SPEED_KMPH, v);
    }
    WriteKeepsMode(f, i, v);
    if AllFieldText(f) {
      SetFieldText(f, i, v);
    }
  }

  /** Writing a field before the mode field leaves the mode read as it
      was. */
  lemma WriteKeepsMode(f: seq<string>, i: nat, v: string)
    requires i < MODE
    ensures ReadMode(SetField(f, i, v)) == ReadMode(f)
  {
    var r := SetField(f, i, v);
    if |f| > MODE {
      WriteLeavesOthers(f, i, MODE, v);
      assert GetChar(r, MODE) == GetChar(f, MODE);
    }
  }

  /** The fields split from field data are field text. */
  lemma SplitIsFieldText(d: string)
    requires IsFieldData(d)
    ensures AllFieldText(Split(d))
    decreases |d|
  {
    var k := IndexOf(d, FIELD_DELIMITER);
    if k == |d| {
      assert forall i :: 0 <= i < |d| ==> IsFieldChar(d[i]);
    } else {
      var rest := d[k + 1..];
      assert forall i :: 0 <= i < |rest| ==> rest[i] == d[k + 1 + i];
      SplitIsFieldText(rest);
      assert forall i :: 0 <= i < k ==> d[..k][i] == d[i] && d[i] != FIELD_DELIMITER;
    }
  }

  /** Talker id and sentence type together form a well-formed address. */
  /** The line written for talker id and fields of field text: valid,
      starting with the begin char, carrying its own checksum, with the
      address and the joined fields as body, and fields that split back. */
  lemma WrittenLine(talker: string, f: seq<string>, s: string, r: string)
    requires |f| > 0 && AllFieldText(f)
    requires |talker| == 2 && forall i :: 0 <= i < 2 ==> 'A' <= talker[i] <= 'Z'
    requires s == [BEGIN_CHAR] + (talker + SENTENCE_ID) + [FIELD_DELIMITER] + Join(f)
    requires r == Add(s)
    ensures IsValid(Some(r))
    ensures |r| > 0 && r[0] == BEGIN_CHAR
    ensures HasChecksum(r) && ChecksumField(r) == Calculate(r)
    ensures Body(r) == talker + SENTENCE_ID + [FIELD_DELIMITER] + Join(f)
    ensures Split(Join(f)) == f
  {
    var a := talker + SENTENCE_ID;
    var d := Join(f);
    TalkerAddress(talker);
    ValidWithoutChecksum(BEGIN_CHAR, a, d);
    AddPreservesValid(s);
    assert IsValidText(r);
    AddCarriesChecksum(s);
    AddSelfChecked(s);
    Anatomy(BEGIN_CHAR, a, d, []);
    assert s + [] == s;
    SplitJoin(f);
  }

  lemma TalkerAddress(talker: string)
    requires |talker| == 2 && forall i :: 0 <= i < 2 ==> 'A' <= talker[i] <= 'Z'
    ensures var a := talker + SENTENCE_ID;
            IsAddress(a) && FIELD_DELIMITER !in a && CHECKSUM_DELIMITER !in a
  {
    var a := talker + SENTENCE_ID;
    assert a == [talker[0], talker[1], 'V', 'T', 'G'];
  }
}
