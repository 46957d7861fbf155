/** The data fields of a sentence: the comma-separated list after the
    address, split into a sequence of strings, and the typed reads and writes
    a sentence type performs on it by field index. */
module Fields {
  import opened Common
  import opened Decimal
  import opened SentenceValidator

  /** Number of decimals a setter writes a course or speed with ("46.96"). */
  const VALUE_DECIMALS := 2

  /** The fields of a data region, cut at every comma.  There is always at
      least one field: the empty region is one empty field. */
  function Split(d: string): (r: seq<string>)
    ensures |r| > 0
    ensures forall i :: 0 <= i < |r| ==> FIELD_DELIMITER !in r[i]
    decreases |d|
  {
    var k := IndexOf(d, FIELD_DELIMITER);
    if k == |d| then [d] else [d[..k]] + Split(d[k + 1..])
  }

  /** The fields written back with a comma between each two; fields of
      field text join into a data region the validator accepts. */
  function Join(f: seq<string>): (d: string)
    ensures AllFieldText(f) ==> IsFieldData(d) && CHECKSUM_DELIMITER !in d
  {
    if |f| == 0 then []
    else if |f| == 1 then
      FieldTextIsData(f[0]);
      f[0]
    else
      var rest := Join(f[1..]);
      assert AllFieldText(f) ==> IsFieldText(f[0]) && AllFieldText(f[1..]);
      CommaJoinData(f[0], rest);
      f[0] + [FIELD_DELIMITER] + rest
  }

  /** Splitting then joining gives back the data region. */
  lemma {:induction false} JoinSplit(d: string)
    ensures Join(Split(d)) == d
    decreases |d|
  {
    var k := IndexOf(d, FIELD_DELIMITER);
    if k < |d| {
      var rest := d[k + 1..];
      JoinSplit(rest);
      var r := [d[..k]] + Split(rest);
      assert r[1..] == Split(rest);
      assert d == d[..k] + [FIELD_DELIMITER] + rest;
    }
  }

  /** Joining then splitting gives back the fields, provided there is at
      least one and none holds a comma. */
  lemma {:induction false} SplitJoin(f: seq<string>)
    requires |f| > 0
    requires forall i :: 0 <= i < |f| ==> FIELD_DELIMITER !in f[i]
    ensures Split(Join(f)) == f
  {
    var head, tail := f[0], f[1..];
    if |f| == 1 {
      IndexOfAt(head, FIELD_DELIMITER, |head|);
    } else {
      assert forall i :: 0 <= i < |tail| ==> tail[i] == f[i + 1];
      SplitJoin(tail);
      SplitStep(head, Join(tail));
      assert f == [head] + tail;
    }
  }

  /** Splitting a comma-free first field off a region. */
  lemma SplitStep(head: string, rest: string)
    requires FIELD_DELIMITER !in head
    ensures Split(head + [FIELD_DELIMITER] + rest) == [head] + Split(rest)
  {
    var d := head + [FIELD_DELIMITER] + rest;
    IndexOfDelimiter(head, FIELD_DELIMITER, rest);
    assert d[..|head|] == head && d[|head| + 1..] == rest;
  }

  /** Text a single field may hold. */
  predicate IsFieldText(v: string) {
    forall i :: 0 <= i < |v| ==> IsFieldChar(v[i])
  }

  predicate AllFieldText(f: seq<string>) {
    forall i :: 0 <= i < |f| ==> IsFieldText(f[i])
  }

  /** A single field of field text is data without a checksum delimiter. */
  lemma FieldTextIsData(v: string)
    ensures IsFieldText(v) ==> IsFieldData(v) && CHECKSUM_DELIMITER !in v
  {
    if IsFieldText(v) {
      forall i | 0 <= i < |v| ensures v[i] != CHECKSUM_DELIMITER {
        assert IsFieldChar(v[i]);
      }
    }
  }

  /** A field of field text, a comma, then field data is field data. */
  lemma CommaJoinData(head: string, rest: string)
    ensures IsFieldText(head) && IsFieldData(rest) && CHECKSUM_DELIMITER !in rest ==>
              var d := head + [FIELD_DELIMITER] + rest;
              IsFieldData(d) && CHECKSUM_DELIMITER !in d
  {
    var d := head + [FIELD_DELIMITER] + rest;
    if IsFieldText(head) && IsFieldData(rest) && CHECKSUM_DELIMITER !in rest {
      forall i | 0 <= i < |d| ensures (d[i] == FIELD_DELIMITER || IsFieldChar(d[i])) && d[i] != CHECKSUM_DELIMITER {
        if i < |head| {
          assert d[i] == head[i];
        } else if i > |head| {
          assert d[i] == rest[i - |head| - 1];
        }
      }
    }
  }

  /** A field carries data when it is present and not empty. */
  predicate HasValue(f: seq<string>, i: nat) {
    i < |f| && f[i] != ""
  }

  /** Stores `v` as field `i`, first adding empty fields when the sentence
      has fewer than i + 1. */
  function SetField(f: seq<string>, i: nat, v: string): (r: seq<string>)
    ensures |r| == if i < |f| then |f| else i + 1
    ensures r[i] == v
    ensures forall j :: 0 <= j < |r| && j != i ==> r[j] == if j < |f| then f[j] else ""
  {
    if i < |f| then f[i := v] else f + seq(i - |f|, _ => "") + [v]
  }

  /** Field text stays field text when another field of it is set. */
  lemma SetFieldText(f: seq<string>, i: nat, v: string)
    requires AllFieldText(f) && IsFieldText(v)
    ensures AllFieldText(SetField(f, i, v))
  {
    var r := SetField(f, i, v);
    forall j | 0 <= j < |r| ensures IsFieldText(r[j]) {
      if j != i && j >= |f| {
        assert r[j] == "";
      }
    }
  }

  /** A decimal field: DataNotAvailable when it carries no data, ParseError
      when its text is not a decimal number, else the number it denotes. */
  function GetReal(f: seq<string>, i: nat): (r: Result<real>)
    ensures r == Err(DataNotAvailable) <==> !HasValue(f, i)
    ensures r == Err(ParseError) <==> HasValue(f, i) && ParseDecimal(f[i]).None?
    ensures r.Ok? <==> HasValue(f, i) && ParseDecimal(f[i]).Some?
    ensures r.Ok? ==> ParseDecimal(f[i]) == Some(r.value)
  {
    if !HasValue(f, i) then Err(DataNotAvailable)
    else match ParseDecimal(f[i])
      case None => Err(ParseError)
      case Some(x) => Ok(x)
  }

  /** A single-character field: DataNotAvailable when it carries no data,
      ParseError when it holds more than one character. */
  function GetChar(f: seq<string>, i: nat): (r: Result<char>)
    ensures r == Err(DataNotAvailable) <==> !HasValue(f, i)
    ensures r == Err(ParseError) <==> HasValue(f, i) && |f[i]| > 1
    ensures r.Ok? <==> HasValue(f, i) && |f[i]| == 1
    ensures r.Ok? ==> f[i] == [r.value]
  {
    if !HasValue(f, i) then Err(DataNotAvailable)
    else if |f[i]| > 1 then Err(ParseError)
    else Ok(f[i][0])
  }

  /** The text a setter stores for `x`: `x` rounded half toward +infinity
      to VALUE_DECIMALS decimals, written with exactly that many. */
  function Render(x: real): (s: string)
    ensures s != "" && IsFieldText(s)
  {
    FormatFixed(Scaled(x, VALUE_DECIMALS), VALUE_DECIMALS)
  }

  /** Reading a field back after writing `x` into it yields `x` rounded to
      VALUE_DECIMALS decimals, whatever the sentence held before. */
  lemma WriteThenRead(f: seq<string>, i: nat, x: real)
    ensures GetReal(SetField(f, i, Render(x)), i) == Ok(Rounded(x, VALUE_DECIMALS))
  {
    FormatParseRoundTrip(Scaled(x, VALUE_DECIMALS), VALUE_DECIMALS);
  }

  /** Writing one field changes no read of another: fields that were there
      are kept, and fields added in front of the new one are empty, which
      reads as DataNotAvailable just like a missing field. */
  lemma WriteLeavesOthers(f: seq<string>, i: nat, j: nat, v: string)
    requires i != j
    ensures GetReal(SetField(f, i, v), j) == GetReal(f, j)
    ensures GetChar(SetField(f, i, v), j) == GetChar(f, j)
  {
    var r := SetField(f, i, v);
    assert HasValue(r, j) ==> HasValue(f, j) && r[j] == f[j];
    assert HasValue(f, j) ==> HasValue(r, j) && r[j] == f[j];
  }

  /** A one-character field reads back as that character. */
  lemma WriteThenReadChar(f: seq<string>, i: nat, c: char)
    ensures GetChar(SetField(f, i, [c]), i) == Ok(c)
  {
  }
}
