/** Shared vocabulary of the NMEA 0183 model: the optional-value and result
    datatypes, the error kinds of the sentence API, the framing characters and
    a first-occurrence search over strings. */
module Common {

  datatype Option<+T> = None | Some(value: T)

  /** Failures a sentence accessor can report.  DataNotAvailable: the field
      carries no data; ParseError: the field holds an unexpected or illegal
      value; IllegalArgument: a setter was given a value outside its domain. */
  datatype Error = DataNotAvailable | ParseError | IllegalArgument

  /** A getter either yields a value or fails with one of the errors. */
  datatype Result<+T> = Ok(value: T) | Err(error: Error)

  /** Outcome of a setter that may refuse its argument. */
  datatype Outcome = Pass | Fail(error: Error)

  /** Sentence begin characters: '$' for ordinary sentences, '!' for
      encapsulated ones. */
  const BEGIN_CHAR := '$'
  const ALTERNATIVE_BEGIN_CHAR := '!'
  const FIELD_DELIMITER := ','
  const CHECKSUM_DELIMITER := '*'

  predicate IsBeginChar(c: char) {
    c == BEGIN_CHAR || c == ALTERNATIVE_BEGIN_CHAR
  }

  /** Index of the first occurrence of `c` in `s`, or `|s|` when there is none
      (Java's indexOf, with "not found" mapped to the length). */
  function IndexOf(s: string, c: char): (i: nat)
    ensures i <= |s|
    ensures i < |s| ==> s[i] == c
    ensures forall j :: 0 <= j < i ==> s[j] != c
  {
    if s == [] then 0
    else
      var k := IndexOf(s[..|s| - 1], c);
      if k < |s| - 1 then k
      else if s[|s| - 1] == c then |s| - 1
      else |s|
  }

  /** The first occurrence is unique: any index that holds `c` with no `c`
      before it is the one IndexOf finds. */
  lemma IndexOfAt(s: string, c: char, i: nat)
    requires i <= |s|
    requires i < |s| ==> s[i] == c
    requires forall j :: 0 <= j < i ==> s[j] != c
    ensures IndexOf(s, c) == i
  {
  }

  /** Searching past a prefix that does not contain `c`. */
  lemma IndexOfAfter(a: string, t: string, c: char)
    requires c !in a
    ensures IndexOf(a + t, c) == |a| + IndexOf(t, c)
  {
    var s := a + t;
    var k := IndexOf(t, c);
    forall j | 0 <= j < |a| + k ensures s[j] != c {
      if j < |a| {
        assert s[j] == a[j];
      } else {
        assert s[j] == t[j - |a|];
      }
    }
    if k < |t| {
      assert s[|a| + k] == t[k];
    }
    IndexOfAt(s, c, |a| + k);
  }

  /** The first `c` after a prefix free of `c`. */
  lemma IndexOfDelimiter(a: string, c: char, t: string)
    requires c !in a
    ensures IndexOf(a + [c] + t, c) == |a|
  {
    assert a + [c] + t == a + ([c] + t);
    IndexOfAfter(a, [c] + t, c);
    IndexOfAt([c] + t, c, 0);
  }
}
