/** Reading the start time out of a voltage-calibration file name. */
module VcAvailability {

  import opened Wrappers

  /** `s.split(c)[-1]`: what follows the last c, or all of s when there is none. */
  function AfterLast(s: string, c: char): (r: string)
    ensures c !in r
    ensures |r| <= |s| && r == s[|s| - |r|..]
    ensures |r| < |s| ==> s[|s| - |r| - 1] == c
  {
    if s == [] then []
    else if s[|s| - 1] == c then []
    else AfterLast(s[..|s| - 1], c) + [s[|s| - 1]]
  }

  /** `s.split(c)[0]`: what precedes the first c, or all of s when there is none. */
  function BeforeFirst(s: string, c: char): (r: string)
    ensures c !in r
    ensures r <= s
    ensures |r| < |s| ==> s[|r|] == c
  {
    if s == [] then []
    else if s[0] == c then []
    else [s[0]] + BeforeFirst(s[1..], c)
  }

  predicate IsDigit(ch: char)
  {
    '0' <= ch <= '9'
  }

  predicate AllDigits(s: string)
  {
    forall i :: 0 <= i < |s| ==> IsDigit(s[i])
  }

  function DigitValue(ch: char): (d: nat)
    requires IsDigit(ch)
    ensures d < 10
  {
    ch as int - '0' as int
  }

  function DigitChar(d: nat): (ch: char)
    requires d < 10
    ensures IsDigit(ch) && DigitValue(ch) == d
  {
    ('0' as int + d) as char
  }

  /** The value of a string of decimal digits, most significant first. */
  function DecimalValue(s: string): nat
    requires AllDigits(s)
  {
    if s == [] then 0 else DecimalValue(s[..|s| - 1]) * 10 + DigitValue(s[|s| - 1])
  }

  /** `str(n)` for a non-negative n: its decimal digits without leading zeros. */
  function Digits(n: nat): (s: string)
    ensures |s| > 0 && AllDigits(s)
  {
    if n < 10 then [DigitChar(n)] else Digits(n / 10) + [DigitChar(n % 10)]
  }

  /** `int(s)` raising ValueError. */
  datatype ParseError = NotAnInteger

  /** `int(s)` on a string of ASCII digits; anything else is a ValueError. */
  function ParseInt(s: string): (r: Result<nat, ParseError>)
    ensures r.Success? <==> |s| > 0 && AllDigits(s)
  {
    if |s| > 0 && AllDigits(s) then Success(DecimalValue(s)) else Failure(NotAnInteger)
  }

  /**
   * filename[i..j] is the time field: it starts right after the last '_' (or
   * at the start when there is none) and runs up to the first '-' after it
   * (or to the end).
   */
  ghost predicate TimeField(filename: string, i: int, j: int)
  {
    && 0 <= i <= j <= |filename|
    && '_' !in filename[i..]
    && (i == 0 || filename[i - 1] == '_')
    && '-' !in filename[i..j]
    && (j == |filename| || filename[j] == '-')
  }

  /** A file name has only one time field. */
  lemma TimeFieldUnique(filename: string, i: int, j: int, i': int, j': int)
    requires TimeField(filename, i, j) && TimeField(filename, i', j')
    ensures i == i' && j == j'
  {
  }

  /**
   * get_time_from_filename: `int()` of the time field, the text between the
   * last '_' and the first '-' after it.
   */
  function GetTimeFromFilename(filename: string): (r: Result<nat, ParseError>)
    ensures exists i, j :: TimeField(filename, i, j) && r == ParseInt(filename[i..j])
  {
    var after := AfterLast(filename, '_');
    var field := BeforeFirst(after, '-');
    var i := |filename| - |after|;
    var j := i + |field|;
    assert filename[i..] == after;
    assert filename[i..j] == field;
    assert j < |filename| ==> filename[j] == after[|field|];
    assert TimeField(filename, i, j);
    ParseInt(field)
  }

  lemma {:induction false} DecimalValueOfDigits(n: nat)
    ensures DecimalValue(Digits(n)) == n
    decreases n
  {
    if n >= 10 {
      var s := Digits(n);
      assert s[..|s| - 1] == Digits(n / 10);
      DecimalValueOfDigits(n / 10);
    }
  }

  lemma {:induction false} AfterLastOfJoin(a: string, c: char, b: string)
    requires c !in b
    ensures AfterLast(a + [c] + b, c) == b
    decreases |b|
  {
    var s := a + [c] + b;
    if b != [] {
      assert s[..|s| - 1] == a + [c] + b[..|b| - 1];
      AfterLastOfJoin(a, c, b[..|b| - 1]);
      assert b == b[..|b| - 1] + [b[|b| - 1]];
    }
  }

  lemma {:induction false} BeforeFirstOfJoin(a: string, c: char, b: string)
    requires c !in a
    ensures BeforeFirst(a + [c] + b, c) == a
    decreases |a|
  {
    var s := a + [c] + b;
    if a != [] {
      assert s[1..] == a[1..] + [c] + b;
      BeforeFirstOfJoin(a[1..], c, b);
      assert a == [a[0]] + a[1..];
    }
  }

  /** A file named `<prefix>_<start>-<rest>` yields its start time whatever prefix and rest are. */
  lemma FilenameRoundTrip(prefix: string, start: nat, rest: string)
    requires '_' !in rest
    ensures GetTimeFromFilename(prefix + "_" + Digits(start) + "-" + rest) == Success(start)
  {
    var tail := Digits(start) + "-" + rest;
    assert prefix + "_" + Digits(start) + "-" + rest == prefix + ['_'] + tail;
    assert '_' !in tail by {
      assert forall i :: 0 <= i < |Digits(start)| ==> IsDigit(Digits(start)[i]);
    }
    AfterLastOfJoin(prefix, '_', tail);
    assert '-' !in Digits(start) by {
      assert forall i :: 0 <= i < |Digits(start)| ==> IsDigit(Digits(start)[i]);
    }
    assert tail == Digits(start) + ['-'] + rest;
    BeforeFirstOfJoin(Digits(start), '-', rest);
    DecimalValueOfDigits(start);
  }

  /** A name without '-' after its last '_' has that whole segment parsed, suffix included. */
  lemma {:induction false} MissingDashParsesSuffix(prefix: string, segment: string)
    requires '_' !in segment && '-' !in segment
    ensures GetTimeFromFilename(prefix + "_" + segment) == ParseInt(segment)
  {
    assert prefix + "_" + segment == prefix + ['_'] + segment;
    AfterLastOfJoin(prefix, '_', segment);
    BeforeFirstWhole(segment, '-');
  }

  lemma {:induction false} BeforeFirstWhole(s: string, c: char)
    requires c !in s
    ensures BeforeFirst(s, c) == s
  {
    if s != [] {
      assert c !in s[1..];
      BeforeFirstWhole(s[1..], c);
      assert s == [s[0]] + s[1..];
    }
  }

  /** A file name without an end time, `<prefix>_<start>.root`, cannot be read: ".root" is not part of an integer. */
  lemma {:induction false} RootSuffixRejected(prefix: string, start: nat)
    ensures GetTimeFromFilename(prefix + "_" + Digits(start) + ".root").Failure?
  {
    var digits := Digits(start);
    var segment := digits + ".root";
    assert forall i :: 0 <= i < |digits| ==> IsDigit(digits[i]);
    assert forall i :: |digits| <= i < |segment| ==> segment[i] == ".root"[i - |digits|];
    assert '_' !in segment && '-' !in segment;
    assert prefix + "_" + digits + ".root" == prefix + "_" + segment;
    MissingDashParsesSuffix(prefix, segment);
    assert !IsDigit(segment[|digits|]);
  }

  lemma DocumentedStartDigits()
    ensures Digits(1650000000) == "1650000000"
  {
    assert Digits(1) == "1";
    assert Digits(16) == "16";
    assert Digits(165) == "165";
    assert Digits(1650) == "1650";
    assert Digits(16500) == "16500";
    assert Digits(165000) == "165000";
    assert Digits(1650000) == "1650000";
    assert Digits(16500000) == "16500000";
    assert Digits(165000000) == "165000000";
  }

  /** The documented file-name form: `volCalConsts_pol9_s13_1650000000-1650003600.root` starts at 1650000000. */
  lemma DocumentedFilename(name: string)
    requires name == "volCalConsts_pol9_s13_1650000000-1650003600.root"
    ensures GetTimeFromFilename(name) == Success(1650000000)
  {
    DocumentedStartDigits();
    assert name == "volCalConsts_pol9_s13" + "_" + Digits(1650000000) + "-" + "1650003600.root";
    FilenameRoundTrip("volCalConsts_pol9_s13", 1650000000, "1650003600.root");
  }
}
