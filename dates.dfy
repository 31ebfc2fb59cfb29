/**
 * The `YYYY-MM-DD` strings the application keys routines by: the local date
 * string it formats from a `Date`, the `^\d{4}-\d{2}-\d{2}$` check the server
 * and the import apply, and the `split('-').map(Number)` reading the calendar
 * views use to turn a string back into a `Date`.
 */
module Dates {
  import opened Wrappers
  import opened Text
  import opened Calendar
  import opened Js

  /** `/^\d{4}-\d{2}-\d{2}$/.test(s)`: a format check only, with no calendar check. */
  predicate MatchesDatePattern(s: string)
  {
    && |s| == 10
    && s[4] == '-' && s[7] == '-'
    && forall i :: 0 <= i < 10 && i != 4 && i != 7 ==> IsDigit(s[i])
  }

  /** `s.padStart(2, '0')`. */
  function PadTwo(s: string): (r: string)
    ensures |s| >= 2 ==> r == s
    ensures |s| < 2 ==> |r| == 2 && r[2 - |s|..] == s
  {
    if |s| == 0 then "00" else if |s| == 1 then "0" + s else s
  }

  /** `toLocalDateStr(d)`: the year as `String` writes it, then the month and the day padded to two digits. */
  function ToLocalDateStr(d: Date): string
  {
    IntToString(d.year) + "-" + PadTwo(IntToString(d.month + 1)) + "-" + PadTwo(IntToString(d.day))
  }

  lemma PadTwoDigits(n: nat)
    requires 1 <= n <= 99
    ensures var p := PadTwo(NatToString(n));
      |p| == 2 && AllDigits(p) && '-' !in p && StringToNumber(p) == Some(n)
  {
    var s := NatToString(n);
    NatToStringLength(n);
    assert Pow10(2) == 100;
    DecimalRoundTrip(n);
    if |s| == 1 {
      DecimalLeadingZero(s);
    }
    StringToNumberOfDigits(PadTwo(s));
  }

  /** The local date string of a valid date passes the pattern exactly when its year has four digits. */
  lemma LocalDateStrMatches(d: Date)
    requires Valid(d)
    ensures MatchesDatePattern(ToLocalDateStr(d)) <==> 1000 <= d.year <= 9999
  {
    PadTwoDigits(d.month + 1);
    PadTwoDigits(d.day);
    var y := IntToString(d.year);
    var m := PadTwo(NatToString(d.month + 1));
    var dd := PadTwo(NatToString(d.day));
    var s := ToLocalDateStr(d);
    assert s == y + "-" + m + "-" + dd;
    if 1000 <= d.year <= 9999 {
      FourDigits(d.year);
      LocalDateStrDigits(y, m, dd);
    } else if d.year >= 0 {
      FourDigits(d.year);
      assert |s| != 10;
    } else {
      assert s[0] == '-';
    }
  }

  lemma LocalDateStrDigits(y: string, m: string, d: string)
    requires |y| == 4 && AllDigits(y) && |m| == 2 && AllDigits(m) && |d| == 2 && AllDigits(d)
    ensures MatchesDatePattern(y + "-" + m + "-" + d)
  {
    var s := y + "-" + m + "-" + d;
    forall i | 0 <= i < 10 && i != 4 && i != 7
      ensures IsDigit(s[i])
    {
      if i < 4 {
        assert s[i] == y[i];
      } else if i < 7 {
        assert s[i] == m[i - 5];
      } else {
        assert s[i] == d[i - 8];
      }
    }
  }

  /** `const [y, m, d] = s.split('-').map(Number)`: the first three pieces as numbers, `undefined` where a piece is missing. */
  function DateFields(s: string): (fields: (JsValue, JsValue, JsValue))
    ensures fields.0 != Undefined && (fields.0.Num? || fields.0.NaN?)
  {
    var parts := SplitOn(s, "-");
    (ToNumber(Str(parts[0])),
     if |parts| > 1 then ToNumber(Str(parts[1])) else Undefined,
     if |parts| > 2 then ToNumber(Str(parts[2])) else Undefined)
  }

  /**
   * `new Date(y, m - 1, d)` for the fields of `s`: `None` is the Invalid Date that
   * a `NaN` or `undefined` argument produces.
   */
  function DateOfString(s: string): (r: Option<Date>)
    ensures r.Some? ==> Valid(r.value)
  {
    DateOfFields(DateFields(s))
  }

  function DateOfFields(f: (JsValue, JsValue, JsValue)): (r: Option<Date>)
    ensures r.Some? ==> Valid(r.value)
  {
    if f.0.Num? && f.1.Num? && f.2.Num? then Some(MakeDate(f.0.n, f.1.n - 1, f.2.n)) else None
  }

  lemma SplitLocalDateStr(d: Date)
    requires Valid(d) && d.year >= 0
    ensures SplitOn(ToLocalDateStr(d), "-")
         == [NatToString(d.year), PadTwo(NatToString(d.month + 1)), PadTwo(NatToString(d.day))]
  {
    var y := NatToString(d.year);
    PadTwoDigits(d.month + 1);
    PadTwoDigits(d.day);
    DigitsHaveNo(y, '-');
    LocalDateStrPieces(d);
    SplitThree(y, PadTwo(NatToString(d.month + 1)), PadTwo(NatToString(d.day)), '-');
  }

  /** The local date string of a date from year 0 on is its three fields joined by dashes. */
  lemma LocalDateStrPieces(d: Date)
    requires Valid(d) && d.year >= 0
    ensures ToLocalDateStr(d)
         == NatToString(d.year) + ['-'] + PadTwo(NatToString(d.month + 1)) + ['-'] + PadTwo(NatToString(d.day))
  {
    assert IntToString(d.year) == NatToString(d.year);
    assert IntToString(d.month + 1) == NatToString(d.month + 1);
    assert IntToString(d.day) == NatToString(d.day);
  }

  lemma DateFieldsOfLocalDateStr(d: Date)
    requires Valid(d) && d.year >= 0
    ensures DateFields(ToLocalDateStr(d)) == (Num(d.year), Num(d.month + 1), Num(d.day))
  {
    SplitLocalDateStr(d);
    PadTwoDigits(d.month + 1);
    PadTwoDigits(d.day);
    DecimalRoundTrip(d.year);
    StringToNumberOfDigits(NatToString(d.year));
  }

  /** Reading back the local date string of a date after year 99 gives the same date. */
  lemma DateOfLocalDateStr(d: Date)
    requires Valid(d) && d.year >= 100
    ensures DateOfString(ToLocalDateStr(d)) == Some(d)
  {
    DateFieldsOfLocalDateStr(d);
    MakeDateOfValid(d);
    assert DateOfFields((Num(d.year), Num(d.month + 1), Num(d.day))) == Some(d);
  }
}
