/**
 * String operations of the JavaScript runtime that the source relies on, written
 * out: `startsWith`, `includes`, `split`/`join` on a non-empty separator, `trim`,
 * `replace` of the first occurrence of a literal, decimal formatting of integers
 * and `parseInt` without a radix.
 */
module Text {
  import opened Wrappers

  predicate StartsWith(s: string, prefix: string)
  {
    |prefix| <= |s| && s[..|prefix|] == prefix
  }

  predicate EndsWith(s: string, suffix: string)
  {
    |suffix| <= |s| && s[|s| - |suffix|..] == suffix
  }

  /** `s.includes(sub)`: `sub` occurs somewhere in `s`. */
  predicate Includes(s: string, sub: string)
    decreases |s|
  {
    StartsWith(s, sub) || (s != [] && Includes(s[1..], sub))
  }

  lemma {:induction false} IncludesAt(s: string, sub: string, i: nat)
    requires i + |sub| <= |s| && s[i..i + |sub|] == sub
    ensures Includes(s, sub)
    decreases i
  {
    if i > 0 {
      assert s[1..][i - 1..i - 1 + |sub|] == s[i..i + |sub|];
      IncludesAt(s[1..], sub, i - 1);
    }
  }

  /** A string shorter than `sub` does not contain it. */
  lemma {:induction false} ShortExcludes(s: string, sub: string)
    requires |s| < |sub|
    ensures !Includes(s, sub)
    decreases |s|
  {
    if s != [] {
      ShortExcludes(s[1..], sub);
    }
  }

  /** Strings that differ at an index within both lengths do not start with one another. */
  lemma DiffersAt(s: string, prefix: string, k: nat)
    requires k < |s| && k < |prefix| && s[k] != prefix[k]
    ensures !StartsWith(s, prefix)
  {
    if |prefix| <= |s| {
      assert s[..|prefix|][k] != prefix[k];
    }
  }

  // ---------------------------------------------------------------- split / join

  /**
   * `s.split(d)` for a non-empty separator: the pieces between the occurrences of
   * `d`, found left to right without overlap.
   */
  function SplitOn(s: string, d: string): (parts: seq<string>)
    requires |d| > 0
    ensures |parts| >= 1
    decreases |s|
  {
    if StartsWith(s, d) then [""] + SplitOn(s[|d|..], d)
    else if s == [] then [""]
    else
      var rest := SplitOn(s[1..], d);
      [[s[0]] + rest[0]] + rest[1..]
  }

  /** `parts.join(d)`. */
  function Join(parts: seq<string>, d: string): (s: string)
  {
    if parts == [] then ""
    else if |parts| == 1 then parts[0]
    else parts[0] + d + Join(parts[1..], d)
  }

  /** Splitting and re-joining on the same separator gives back the original string. */
  lemma {:induction false} JoinSplit(s: string, d: string)
    requires |d| > 0
    ensures Join(SplitOn(s, d), d) == s
    decreases |s|
  {
    if StartsWith(s, d) {
      JoinSplit(s[|d|..], d);
      JoinSplitDelimiter(s, d);
    } else if s != [] {
      JoinSplit(s[1..], d);
      JoinSplitChar(s, d);
    }
  }

  lemma JoinSplitDelimiter(s: string, d: string)
    requires |d| > 0 && StartsWith(s, d)
    requires Join(SplitOn(s[|d|..], d), d) == s[|d|..]
    ensures Join(SplitOn(s, d), d) == s
  {
    var t := s[|d|..];
    var rest := SplitOn(t, d);
    assert SplitOn(s, d) == [""] + rest;
    JoinFront("", rest, d);
    assert "" + d + t == d + t;
    assert s == d + t by {
      assert s == s[..|d|] + t;
    }
  }

  lemma JoinSplitChar(s: string, d: string)
    requires |d| > 0 && !StartsWith(s, d) && s != []
    requires Join(SplitOn(s[1..], d), d) == s[1..]
    ensures Join(SplitOn(s, d), d) == s
  {
    var rest := SplitOn(s[1..], d);
    assert SplitOn(s, d) == [[s[0]] + rest[0]] + rest[1..];
    JoinGrowFirst([s[0]], rest, d);
    assert s == [s[0]] + s[1..];
  }

  /** Putting text in front of the first piece puts it in front of the joined string. */
  lemma JoinGrowFirst(c: string, rest: seq<string>, d: string)
    requires |rest| >= 1
    ensures Join([c + rest[0]] + rest[1..], d) == c + Join(rest, d)
  {
    if |rest| > 1 {
      var tail := Join(rest[1..], d);
      JoinFront(c + rest[0], rest[1..], d);
      JoinFront(rest[0], rest[1..], d);
      assert [rest[0]] + rest[1..] == rest;
      assert (c + rest[0]) + d + tail == c + (rest[0] + d + tail);
    }
  }

  lemma AppendAssoc(a: string, b: string, c: string)
    ensures (a + b) + c == a + (b + c)
  {
  }

  lemma JoinFront(p: string, rest: seq<string>, d: string)
    requires |rest| >= 1
    ensures Join([p] + rest, d) == p + d + Join(rest, d)
  {
    assert ([p] + rest)[1..] == rest;
  }

  /** No piece of a split contains the separator. */
  lemma {:induction false} SplitPiecesFree(s: string, d: string)
    requires |d| > 0
    ensures forall k :: 0 <= k < |SplitOn(s, d)| ==> !Includes(SplitOn(s, d)[k], d)
    decreases |s|
  {
    if StartsWith(s, d) {
      SplitPiecesFree(s[|d|..], d);
    } else if s != [] {
      SplitPiecesFree(s[1..], d);
      var rest := SplitOn(s[1..], d);
      var p := [s[0]] + rest[0];
      assert p[1..] == rest[0];
      assert |p| <= |s| && s[..|p|] == p by {
        JoinSplit(s[1..], d);
        JoinPrefix(rest, d);
        PrefixOfPieces(s, rest, d);
      }
      assert !StartsWith(p, d);
    }
  }

  lemma JoinPrefix(parts: seq<string>, d: string)
    requires |parts| >= 1
    ensures |parts[0]| <= |Join(parts, d)| && Join(parts, d)[..|parts[0]|] == parts[0]
  {
  }

  lemma PrefixOfPieces(s: string, rest: seq<string>, d: string)
    requires |d| > 0 && s != [] && rest == SplitOn(s[1..], d)
    requires Join(rest, d) == s[1..]
    requires |rest| >= 1 && |rest[0]| <= |Join(rest, d)| && Join(rest, d)[..|rest[0]|] == rest[0]
    ensures |[s[0]] + rest[0]| <= |s| && s[..|[s[0]] + rest[0]|] == [s[0]] + rest[0]
  {
    assert s == [s[0]] + s[1..];
  }

  /** A string without the separator splits into itself alone. */
  lemma {:induction false} SplitNoSeparator(s: string, d: string)
    requires |d| > 0 && !Includes(s, d)
    ensures SplitOn(s, d) == [s]
    decreases |s|
  {
    if s != [] {
      SplitNoSeparator(s[1..], d);
      assert s == [s[0]] + s[1..];
    }
  }

  /** Splitting on a one-character separator cuts at its first occurrence. */
  lemma {:induction false} SplitAtFirst(a: string, c: char, rest: string)
    requires c !in a
    ensures SplitOn(a + [c] + rest, [c]) == [a] + SplitOn(rest, [c])
    decreases |a|
  {
    var s := a + [c] + rest;
    if a == [] {
      assert s[1..] == rest;
    } else {
      assert s[1..] == a[1..] + [c] + rest;
      SplitAtFirst(a[1..], c, rest);
      assert [a[0]] + a[1..] == a;
    }
  }

  /** Joining pieces free of a one-character separator and splitting again gives the pieces back. */
  lemma {:induction false} SplitJoinChar(parts: seq<string>, c: char)
    requires |parts| >= 1
    requires forall k :: 0 <= k < |parts| ==> c !in parts[k]
    ensures SplitOn(Join(parts, [c]), [c]) == parts
  {
    if |parts| == 1 {
      SplitWithoutChar(parts[0], c);
    } else {
      SplitJoinChar(parts[1..], c);
      SplitAtFirst(parts[0], c, Join(parts[1..], [c]));
      assert [parts[0]] + parts[1..] == parts;
    }
  }

  /** Splitting on `c` ends with the text after the last `c`. */
  lemma {:induction false} LastPiece(a: string, c: char, b: string)
    requires c !in b
    ensures var parts := SplitOn(a + [c] + b, [c]); |parts| >= 2 && parts[|parts| - 1] == b
    decreases |a|
  {
    var s := a + [c] + b;
    if a == [] {
      assert s[1..] == b;
      SplitWithoutChar(b, c);
    } else {
      assert s[1..] == a[1..] + [c] + b;
      LastPiece(a[1..], c, b);
    }
  }

  /** In `x + d`, the first occurrence of `d` is the one at the end. */
  predicate OnlyAtEnd(x: string, d: string)
  {
    forall i :: 0 <= i < |x| ==> !StartsWith((x + d)[i..], d)
  }

  /** A piece followed by the separator, when the separator first occurs there, is split off whole. */
  lemma {:induction false} SplitAfter(x: string, d: string, rest: string)
    requires |d| > 0 && OnlyAtEnd(x, d)
    ensures SplitOn(x + d + rest, d) == [x] + SplitOn(rest, d)
    decreases |x|
  {
    var s := x + d + rest;
    if x == [] {
      assert s == d + rest && s[|d|..] == rest;
    } else {
      assert (x + d)[0..] == x + d;
      assert s[..|d|] == (x + d)[..|d|];
      assert !StartsWith(s, d);
      assert s[1..] == x[1..] + d + rest;
      forall i | 0 <= i < |x[1..]|
        ensures !StartsWith((x[1..] + d)[i..], d)
      {
        assert (x[1..] + d)[i..] == (x + d)[i + 1..];
      }
      SplitAfter(x[1..], d, rest);
      assert [x[0]] + x[1..] == x;
    }
  }

  /** Joining pieces with a separator that first occurs at each piece's end, and splitting again, gives the pieces back. */
  lemma {:induction false} SplitJoin(parts: seq<string>, d: string)
    requires |d| > 0 && |parts| >= 1
    requires forall k :: 0 <= k < |parts| - 1 ==> OnlyAtEnd(parts[k], d)
    requires !Includes(parts[|parts| - 1], d)
    ensures SplitOn(Join(parts, d), d) == parts
  {
    if |parts| == 1 {
      SplitNoSeparator(parts[0], d);
    } else {
      SplitJoin(parts[1..], d);
      SplitAfter(parts[0], d, Join(parts[1..], d));
      assert [parts[0]] + parts[1..] == parts;
    }
  }

  /** Three pieces joined by a one-character separator none of them holds split back into those pieces. */
  lemma SplitThree(a: string, b: string, c: string, ch: char)
    requires ch !in a && ch !in b && ch !in c
    ensures SplitOn(a + [ch] + b + [ch] + c, [ch]) == [a, b, c]
  {
    assert a + [ch] + b + [ch] + c == a + [ch] + (b + [ch] + c);
    SplitAtFirst(a, ch, b + [ch] + c);
    SplitAtFirst(b, ch, c);
    SplitWithoutChar(c, ch);
  }

  /** A string without the one-character separator splits into itself alone. */
  lemma {:induction false} SplitWithoutChar(s: string, c: char)
    requires c !in s
    ensures SplitOn(s, [c]) == [s]
    decreases |s|
  {
    if s != [] {
      SplitWithoutChar(s[1..], c);
      assert [s[0]] + s[1..] == s;
    }
  }

  // ---------------------------------------------------------------- trim

  /** JavaScript's WhiteSpace and LineTerminator code points, which `trim` removes. */
  predicate IsJsSpace(c: char)
  {
    c == '\t' || c == '\n' || c == '\U{B}' || c == '\U{C}' || c == '\r' || c == ' '
    || c == '\U{A0}' || c == '\U{1680}' || ('\U{2000}' <= c <= '\U{200A}')
    || c == '\U{2028}' || c == '\U{2029}' || c == '\U{202F}' || c == '\U{205F}'
    || c == '\U{3000}' || c == '\U{FEFF}'
  }

  function TrimStart(s: string): (r: string)
    ensures |r| <= |s| && r == s[|s| - |r|..]
    ensures r == [] || !IsJsSpace(r[0])
    ensures forall i :: 0 <= i < |s| - |r| ==> IsJsSpace(s[i])
  {
    if s != [] && IsJsSpace(s[0]) then TrimStart(s[1..]) else s
  }

  function TrimEnd(s: string): (r: string)
    ensures |r| <= |s| && r == s[..|r|]
    ensures r == [] || !IsJsSpace(r[|r| - 1])
    ensures forall i :: |r| <= i < |s| ==> IsJsSpace(s[i])
  {
    if s != [] && IsJsSpace(s[|s| - 1]) then TrimEnd(s[..|s| - 1]) else s
  }

  /** `s.trim()`. */
  function Trim(s: string): (r: string)
  {
    TrimEnd(TrimStart(s))
  }

  predicate AllJsSpace(s: string)
  {
    forall i :: 0 <= i < |s| ==> IsJsSpace(s[i])
  }

  /** Trailing white space does not change the trimmed text. */
  lemma TrimAppendSpace(s: string, ws: string)
    requires AllJsSpace(ws)
    ensures Trim(s + ws) == Trim(s)
  {
    TrimStartAppend(s, ws);
    if TrimStart(s) != [] {
      TrimEndAppend(TrimStart(s), ws);
    }
  }

  lemma {:induction false} TrimStartAppend(s: string, ws: string)
    requires AllJsSpace(ws)
    ensures TrimStart(s) != [] ==> TrimStart(s + ws) == TrimStart(s) + ws
    ensures TrimStart(s) == [] ==> TrimStart(s + ws) == []
    decreases |s| + |ws|
  {
    if s == [] {
      assert s + ws == ws;
      if ws != [] {
        TrimStartAppend(s, ws[1..]);
        assert ws[1..] == (s + ws)[1..];
      }
    } else if IsJsSpace(s[0]) {
      assert (s + ws)[1..] == s[1..] + ws;
      TrimStartAppend(s[1..], ws);
    } else {
      assert (s + ws)[0] == s[0];
    }
  }

  lemma {:induction false} TrimEndAppend(s: string, ws: string)
    requires AllJsSpace(ws)
    ensures TrimEnd(s + ws) == TrimEnd(s)
    decreases |ws|
  {
    if ws == [] {
      assert s + ws == s;
    } else {
      var init := ws[..|ws| - 1];
      assert (s + ws)[..|s + ws| - 1] == s + init;
      TrimEndAppend(s, init);
    }
  }

  /** Text that starts with white space and then a non-space character trims to something starting with that character. */
  lemma TrimFirstChar(ws: string, c: char, s: string)
    requires AllJsSpace(ws) && !IsJsSpace(c)
    ensures Trim(ws + [c] + s) != [] && Trim(ws + [c] + s)[0] == c
  {
    var t := [c] + s;
    assert ws + [c] + s == ws + t;
    TrimStartSkip(ws, t);
    assert TrimStart(t) == t;
    TrimEndKeepsFirst(t);
  }

  lemma TrimEndKeepsFirst(t: string)
    requires t != [] && !IsJsSpace(t[0])
    ensures TrimEnd(t) != [] && TrimEnd(t)[0] == t[0]
  {
    var r := TrimEnd(t);
    assert r == t[..|r|];
  }

  lemma {:induction false} TrimStartSkip(ws: string, s: string)
    requires AllJsSpace(ws)
    ensures TrimStart(ws + s) == TrimStart(s)
    decreases |ws|
  {
    if ws != [] {
      assert (ws + s)[1..] == ws[1..] + s;
      TrimStartSkip(ws[1..], s);
    } else {
      assert ws + s == s;
    }
  }

  /** A string that neither starts nor ends with white space is its own trim. */
  lemma TrimUnchanged(s: string)
    requires s == [] || (!IsJsSpace(s[0]) && !IsJsSpace(s[|s| - 1]))
    ensures Trim(s) == s
  {
  }

  // ---------------------------------------------------------------- replace

  /** `s.replace(pat, rep)` with a string pattern: only the first occurrence is replaced. */
  function ReplaceFirst(s: string, pat: string, rep: string): (r: string)
    decreases |s|
  {
    if StartsWith(s, pat) then rep + s[|pat|..]
    else if s == [] then s
    else [s[0]] + ReplaceFirst(s[1..], pat, rep)
  }

  lemma {:induction false} ReplaceFirstAbsent(s: string, pat: string, rep: string)
    requires !Includes(s, pat)
    ensures ReplaceFirst(s, pat, rep) == s
    decreases |s|
  {
    if s != [] {
      ReplaceFirstAbsent(s[1..], pat, rep);
    }
  }

  /** When `a` holds no character that starts `pat`, the first occurrence of `pat` in `a + pat + c` is the one after `a`. */
  lemma {:induction false} ReplaceFirstAfter(a: string, pat: string, rep: string, c: string)
    requires pat != [] && pat[0] !in a
    ensures ReplaceFirst(a + pat + c, pat, rep) == a + rep + c
    decreases |a|
  {
    if a == [] {
      var s := a + pat + c;
      assert s == pat + c && s[|pat|..] == c;
    } else {
      ReplaceFirstAfter(a[1..], pat, rep, c);
      ReplaceFirstPast(a, pat, rep, c);
    }
  }

  lemma ReplaceFirstPast(a: string, pat: string, rep: string, c: string)
    requires pat != [] && a != [] && pat[0] !in a
    requires ReplaceFirst(a[1..] + pat + c, pat, rep) == a[1..] + rep + c
    ensures ReplaceFirst(a + pat + c, pat, rep) == a + rep + c
  {
    var s := a + pat + c;
    var t := a[1..] + pat + c;
    assert s[0] == a[0] && a[0] != pat[0];
    AppendAssoc(a, pat, c);
    DropFirst(a, pat + c);
    AppendAssoc(a[1..], pat, c);
    assert ReplaceFirst(s, pat, rep) == [a[0]] + ReplaceFirst(t, pat, rep);
    var u := a[1..] + rep;
    AppendAssoc([a[0]], u, c);
    AppendAssoc([a[0]], a[1..], rep);
    assert [a[0]] + a[1..] == a;
  }

  lemma DropFirst(x: string, y: string)
    requires x != []
    ensures (x + y)[1..] == x[1..] + y
  {
  }

  /** `s.replace(suffixRegex, '')` for a regular expression `<suffix>$`. */
  function RemoveSuffix(s: string, suffix: string): (r: string)
    ensures EndsWith(s, suffix) ==> r + suffix == s
    ensures !EndsWith(s, suffix) ==> r == s
  {
    if EndsWith(s, suffix) then s[..|s| - |suffix|] else s
  }

  // ---------------------------------------------------------------- decimal numbers

  predicate IsDigit(c: char) { '0' <= c <= '9' }

  predicate AllDigits(s: string) { forall i :: 0 <= i < |s| ==> IsDigit(s[i]) }

  lemma DigitsHaveNo(s: string, c: char)
    requires AllDigits(s) && !IsDigit(c)
    ensures c !in s
  {
    forall i | 0 <= i < |s| ensures s[i] != c {
      assert IsDigit(s[i]);
    }
  }

  function DigitChar(d: nat): (c: char)
    requires d < 10
    ensures IsDigit(c)
  {
    ['0', '1', '2', '3', '4', '5', '6', '7', '8', '9'][d]
  }

  function DigitValue(c: char): (d: nat)
    requires IsDigit(c)
    ensures d < 10 && DigitChar(d) == c
  {
    (c as int - '0' as int)
  }

  lemma DigitValueOfChar(d: nat)
    requires d < 10
    ensures DigitValue(DigitChar(d)) == d
  {
  }

  /** Value of a string of decimal digits (0 for the empty string). */
  function DecimalValue(s: string): nat
    requires AllDigits(s)
  {
    if s == [] then 0 else DecimalValue(s[..|s| - 1]) * 10 + DigitValue(s[|s| - 1])
  }

  /** `String(n)` for a non-negative integer: its decimal digits, without leading zeros. */
  function NatToString(n: nat): (s: string)
    ensures |s| >= 1 && AllDigits(s)
    ensures |s| > 1 ==> s[0] != '0'
  {
    if n < 10 then [DigitChar(n)] else NatToString(n / 10) + [DigitChar(n % 10)]
  }

  /** `String(i)` for an integer. */
  function IntToString(i: int): (s: string)
  {
    if i < 0 then "-" + NatToString(-i) else NatToString(i)
  }

  lemma {:induction false} DecimalRoundTrip(n: nat)
    ensures DecimalValue(NatToString(n)) == n
  {
    if n >= 10 {
      DecimalRoundTrip(n / 10);
      var s := NatToString(n);
      assert s[..|s| - 1] == NatToString(n / 10);
      assert s[|s| - 1] == DigitChar(n % 10);
      DigitValueOfChar(n % 10);
      assert DecimalValue(s) == DecimalValue(s[..|s| - 1]) * 10 + DigitValue(s[|s| - 1]);
      assert (n / 10) * 10 + n % 10 == n;
    } else {
      var s := NatToString(n);
      assert s == [DigitChar(n)] && s[..0] == [];
      DigitValueOfChar(n);
    }
  }

  /** Decimal formatting is injective. */
  lemma NatToStringInjective(m: nat, n: nat)
    requires NatToString(m) == NatToString(n)
    ensures m == n
  {
    DecimalRoundTrip(m);
    DecimalRoundTrip(n);
  }

  function Pow10(k: nat): (p: nat)
    ensures p >= 1
  {
    if k == 0 then 1 else 10 * Pow10(k - 1)
  }

  /** `String(n)` has `k` digits exactly when `n` lies in `[10^(k-1), 10^k)` (or is 0 and `k` is 1). */
  lemma {:induction false} NatToStringLength(n: nat)
    ensures n < Pow10(|NatToString(n)|)
    ensures n >= 10 ==> n >= Pow10(|NatToString(n)| - 1)
  {
    if n >= 10 {
      NatToStringLength(n / 10);
    }
  }

  lemma {:induction false} Pow10Monotone(j: nat, k: nat)
    requires j <= k
    ensures Pow10(j) <= Pow10(k)
    decreases k - j
  {
    if j < k {
      Pow10Monotone(j, k - 1);
    }
  }

  /** A natural number is written with four digits exactly when it lies in [1000, 9999]. */
  lemma FourDigits(n: nat)
    ensures |NatToString(n)| == 4 <==> 1000 <= n <= 9999
  {
    var k := |NatToString(n)|;
    NatToStringLength(n);
    assert Pow10(3) == 1000 && Pow10(4) == 10000;
    if k < 4 {
      Pow10Monotone(k, 3);
    } else if k > 4 {
      Pow10Monotone(4, k - 1);
    }
  }

  /** Leading zeros do not change a decimal value. */
  lemma {:induction false} DecimalLeadingZero(s: string)
    requires AllDigits(s)
    ensures DecimalValue("0" + s) == DecimalValue(s)
    decreases |s|
  {
    if s != [] {
      DecimalLeadingZero(s[..|s| - 1]);
      assert ("0" + s)[..|s|] == "0" + s[..|s| - 1];
    }
  }

  /** Leading run of characters of `s` satisfying `p`. */
  function TakeWhile(p: char -> bool, s: string): (r: string)
    ensures |r| <= |s| && r == s[..|r|]
    ensures forall i :: 0 <= i < |r| ==> p(r[i])
    ensures |r| < |s| ==> !p(s[|r|])
  {
    if s != [] && p(s[0]) then [s[0]] + TakeWhile(p, s[1..]) else []
  }

  lemma {:induction false} TakeWhileAll(p: char -> bool, s: string, rest: string)
    requires forall i :: 0 <= i < |s| ==> p(s[i])
    requires rest == [] || !p(rest[0])
    ensures TakeWhile(p, s + rest) == s
  {
    if s != [] {
      assert (s + rest)[1..] == s[1..] + rest;
      TakeWhileAll(p, s[1..], rest);
    }
  }

  predicate IsHexDigit(c: char)
  {
    IsDigit(c) || ('a' <= c <= 'f') || ('A' <= c <= 'F')
  }

  function HexValue(c: char): (d: nat)
    requires IsHexDigit(c)
    ensures d < 16
  {
    if IsDigit(c) then DigitValue(c)
    else if 'a' <= c <= 'f' then c as int - 'a' as int + 10
    else c as int - 'A' as int + 10
  }

  function HexStringValue(s: string): nat
    requires forall i :: 0 <= i < |s| ==> IsHexDigit(s[i])
  {
    if s == [] then 0 else HexStringValue(s[..|s| - 1]) * 16 + HexValue(s[|s| - 1])
  }

  /**
   * `parseInt(s)` with no radix: leading white space is skipped, an optional sign
   * is read, a `0x`/`0X` prefix selects base 16, and the longest run of digits of
   * the base that follows is the value. `None` stands for NaN (no digit at all).
   */
  function ParseInt(s: string): (r: Option<int>)
  {
    var t := TrimStart(s);
    if t != [] && t[0] == '-' then
      match ParseUnsigned(t[1..])
      case None => None
      case Some(v) => Some(-v)
    else if t != [] && t[0] == '+' then ParseUnsigned(t[1..])
    else ParseUnsigned(t)
  }

  /** The part of `parseInt` after the sign: `0x`/`0X` and hex digits, or decimal digits, up to the first other character. */
  function ParseUnsigned(u: string): (r: Option<int>)
  {
    if |u| >= 2 && u[0] == '0' && (u[1] == 'x' || u[1] == 'X') then
      var h := TakeWhile(IsHexDigit, u[2..]);
      if h == [] then None else Some(HexStringValue(h))
    else
      var ds := TakeWhile(IsDigit, u);
      if ds == [] then None else Some(DecimalValue(ds))
  }

  /** parseInt reads back what String(n) wrote, whatever follows a non-digit. */
  lemma ParseIntOfDecimal(n: nat, rest: string)
    requires rest == [] || (!IsDigit(rest[0]) && rest[0] != 'x' && rest[0] != 'X')
    ensures ParseInt(NatToString(n) + rest) == Some(n)
  {
    var w := NatToString(n);
    var s := w + rest;
    assert s[0] == w[0];
    if |w| >= 2 {
      assert s[0] != '0';
    } else if |s| >= 2 {
      assert s[1] == rest[0];
    }
    ParseIntPlain(s);
    TakeWhileAll(IsDigit, w, rest);
    DecimalRoundTrip(n);
  }

  lemma ParseIntOfNat(n: nat)
    ensures ParseInt(NatToString(n)) == Some(n)
  {
    ParseIntOfDecimal(n, "");
    assert NatToString(n) + "" == NatToString(n);
  }

  /** A string that starts with a digit and no hex prefix: parseInt reads its leading digits. */
  lemma ParseIntPlain(s: string)
    requires s != [] && IsDigit(s[0])
    requires |s| < 2 || s[0] != '0' || (s[1] != 'x' && s[1] != 'X')
    ensures ParseInt(s) == Some(DecimalValue(TakeWhile(IsDigit, s)))
  {
    DigitNotSpace(s[0]);
    assert TrimStart(s) == s;
    ParseIntUnsigned(s);
    ParseUnsignedDecimal(s);
  }

  lemma ParseIntUnsigned(s: string)
    requires TrimStart(s) == s && s != [] && s[0] != '-' && s[0] != '+'
    ensures ParseInt(s) == ParseUnsigned(s)
  {
  }

  lemma ParseUnsignedDecimal(u: string)
    requires u != [] && IsDigit(u[0])
    requires |u| < 2 || u[0] != '0' || (u[1] != 'x' && u[1] != 'X')
    ensures ParseUnsigned(u) == Some(DecimalValue(TakeWhile(IsDigit, u)))
  {
    assert TakeWhile(IsDigit, u) != [];
  }

  lemma DigitNotSpace(c: char)
    requires IsDigit(c)
    ensures !IsJsSpace(c)
  {
  }

  /**
   * `Number(s)` for a string, for the forms the model covers: white space around
   * the literal is ignored, an empty literal is 0, an optionally signed run of
   * decimal digits is its value and `0x`/`0X` followed by hex digits is read in
   * base 16. Every other string is NaN (`None`) here.
   */
  function StringToNumber(s: string): (r: Option<int>)
  {
    var t := Trim(s);
    if t == [] then Some(0)
    else if |t| > 2 && t[0] == '0' && (t[1] == 'x' || t[1] == 'X')
         && (forall i :: 2 <= i < |t| ==> IsHexDigit(t[i])) then
      Some(HexStringValue(t[2..]))
    else
      var neg := t[0] == '-';
      var u := if t[0] == '-' || t[0] == '+' then t[1..] else t;
      var v: int := if u != [] && AllDigits(u) then DecimalValue(u) else 0;
      if u != [] && AllDigits(u) then Some(if neg then -v else v)
      else None
  }

  /** `Number(s)` of a non-empty run of decimal digits is its decimal value, leading zeros included. */
  lemma StringToNumberOfDigits(s: string)
    requires s != [] && AllDigits(s)
    ensures StringToNumber(s) == Some(DecimalValue(s))
  {
    DigitNotSpace(s[0]);
    DigitNotSpace(s[|s| - 1]);
    TrimUnchanged(s);
    assert s[0] != '-' && s[0] != '+';
    if |s| > 2 {
      assert IsDigit(s[1]);
      assert s[1] != 'x' && s[1] != 'X';
    }
  }

  // ---------------------------------------------------------------- ordering

  /** The order JavaScript and IndexedDB give strings: code unit by code unit, a prefix first. */
  predicate LexLeq(a: string, b: string)
    decreases |a|
  {
    a == [] || (b != [] && (a[0] < b[0] || (a[0] == b[0] && LexLeq(a[1..], b[1..]))))
  }

  lemma {:induction false} LexLeqTotal(a: string, b: string)
    ensures LexLeq(a, b) || LexLeq(b, a)
    decreases |a|
  {
    if a != [] && b != [] && a[0] == b[0] {
      LexLeqTotal(a[1..], b[1..]);
    }
  }

  lemma {:induction false} LexLeqTransitive(a: string, b: string, c: string)
    requires LexLeq(a, b) && LexLeq(b, c)
    ensures LexLeq(a, c)
    decreases |a|
  {
    if a != [] && b != [] && c != [] && a[0] == b[0] && b[0] == c[0] {
      LexLeqTransitive(a[1..], b[1..], c[1..]);
    }
  }
}
