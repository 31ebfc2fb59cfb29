/**
 * `encodeURIComponent` and `decodeURIComponent` as ECMAScript defines them
 * (sections 19.2.6.4-19.2.6.5 of ECMA-262): every character outside the
 * unreserved set is written as the `%XX` escapes of its UTF-8 bytes, and
 * decoding reads escapes back, failing (URIError) on a malformed escape or an
 * invalid UTF-8 sequence.
 */
module Uri {
  import opened Wrappers
  import opened Text

  /** Characters `encodeURIComponent` leaves as they are. */
  predicate Unreserved(c: char)
  {
    ('A' <= c <= 'Z') || ('a' <= c <= 'z') || IsDigit(c)
    || c == '-' || c == '_' || c == '.' || c == '!' || c == '~' || c == '*'
    || c == '\'' || c == '(' || c == ')'
  }

  predicate IsScalar(cp: int)
  {
    (0 <= cp < 0xD800) || (0xE000 <= cp < 0x11_0000)
  }

  /** UTF-8 encoding of one code point (RFC 3629, section 3). */
  function Utf8(cp: int): (bytes: seq<nat>)
    requires IsScalar(cp)
    ensures 1 <= |bytes| <= 4
    ensures forall i :: 0 <= i < |bytes| ==> bytes[i] < 256
  {
    if cp < 0x80 then [cp]
    else if cp < 0x800 then [0xC0 + cp / 64, 0x80 + cp % 64]
    else if cp < 0x1_0000 then [0xE0 + cp / 4096, 0x80 + (cp / 64) % 64, 0x80 + cp % 64]
    else [0xF0 + cp / 262144, 0x80 + (cp / 4096) % 64, 0x80 + (cp / 64) % 64, 0x80 + cp % 64]
  }

  function HexUpper(d: nat): (c: char)
    requires d < 16
    ensures IsHexDigit(c) && HexValue(c) == d
  {
    "0123456789ABCDEF"[d]
  }

  function Escape(b: nat): (e: string)
    requires b < 256
    ensures |e| == 3 && e[0] == '%'
  {
    ['%', HexUpper(b / 16), HexUpper(b % 16)]
  }

  function EscapeAll(bytes: seq<nat>): (e: string)
    requires forall i :: 0 <= i < |bytes| ==> bytes[i] < 256
    ensures |e| == 3 * |bytes|
  {
    if bytes == [] then [] else Escape(bytes[0]) + EscapeAll(bytes[1..])
  }

  function EncodeChar(c: char): (e: string)
    ensures |e| >= 1
  {
    if Unreserved(c) then [c] else EscapeAll(Utf8(c as int))
  }

  /** `encodeURIComponent(s)`. */
  function EncodeURIComponent(s: string): (e: string)
  {
    if s == [] then [] else EncodeChar(s[0]) + EncodeURIComponent(s[1..])
  }

  /** The encoding never contains a `/`, so an encoded name is a single path segment. */
  lemma {:induction false} EncodedHasNoSlash(s: string)
    ensures '/' !in EncodeURIComponent(s)
  {
    if s != [] {
      EncodedHasNoSlash(s[1..]);
      var c := s[0];
      if !Unreserved(c) {
        EscapesHaveNoSlash(Utf8(c as int));
      }
    }
  }

  lemma {:induction false} EscapesHaveNoSlash(bytes: seq<nat>)
    requires forall i :: 0 <= i < |bytes| ==> bytes[i] < 256
    ensures '/' !in EscapeAll(bytes)
  {
    if bytes != [] {
      EscapesHaveNoSlash(bytes[1..]);
    }
  }

  /**
   * Every character of an encoding is unreserved or the `%` of an escape, so none of
   * `/ ? # & =` survives: an encoded value cannot end a path segment or a query parameter.
   */
  lemma {:induction false} EncodedCharacters(s: string)
    ensures forall i :: 0 <= i < |EncodeURIComponent(s)| ==>
      Unreserved(EncodeURIComponent(s)[i]) || EncodeURIComponent(s)[i] == '%'
  {
    if s != [] {
      EncodedCharacters(s[1..]);
      var c := s[0];
      if !Unreserved(c) {
        EscapeCharacters(Utf8(c as int));
      }
      var e := EncodeChar(c);
      var t := EncodeURIComponent(s[1..]);
      assert EncodeURIComponent(s) == e + t;
      forall i | 0 <= i < |e + t|
        ensures Unreserved((e + t)[i]) || (e + t)[i] == '%'
      {
        if i >= |e| {
          assert (e + t)[i] == t[i - |e|];
        }
      }
    }
  }

  lemma {:induction false} EscapeCharacters(bytes: seq<nat>)
    requires forall i :: 0 <= i < |bytes| ==> bytes[i] < 256
    ensures forall i :: 0 <= i < |EscapeAll(bytes)| ==> Unreserved(EscapeAll(bytes)[i]) || EscapeAll(bytes)[i] == '%'
  {
    if bytes != [] {
      EscapeCharacters(bytes[1..]);
      var e := Escape(bytes[0]);
      var t := EscapeAll(bytes[1..]);
      assert EscapeAll(bytes) == e + t;
      forall i | 0 <= i < |e + t|
        ensures Unreserved((e + t)[i]) || (e + t)[i] == '%'
      {
        if i >= |e| {
          assert (e + t)[i] == t[i - |e|];
        }
      }
    }
  }

  /** A string of unreserved characters is its own encoding. */
  lemma {:induction false} EncodeUnreserved(s: string)
    requires forall i :: 0 <= i < |s| ==> Unreserved(s[i])
    ensures EncodeURIComponent(s) == s
  {
    if s != [] {
      EncodeUnreserved(s[1..]);
      assert [s[0]] + s[1..] == s;
    }
  }

  /** The byte written by the escape `%XY` at the front of `t`, if there is one. */
  function ReadEscape(t: string): (r: Option<nat>)
    ensures r.Some? ==> r.value < 256
  {
    if |t| >= 3 && t[0] == '%' && IsHexDigit(t[1]) && IsHexDigit(t[2])
    then Some(HexValue(t[1]) * 16 + HexValue(t[2]))
    else None
  }

  /** Number of bytes of the UTF-8 sequence that starts with lead byte `b`, or 0 if `b` cannot lead. */
  function SequenceLength(b: nat): nat
  {
    if b < 0x80 then 1
    else if b < 0xC0 then 0
    else if b < 0xE0 then 2
    else if b < 0xF0 then 3
    else if b < 0xF8 then 4
    else 0
  }

  /** Reads `n` continuation escapes (`%80`-`%BF`) from the front of `t`. */
  function ReadContinuations(t: string, n: nat): (r: Option<seq<nat>>)
    ensures r.Some? ==> |r.value| == n && forall i :: 0 <= i < n ==> 0x80 <= r.value[i] < 0xC0
    decreases n
  {
    if n == 0 then Some([])
    else match ReadEscape(t)
      case None => None
      case Some(b) =>
        if 0x80 <= b < 0xC0 && |t| >= 3 then
          match ReadContinuations(t[3..], n - 1)
          case None => None
          case Some(rest) => Some([b] + rest)
        else None
  }

  /** The code point of a lead byte and its continuation bytes. */
  function CodePoint(lead: nat, cont: seq<nat>): int
    requires |cont| == SequenceLength(lead) - 1 && SequenceLength(lead) >= 2
  {
    if |cont| == 1 then (lead as int - 0xC0) * 64 + (cont[0] as int - 0x80)
    else if |cont| == 2 then (lead as int - 0xE0) * 4096 + (cont[0] as int - 0x80) * 64 + (cont[1] as int - 0x80)
    else (lead as int - 0xF0) * 262144 + (cont[0] as int - 0x80) * 4096 + (cont[1] as int - 0x80) * 64 + (cont[2] as int - 0x80)
  }

  /** Smallest code point that needs a sequence of `n` bytes (longer forms are overlong). */
  function MinCodePoint(n: nat): int
  {
    if n == 2 then 0x80 else if n == 3 then 0x800 else 0x1_0000
  }

  /** Decodes the character at the front of `t`: the character and how many characters it took. */
  function DecodeStep(t: string): (r: Result<(char, nat), string>)
    requires t != []
    ensures r.Success? ==> 1 <= r.value.1 <= |t|
  {
    if t[0] != '%' then Success((t[0], 1))
    else match ReadEscape(t)
      case None => Failure("URIError: URI malformed")
      case Some(lead) =>
        var n := SequenceLength(lead);
        if n == 0 then Failure("URIError: URI malformed")
        else if n == 1 then Success((lead as char, 3))
        else match ReadContinuations(t[3..], n - 1)
          case None => Failure("URIError: URI malformed")
          case Some(cont) =>
            var cp := CodePoint(lead, cont);
            if cp < MinCodePoint(n) || !IsScalar(cp) then Failure("URIError: URI malformed")
            else Success((cp as char, 3 * n))
  }

  /** `decodeURIComponent(t)`. */
  function DecodeURIComponent(t: string): (r: Result<string, string>)
    decreases |t|
  {
    if t == [] then Success([])
    else match DecodeStep(t)
      case Failure(e) => Failure(e)
      case Success((c, k)) =>
        match DecodeURIComponent(t[k..])
        case Failure(e) => Failure(e)
        case Success(rest) => Success([c] + rest)
  }

  lemma ReadEscapeOf(b: nat, rest: string)
    requires b < 256
    ensures ReadEscape(Escape(b) + rest) == Some(b)
  {
  }

  lemma {:induction false} ReadContinuationsOf(bytes: seq<nat>, rest: string)
    requires forall i :: 0 <= i < |bytes| ==> 0x80 <= bytes[i] < 0xC0
    ensures ReadContinuations(EscapeAll(bytes) + rest, |bytes|) == Some(bytes)
    decreases |bytes|
  {
    if bytes != [] {
      ReadContinuationsOf(bytes[1..], rest);
      ReadContinuationsCons(bytes, rest);
    }
  }

  lemma ReadContinuationsCons(bytes: seq<nat>, rest: string)
    requires bytes != [] && forall i :: 0 <= i < |bytes| ==> 0x80 <= bytes[i] < 0xC0
    requires ReadContinuations(EscapeAll(bytes[1..]) + rest, |bytes| - 1) == Some(bytes[1..])
    ensures ReadContinuations(EscapeAll(bytes) + rest, |bytes|) == Some(bytes)
  {
    var tail := EscapeAll(bytes[1..]) + rest;
    EscapeAllFront(bytes, rest);
    EscapeThen(bytes[0], tail);
    ContinuationStep(EscapeAll(bytes) + rest, |bytes|, bytes[0], bytes[1..]);
    assert [bytes[0]] + bytes[1..] == bytes;
  }

  lemma EscapeAllFront(bytes: seq<nat>, rest: string)
    requires bytes != [] && forall i :: 0 <= i < |bytes| ==> bytes[i] < 256
    ensures EscapeAll(bytes) + rest == Escape(bytes[0]) + (EscapeAll(bytes[1..]) + rest)
  {
    var e := Escape(bytes[0]);
    var more := EscapeAll(bytes[1..]);
    assert EscapeAll(bytes) == e + more;
    AppendAssoc(e, more, rest);
  }

  /** An escape in front of `tail` reads as its byte, and the text after it is `tail`. */
  lemma EscapeThen(b: nat, tail: string)
    requires b < 256
    ensures ReadEscape(Escape(b) + tail) == Some(b)
    ensures |Escape(b) + tail| >= 3 && (Escape(b) + tail)[3..] == tail
  {
    ReadEscapeOf(b, tail);
  }

  lemma ContinuationStep(t: string, n: nat, b: nat, more: seq<nat>)
    requires n >= 1 && ReadEscape(t) == Some(b) && 0x80 <= b < 0xC0 && |t| >= 3
    requires ReadContinuations(t[3..], n - 1) == Some(more)
    ensures ReadContinuations(t, n) == Some([b] + more)
  {
  }

  /** The lead byte announces the length of the encoding, and the bytes give back `cp`, in its shortest form. */
  lemma CodePointOfUtf8(cp: int)
    requires IsScalar(cp) && cp >= 0x80
    ensures var bytes := Utf8(cp);
      && SequenceLength(bytes[0]) == |bytes| >= 2
      && CodePoint(bytes[0], bytes[1..]) == cp
      && MinCodePoint(|bytes|) <= cp
  {
    var q1 := cp / 64;
    var r1 := cp % 64;
    assert cp == q1 * 64 + r1;
    var q2 := q1 / 64;
    var r2 := q1 % 64;
    assert q1 == q2 * 64 + r2;
    var q3 := q2 / 64;
    var r3 := q2 % 64;
    assert q2 == q3 * 64 + r3;
    assert cp / 4096 == q2 by {
      assert cp == q2 * 4096 + (r2 * 64 + r1);
    }
    assert cp / 262144 == q3 by {
      assert cp == q3 * 262144 + (r3 * 4096 + r2 * 64 + r1);
    }
  }

  /** Decoding the escapes of one code point's UTF-8 bytes gives that code point back. */
  lemma Utf8Decodes(cp: int, rest: string)
    requires IsScalar(cp) && cp >= 0x80
    ensures DecodeStep(EscapeAll(Utf8(cp)) + rest) == Success((cp as char, 3 * |Utf8(cp)|))
  {
    var bytes := Utf8(cp);
    var tail := EscapeAll(bytes[1..]) + rest;
    EscapeAllFront(bytes, rest);
    EscapeThen(bytes[0], tail);
    ReadContinuationsOf(bytes[1..], rest);
    CodePointOfUtf8(cp);
    DecodeMultiByte(EscapeAll(bytes) + rest, bytes[0], bytes[1..], cp);
  }

  /** A lead escape followed by its continuation escapes decodes to their code point. */
  lemma DecodeMultiByte(t: string, lead: nat, cont: seq<nat>, cp: int)
    requires |t| >= 3 && t[0] == '%' && ReadEscape(t) == Some(lead)
    requires SequenceLength(lead) == |cont| + 1 >= 2
    requires ReadContinuations(t[3..], |cont|) == Some(cont)
    requires CodePoint(lead, cont) == cp && MinCodePoint(|cont| + 1) <= cp && IsScalar(cp)
    ensures DecodeStep(t) == Success((cp as char, 3 * (|cont| + 1)))
  {
  }

  lemma EncodeCharDecodes(c: char, rest: string)
    ensures DecodeStep(EncodeChar(c) + rest) == Success((c, |EncodeChar(c)|))
  {
    if !Unreserved(c) {
      if (c as int) < 0x80 {
        var t := EncodeChar(c) + rest;
        assert t == Escape(c as int) + rest;
        ReadEscapeOf(c as int, rest);
      } else {
        Utf8Decodes(c as int, rest);
      }
    }
  }

  /** Decoding undoes encoding, for every string. */
  lemma {:induction false} DecodeEncode(s: string)
    ensures DecodeURIComponent(EncodeURIComponent(s)) == Success(s)
  {
    if s != [] {
      var e := EncodeChar(s[0]);
      var t := EncodeURIComponent(s);
      assert t == e + EncodeURIComponent(s[1..]);
      EncodeCharDecodes(s[0], EncodeURIComponent(s[1..]));
      assert t[|e|..] == EncodeURIComponent(s[1..]);
      DecodeEncode(s[1..]);
      assert [s[0]] + s[1..] == s;
    }
  }
}
