/**
 * The OData `$filter` text a table query sends, and what the table service makes
 * of it. The handlers build their filters by pasting ids between single quotes,
 * `PartitionKey eq '<userId>' and routineId eq '<routineId>'`, so what a query
 * selects depends on how that text reads back: a quoted literal ends at the first
 * `'` that is not doubled, and a filter that does not read as comparisons joined
 * by `and` / `or` is refused (the query throws).
 */
module OData {
  import opened Wrappers
  import opened Text

  datatype Token = Word(text: string) | Literal(value: string)

  datatype Op = Eq | Ne

  /** A filter expression: comparisons of a property with a string literal, joined by `and` and `or`. */
  datatype Filter =
    | Compare(property: string, op: Op, value: string)
    | And(left: Filter, right: Filter)
    | Or(left: Filter, right: Filter)

  /** A character that can belong to a bare word: anything but a blank and a quote. */
  predicate IsWordChar(c: char)
  {
    c != ' ' && c != '\''
  }

  predicate IsWord(w: string)
  {
    w != [] && forall i :: 0 <= i < |w| ==> IsWordChar(w[i])
  }

  function Cons(t: Token, r: Option<seq<Token>>): Option<seq<Token>>
  {
    match r
    case None => None
    case Some(ts) => Some([t] + ts)
  }

  /**
   * The rest of a quoted literal, after its opening quote: its value and the text
   * after the closing quote. `''` stands for one quote; no closing quote is an error.
   */
  function ReadLiteral(s: string): (r: Option<(string, string)>)
    ensures r.Some? ==> |r.value.1| < |s|
  {
    if s == [] then None
    else if s[0] == '\'' then
      if |s| > 1 && s[1] == '\'' then
        match ReadLiteral(s[2..])
        case None => None
        case Some((v, rest)) => Some(("'" + v, rest))
      else Some(("", s[1..]))
    else
      match ReadLiteral(s[1..])
      case None => None
      case Some((v, rest)) => Some(([s[0]] + v, rest))
  }

  /** The tokens of a filter text: blanks separate words, quotes delimit literals. */
  function Lex(s: string): Option<seq<Token>>
    decreases |s|
  {
    if s == [] then Some([])
    else if s[0] == ' ' then Lex(s[1..])
    else if s[0] == '\'' then
      match ReadLiteral(s[1..])
      case None => None
      case Some((v, rest)) => Cons(Literal(v), Lex(rest))
    else
      var w := TakeWhile(IsWordChar, s);
      assert |w| > 0;
      Cons(Word(w), Lex(s[|w|..]))
  }

  /** `<property> eq '<value>'` or `<property> ne '<value>'`, and the tokens after it. */
  function ParseComparison(t: seq<Token>): (r: Option<(Filter, seq<Token>)>)
    ensures r.Some? ==> |r.value.1| < |t|
  {
    if |t| >= 3 && t[0].Word? && (t[1] == Word("eq") || t[1] == Word("ne")) && t[2].Literal? then
      Some((Compare(t[0].text, if t[1] == Word("eq") then Eq else Ne, t[2].value), t[3..]))
    else None
  }

  /** Comparisons joined by `and`, which binds tighter than `or`. */
  function ParseConjunction(t: seq<Token>): (r: Option<(Filter, seq<Token>)>)
    ensures r.Some? ==> |r.value.1| < |t|
    decreases |t|
  {
    match ParseComparison(t)
    case None => None
    case Some((c, rest)) =>
      if rest != [] && rest[0] == Word("and") then
        match ParseConjunction(rest[1..])
        case None => None
        case Some((d, rest')) => Some((And(c, d), rest'))
      else Some((c, rest))
  }

  /** Conjunctions joined by `or`. */
  function ParseDisjunction(t: seq<Token>): (r: Option<(Filter, seq<Token>)>)
    ensures r.Some? ==> |r.value.1| < |t|
    decreases |t|
  {
    match ParseConjunction(t)
    case None => None
    case Some((c, rest)) =>
      if rest != [] && rest[0] == Word("or") then
        match ParseDisjunction(rest[1..])
        case None => None
        case Some((d, rest')) => Some((Or(c, d), rest'))
      else Some((c, rest))
  }

  /** The filter a text reads as, or `None` when the service refuses it. */
  function Parse(s: string): Option<Filter>
  {
    match Lex(s)
    case None => None
    case Some(t) =>
      match ParseDisjunction(t)
      case None => None
      case Some((f, rest)) => if rest == [] then Some(f) else None
  }

  /**
   * Whether a row with the given properties passes the filter. A comparison with a
   * property the row lacks, or holds as a number, is false for `eq` and `ne` alike.
   */
  function Holds(f: Filter, property: string -> Option<string>): bool
  {
    match f
    case Compare(p, Eq, v) => property(p) == Some(v)
    case Compare(p, Ne, v) => property(p).Some? && property(p).value != v
    case And(l, r) => Holds(l, property) && Holds(r, property)
    case Or(l, r) => Holds(l, property) || Holds(r, property)
  }

  /** `PartitionKey eq '<userId>' and <property> eq '<id>'`, with the ids pasted in as they are. */
  function IdFilter(userId: string, property: string, id: string): string
  {
    "PartitionKey eq '" + userId + "' and " + property + " eq '" + id + "'"
  }

  /** The exact test such a filter is meant to be. */
  function IdTest(userId: string, property: string, id: string): Filter
  {
    And(Compare("PartitionKey", Eq, userId), Compare(property, Eq, id))
  }

  /** An OData string literal's escaping: every quote doubled. */
  function Escape(s: string): (r: string)
    ensures '\'' !in s ==> r == s
  {
    if s == [] then []
    else
      assert '\'' !in s ==> '\'' !in s[1..] by {
        if '\'' in s[1..] {
          var k :| 0 <= k < |s[1..]| && s[1..][k] == '\'';
          assert s[k + 1] == '\'';
        }
      }
      assert s == [s[0]] + s[1..];
      (if s[0] == '\'' then "''" else [s[0]]) + Escape(s[1..])
  }

  /** The filter with the ids escaped as literals. */
  function EscapedIdFilter(userId: string, property: string, id: string): string
  {
    IdFilter(Escape(userId), property, Escape(id))
  }

  // ---------------------------------------------------------------- reading text back

  /** A closing quote not followed by another quote ends the literal. */
  lemma ReadClose(rest: string)
    requires rest == [] || rest[0] != '\''
    ensures ReadLiteral("'" + rest) == Some(("", rest))
  {
    assert ("'" + rest)[1..] == rest;
  }

  /** A doubled quote inside a literal reads as one quote. */
  lemma ReadQuotePair(tail: string, v: string, rest: string)
    requires ReadLiteral(tail) == Some((v, rest))
    ensures ReadLiteral("''" + tail) == Some(("'" + v, rest))
  {
    assert ("''" + tail)[2..] == tail;
  }

  /** Any other character reads as itself. */
  lemma ReadChar(c: char, tail: string, v: string, rest: string)
    requires c != '\'' && ReadLiteral(tail) == Some((v, rest))
    ensures ReadLiteral([c] + tail) == Some(([c] + v, rest))
  {
    assert ([c] + tail)[1..] == tail;
  }

  /** An escaped value followed by a closing quote reads back as that value. */
  lemma {:induction false} ReadEscaped(v: string, rest: string)
    requires rest == [] || rest[0] != '\''
    ensures ReadLiteral(Escape(v) + ("'" + rest)) == Some((v, rest))
  {
    if v == [] {
      assert Escape(v) + ("'" + rest) == "'" + rest;
      ReadClose(rest);
    } else {
      var tail := Escape(v[1..]) + ("'" + rest);
      ReadEscaped(v[1..], rest);
      var x := if v[0] == '\'' then "''" else [v[0]];
      assert Escape(v) == x + Escape(v[1..]);
      AppendAssoc(x, Escape(v[1..]), "'" + rest);
      if v[0] == '\'' {
        ReadQuotePair(tail, v[1..], rest);
      } else {
        ReadChar(v[0], tail, v[1..], rest);
      }
      assert [v[0]] + v[1..] == v;
    }
  }

  lemma LexEscaped(v: string, rest: string)
    requires rest == [] || rest[0] != '\''
    ensures Lex("'" + (Escape(v) + ("'" + rest))) == Cons(Literal(v), Lex(rest))
  {
    var s := "'" + (Escape(v) + ("'" + rest));
    assert s[1..] == Escape(v) + ("'" + rest);
    ReadEscaped(v, rest);
  }

  lemma LexWord(w: string, rest: string)
    requires IsWord(w)
    requires rest == [] || !IsWordChar(rest[0])
    ensures Lex(w + rest) == Cons(Word(w), Lex(rest))
  {
    TakeWhileAll(IsWordChar, w, rest);
    assert (w + rest)[0] == w[0];
    assert (w + rest)[|w|..] == rest;
  }

  lemma LexSpace(rest: string)
    ensures Lex(" " + rest) == Lex(rest)
  {
    assert (" " + rest)[1..] == rest;
  }

  /** `<w> <rest>` for a bare word `w`. */
  lemma LexWordSpace(w: string, rest: string)
    requires IsWord(w)
    ensures Lex(w + (" " + rest)) == Cons(Word(w), Lex(rest))
  {
    LexWord(w, " " + rest);
    LexSpace(rest);
  }

  /** `<w> <rest>` once the rest is known to read as `ts`. */
  lemma LexWordThen(w: string, rest: string, ts: seq<Token>)
    requires IsWord(w) && Lex(rest) == Some(ts)
    ensures Lex(w + (" " + rest)) == Some([Word(w)] + ts)
  {
    LexWordSpace(w, rest);
  }

  lemma KeywordsAreWords()
    ensures IsWord("PartitionKey") && IsWord("eq") && IsWord("ne") && IsWord("and") && IsWord("or")
    ensures IsWord("routineId") && IsWord("exerciseId") && IsWord("date")
  {
  }

  /** `'<id>'`, the quoted second id that ends the filter. */
  function Quoted(id: string): string
  {
    "'" + (id + ("'" + []))
  }

  /** The text of an id filter, grouped the way it is read. */
  lemma IdFilterPieces(userId: string, property: string, id: string)
    ensures IdFilter(userId, property, id)
         == "PartitionKey" + (" " + ("eq" + (" " + ("'" + (userId + ("'" + (" " + ("and" + (" " + (property + (" " + ("eq" + (" " + Quoted(id))))))))))))))
  {
    var tail := "' and " + property + " eq '" + id + "'";
    assert IdFilter(userId, property, id) == "PartitionKey eq '" + (userId + tail);
    assert tail == "'" + (" " + ("and" + (" " + (property + (" " + ("eq" + (" " + Quoted(id))))))));
  }

  /** Up to the second id, an id filter reads as the same six tokens, whatever that id is. */
  lemma LexIdFilter(userId: string, property: string, id: string)
    requires IsWord(property)
    ensures Lex(IdFilter(Escape(userId), property, id))
         == Cons(Word("PartitionKey"), Cons(Word("eq"), Cons(Literal(userId), Cons(Word("and"),
              Cons(Word(property), Cons(Word("eq"), Lex(Quoted(id))))))))
  {
    var s4 := "eq" + (" " + Quoted(id));
    var s3 := property + (" " + s4);
    var s2 := "and" + (" " + s3);
    var s1 := "'" + (Escape(userId) + ("'" + (" " + s2)));
    IdFilterPieces(Escape(userId), property, id);
    KeywordsAreWords();
    LexWordSpace("eq", Quoted(id));
    LexWordSpace(property, s4);
    LexWordSpace("and", s3);
    LexSpace(s2);
    LexEscaped(userId, " " + s2);
    LexWordSpace("eq", s1);
    LexWordSpace("PartitionKey", "eq" + (" " + s1));
  }

  /** The tokens `PartitionKey eq '<userId>' and <property> eq '<id>'` parse as the exact test. */
  lemma ParseIdTokens(userId: string, property: string, id: string)
    ensures var t := [Word("PartitionKey"), Word("eq"), Literal(userId), Word("and"), Word(property), Word("eq"), Literal(id)];
      ParseDisjunction(t) == Some((IdTest(userId, property, id), []))
  {
    var t := [Word("PartitionKey"), Word("eq"), Literal(userId), Word("and"), Word(property), Word("eq"), Literal(id)];
    assert ParseComparison(t) == Some((Compare("PartitionKey", Eq, userId), t[3..]));
    assert t[3..][1..] == t[4..];
    assert ParseComparison(t[4..]) == Some((Compare(property, Eq, id), []));
    assert ParseConjunction(t[4..]) == Some((Compare(property, Eq, id), []));
    assert ParseConjunction(t) == Some((IdTest(userId, property, id), []));
  }

  /** The six tokens an id filter starts with. */
  function IdPrefix(userId: string, property: string): seq<Token>
  {
    [Word("PartitionKey"), Word("eq"), Literal(userId), Word("and"), Word(property), Word("eq")]
  }

  lemma IdPrefixTokens(userId: string, property: string, ts: seq<Token>)
    ensures Cons(Word("PartitionKey"), Cons(Word("eq"), Cons(Literal(userId), Cons(Word("and"),
              Cons(Word(property), Cons(Word("eq"), Some(ts)))))))
         == Some(IdPrefix(userId, property) + ts)
  {
    var x5 := [Word("eq")] + ts;
    var x4 := [Word(property)] + x5;
    var x3 := [Word("and")] + x4;
    var x2 := [Literal(userId)] + x3;
    var x1 := [Word("eq")] + x2;
    var x0 := [Word("PartitionKey")] + x1;
    assert x0 == IdPrefix(userId, property) + ts;
  }

  /** The seven tokens of an id filter whose second id reads back as `id`. */
  lemma LexQuotedEscaped(userId: string, property: string, id: string)
    requires IsWord(property)
    ensures Lex(IdFilter(Escape(userId), property, Escape(id)))
         == Some(IdPrefix(userId, property) + [Literal(id)])
  {
    LexIdFilter(userId, property, Escape(id));
    assert Lex(Quoted(Escape(id))) == Some([Literal(id)]) by {
      LexEscaped(id, []);
      assert [Literal(id)] + [] == [Literal(id)];
    }
    IdPrefixTokens(userId, property, [Literal(id)]);
  }

  /** With every quote doubled, an id filter reads as the exact test for every pair of ids. */
  lemma EscapedIdFilterExact(userId: string, property: string, id: string)
    requires IsWord(property)
    ensures Parse(EscapedIdFilter(userId, property, id)) == Some(IdTest(userId, property, id))
  {
    LexQuotedEscaped(userId, property, id);
    ParseIdTokens(userId, property, id);
    assert IdPrefix(userId, property) + [Literal(id)]
        == [Word("PartitionKey"), Word("eq"), Literal(userId), Word("and"), Word(property), Word("eq"), Literal(id)];
  }

  /** When neither id holds a quote, the filter as the handlers write it is the exact test. */
  lemma IdFilterExact(userId: string, property: string, id: string)
    requires IsWord(property) && '\'' !in userId && '\'' !in id
    ensures Parse(IdFilter(userId, property, id)) == Some(IdTest(userId, property, id))
  {
    EscapedIdFilterExact(userId, property, id);
  }

  /** A lone quote in the second id leaves the filter malformed: the query throws. */
  lemma QuoteBreaksFilter(userId: string, property: string)
    requires IsWord(property) && '\'' !in userId
    ensures Parse(IdFilter(userId, property, "a'b")) == None
  {
    LexIdFilter(userId, property, "a'b");
    assert Quoted("a'b") == "'" + (Escape("a") + ("'" + ("b" + "'")));
    LexEscaped("a", "b" + "'");
    assert IsWord("b");
    LexWord("b", "'");
    assert Lex("'") == None by {
      assert "'"[1..] == [];
    }
  }

  /** The routine id `x' or routineId ne '` closes the literal early and adds a clause of its own. */
  const Injection: string := "x' or routineId ne '"

  /** The filter then selects every row whose `routineId` is not empty, in any partition. */
  function InjectedTest(userId: string): Filter
  {
    Or(IdTest(userId, "routineId", "x"), Compare("routineId", Ne, ""))
  }

  /** The injected text after the caller's id reads as six more tokens than the plain one. */
  /** `'<a>' <b> <c> <d> ''` for a quote-free `a` and bare words `b`, `c`, `d`. */
  lemma LexClauseTail(a: string, b: string, c: string, d: string)
    requires '\'' !in a && IsWord(b) && IsWord(c) && IsWord(d)
    ensures Lex("'" + (a + ("'" + (" " + (b + (" " + (c + (" " + (d + (" " + Quoted("")))))))))))
         == Some([Literal(a)] + ([Word(b)] + ([Word(c)] + ([Word(d)] + ([Literal("")] + [])))))
  {
    var t3 := d + (" " + Quoted(""));
    var t2 := c + (" " + t3);
    var t1 := b + (" " + t2);
    LexEscaped("", []);
    LexWordThen(d, Quoted(""), [Literal("")] + []);
    LexWordThen(c, t3, [Word(d)] + ([Literal("")] + []));
    LexWordThen(b, t2, [Word(c)] + ([Word(d)] + ([Literal("")] + [])));
    LexEscaped(a, " " + t1);
    LexSpace(t1);
  }

  lemma FiveTokens(a: Token, b: Token, c: Token, d: Token, e: Token)
    ensures [a] + ([b] + ([c] + ([d] + ([e] + [])))) == [a, b, c, d, e]
  {
  }

  /** The injected id, quoted, spelled out piece by piece. */
  lemma InjectionPieces()
    ensures Quoted(Injection)
         == "'" + ("x" + ("'" + (" " + ("or" + (" " + ("routineId" + (" " + ("ne" + (" " + Quoted(""))))))))))
  {
  }

  /** The injected text after the caller's id reads as five tokens, where a plain id reads as one. */
  lemma LexInjectedTail()
    ensures Lex(Quoted(Injection)) == Some([Literal("x"), Word("or"), Word("routineId"), Word("ne"), Literal("")])
  {
    KeywordsAreWords();
    InjectionPieces();
    LexClauseTail("x", "or", "routineId", "ne");
    FiveTokens(Literal("x"), Word("or"), Word("routineId"), Word("ne"), Literal(""));
  }

  lemma InjectionReadsAsOr(userId: string)
    requires '\'' !in userId
    ensures Parse(IdFilter(userId, "routineId", Injection)) == Some(InjectedTest(userId))
  {
    var tail := [Literal("x"), Word("or"), Word("routineId"), Word("ne"), Literal("")];
    KeywordsAreWords();
    LexIdFilter(userId, "routineId", Injection);
    LexInjectedTail();
    IdPrefixTokens(userId, "routineId", tail);
    InjectedTokensParse(userId);
    InjectedTokens(userId);
  }

  lemma InjectedTokens(userId: string)
    ensures IdPrefix(userId, "routineId") + [Literal("x"), Word("or"), Word("routineId"), Word("ne"), Literal("")]
         == [Word("PartitionKey"), Word("eq"), Literal(userId), Word("and"), Word("routineId"), Word("eq"),
             Literal("x"), Word("or"), Word("routineId"), Word("ne"), Literal("")]
  {
  }

  lemma InjectedTokensParse(userId: string)
    ensures var t := [Word("PartitionKey"), Word("eq"), Literal(userId), Word("and"), Word("routineId"), Word("eq"),
                      Literal("x"), Word("or"), Word("routineId"), Word("ne"), Literal("")];
      ParseDisjunction(t) == Some((InjectedTest(userId), []))
  {
    var t := [Word("PartitionKey"), Word("eq"), Literal(userId), Word("and"), Word("routineId"), Word("eq"),
              Literal("x"), Word("or"), Word("routineId"), Word("ne"), Literal("")];
    assert ParseComparison(t) == Some((Compare("PartitionKey", Eq, userId), t[3..]));
    assert t[3..][1..] == t[4..];
    assert ParseComparison(t[4..]) == Some((Compare("routineId", Eq, "x"), t[7..]));
    assert t[4..][3..] == t[7..];
    assert ParseConjunction(t[4..]) == Some((Compare("routineId", Eq, "x"), t[7..]));
    assert ParseConjunction(t) == Some((IdTest(userId, "routineId", "x"), t[7..]));
    assert t[7..][1..] == t[8..];
    assert ParseComparison(t[8..]) == Some((Compare("routineId", Ne, ""), []));
    assert ParseConjunction(t[8..]) == Some((Compare("routineId", Ne, ""), []));
    assert ParseDisjunction(t[8..]) == Some((Compare("routineId", Ne, ""), []));
  }
}
