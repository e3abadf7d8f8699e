/** Splitting a query into snippets, and how tokens are written so that they survive it.
    Text is a sequence of one-byte characters. */
module QueryLexer {
  import opened Basics

  datatype Error =
    | QuoteInWord
    | UnexpectedEnd
    | NotAQuery
    | DuplicateClause
    | UnknownClause
    | BadNumber
    | MixedAndOr
    | UnknownOperator
    | BadValue

  datatype Result<+T> = Ok(value: T) | Err(error: Error)

  predicate Delimiter(ch: char) {
    ch == ' ' || ch == '\t' || ch == '\n' || ch == '\r' || ch == '(' || ch == ')'
  }

  predicate Special(ch: char) {
    Delimiter(ch) || ch == '"' || ch == '\\'
  }

  // ----- tokens

  function TrimLeft(text: string): string {
    if text != [] && text[0] == '"' then TrimLeft(text[1..]) else text
  }

  function TrimRight(text: string): string {
    if text != [] && text[|text| - 1] == '"' then TrimRight(text[..|text| - 1]) else text
  }

  /** Replaces a backslash followed by another character than a backslash by that character. */
  function Unescape(text: string): string {
    if |text| < 2 then text
    else if text[0] == '\\' && text[1] != '\\' then [text[1]] + Unescape(text[2..])
    else [text[0]] + Unescape(text[1..])
  }

  /** prepToken */
  function Prepared(text: string): string {
    Unescape(TrimRight(TrimLeft(text)))
  }

  function EscapeQuotes(token: string): string {
    if token == [] then [] else (if token[0] == '"' then ['\\', '"'] else [token[0]]) + EscapeQuotes(token[1..])
  }

  predicate Plain(token: string) {
    forall i | 0 <= i < |token| :: !Special(token[i])
  }

  /** escapeString */
  function Escaped(token: string): string {
    if Plain(token) then token else ['"'] + EscapeQuotes(token) + ['"']
  }

  // ----- the lexer

  /** What becomes of the text ahead, given the word begun so far (with its opening quote, if it
      is a quoted one) and whether the next character is escaped. */
  function Lex(text: string, word: Option<string>, quoted: bool, skip: bool): Result<seq<string>>
    requires quoted ==> word.Some? && |word.value| > 0
  {
    if text == [] then
      Ok(if word.Some? then [Prepared(word.value)] else [])
    else
      var ch := text[0];
      if skip then
        Lex(text[1..], if word.Some? then Some(word.value + [ch]) else None, quoted, false)
      else if quoted then
        if ch == '"' then
          Before([Prepared(word.value[1..])], Lex(text[1..], None, false, false))
        else
          Lex(text[1..], Some(word.value + [ch]), true, ch == '\\')
      else if Delimiter(ch) then
        Before((if word.Some? then [Prepared(word.value)] else [])
               + (if ch == '(' || ch == ')' then [[ch]] else []),
               Lex(text[1..], None, false, false))
      else if ch == '"' then
        if word.Some? then Err(QuoteInWord) else Lex(text[1..], Some([ch]), true, false)
      else
        Lex(text[1..], Some(if word.Some? then word.value + [ch] else [ch]), false, ch == '\\')
  }

  function Before(tokens: seq<string>, rest: Result<seq<string>>): Result<seq<string>> {
    if rest.Ok? then Ok(tokens + rest.value) else rest
  }

  lemma BeforeNothing(r: Result<seq<string>>)
    ensures Before([], r) == r
  {
    if r.Ok? { assert [] + r.value == r.value; }
  }

  lemma BeforeBefore(a: seq<string>, b: seq<string>, r: Result<seq<string>>)
    ensures Before(a, Before(b, r)) == Before(a + b, r)
  {
    if r.Ok? { assert a + (b + r.value) == a + b + r.value; }
  }

  function Snippets(text: string): Result<seq<string>> {
    Lex(text, None, false, false)
  }

  /** extractSnippets */
  method ExtractSnippets(text: string) returns (r: Result<seq<string>>)
    ensures r == Snippets(text)
  {
    var snippets: seq<string> := [];
    var skip, start, inParenthesis := false, -1, false;
    var pos := 0;
    BeforeNothing(Snippets(text));
    assert text[0..] == text;
    while pos < |text|
      invariant 0 <= pos <= |text| && -1 <= start && (start < pos || start == -1)
      invariant inParenthesis ==> 0 <= start
      invariant Snippets(text) ==
        Before(snippets, Lex(text[pos..], if start >= 0 then Some(text[start..pos]) else None, inParenthesis, skip))
    {
      var ch := text[pos];
      assert text[pos..][1..] == text[pos + 1..];
      assert start >= 0 ==> text[start..pos] + [ch] == text[start..pos + 1];
      assert text[pos..pos + 1] == [ch];
      ghost var ahead := Lex(text[pos + 1..], None, false, false);
      if skip {
        skip := false;
      } else {
        skip := ch == '\\';
        if inParenthesis {
          if ch == '"' {
            assert text[start..pos][1..] == text[start + 1..pos];
            BeforeBefore(snippets, [Prepared(text[start + 1..pos])], ahead);
            snippets := snippets + [Prepared(text[start + 1..pos])];
            start, inParenthesis := -1, false;
          }
        } else if Delimiter(ch) {
          var found: seq<string> := if start >= 0 then [Prepared(text[start..pos])] else [];
          start := -1;
          found := found + if ch == '(' || ch == ')' then [[ch]] else [];
          BeforeBefore(snippets, found, ahead);
          snippets := snippets + found;
        } else if ch == '"' {
          if start >= 0 { return Err(QuoteInWord); }
          start, inParenthesis := pos, true;
        } else if start == -1 {
          start := pos;
        }
      }
      pos := pos + 1;
    }
    assert text[pos..] == [];
    assert snippets + [] == snippets;
    if start >= 0 {
      assert text[start..pos] == text[start..];
      snippets := snippets + [Prepared(text[start..])];
    }
    return Ok(snippets);
  }

  // ----- tokens survive being written and lexed

  predicate Unslashed(token: string) {
    forall i | 0 <= i < |token| :: token[i] != '\\'
  }

  /** Tokens that can be written down: not empty, no backslash, no quote at the end. */
  predicate Printable(token: string) {
    token != [] && Unslashed(token) && token[|token| - 1] != '"'
  }

  /** What may follow a token: a delimiter, or nothing. */
  predicate Ends(rest: string) {
    rest == [] || Delimiter(rest[0])
  }

  lemma {:induction false} LexPlain(word: string, plain: string, rest: string)
    requires Plain(plain)
    ensures Lex(plain + rest, Some(word), false, false) == Lex(rest, Some(word + plain), false, false)
    decreases |plain|
  {
    if plain == [] {
      assert plain + rest == rest && word + plain == word;
    } else {
      var text := plain + rest;
      assert text[1..] == plain[1..] + rest && text[0] == plain[0];
      LexPlain(word + [plain[0]], plain[1..], rest);
      assert word + [plain[0]] + plain[1..] == word + plain;
    }
  }

  lemma {:induction false} EscapedEnds(token: string)
    requires token != []
    ensures EscapeQuotes(token) != [] && EscapeQuotes(token)[0] != '"'
    ensures EscapeQuotes(token)[|EscapeQuotes(token)| - 1] == token[|token| - 1]
  {
    if |token| > 1 { EscapedEnds(token[1..]); }
  }

  lemma PreparedEscaped(token: string)
    requires Printable(token)
    ensures Prepared(EscapeQuotes(token)) == token
  {
    EscapedEnds(token);
    UnslashedIsFine(token);
    UnescapeExactly(token);
  }

  lemma {:induction false} PlainEscaped(token: string)
    requires Plain(token)
    ensures EscapeQuotes(token) == token && Unslashed(token)
  {
    if token != [] { PlainEscaped(token[1..]); }
  }

  lemma PlainIsPrintable(token: string)
    requires Plain(token) && token != []
    ensures Printable(token) && Escaped(token) == token && Prepared(token) == token
  {
    PlainEscaped(token);
    PreparedEscaped(token);
  }

  lemma LexPlainWord(token: string, rest: string)
    requires Plain(token) && token != []
    ensures Lex(token + rest, None, false, false) == Lex(rest, Some(token), false, false)
  {
    var text := token + rest;
    assert text[1..] == token[1..] + rest && text[0] == token[0];
    LexPlain([token[0]], token[1..], rest);
    assert [token[0]] + token[1..] == token;
  }

  lemma LexQuoted(token: string, rest: string)
    requires Unslashed(token)
    ensures Lex(['"'] + EscapeQuotes(token) + ['"'] + rest, None, false, false)
         == Before([Prepared(EscapeQuotes(token))], Lex(rest, None, false, false))
  {
    var inner := EscapeQuotes(token);
    var text, tail := ['"'] + inner + ['"'] + rest, ['"'] + rest;
    assert text[1..] == inner + tail;
    UnslashedIsFine(token);
    LexUnbroken(['"'], token, tail, false);
    assert tail[1..] == rest && (['"'] + inner)[1..] == inner;
  }

  /** A printable token, written down in front of a delimiter or at the end, is lexed as itself. */
  lemma LexToken(token: string, rest: string)
    requires Printable(token) && Ends(rest)
    ensures Lex(Escaped(token) + rest, None, false, false) == Before([token], Lex(rest, None, false, false))
  {
    if Plain(token) {
      PlainIsPrintable(token);
      LexPlainWord(token, rest);
      LexWordEnds(token, rest);
    } else {
      LexQuoted(token, rest);
      PreparedEscaped(token);
    }
  }

  lemma LexWordEnds(word: string, rest: string)
    requires Ends(rest) && word != [] && Prepared(word) == word
    ensures Lex(rest, Some(word), false, false) == Before([word], Lex(rest, None, false, false))
  {
    if rest == [] {
      assert [word] + [] == [word];
    } else {
      var more: seq<string> := if rest[0] == '(' || rest[0] == ')' then [[rest[0]]] else [];
      assert [] + more == more;
      BeforeBefore([word], more, Lex(rest[1..], None, false, false));
    }
  }

  lemma LexSpace(rest: string)
    ensures Lex([' '] + rest, None, false, false) == Lex(rest, None, false, false)
  {
    assert ([' '] + rest)[1..] == rest;
    var none: seq<string> := [];
    assert none + none == [];
    BeforeNothing(Lex(rest, None, false, false));
  }

  lemma LexParen(ch: char, rest: string)
    requires ch == '(' || ch == ')'
    ensures Lex([ch] + rest, None, false, false) == Before([[ch]], Lex(rest, None, false, false))
  {
    assert ([ch] + rest)[1..] == rest;
    assert [] + [[ch]] == [[ch]];
  }

  // ----- which tokens survive at all

  /** A quote behind an odd number of backslashes would not be escaped any more. */
  predicate Breaks(token: string, odd: bool) {
    if token == [] then false
    else if token[0] == '\\' then Breaks(token[1..], !odd)
    else if token[0] == '"' then odd || Breaks(token[1..], false)
    else Breaks(token[1..], false)
  }

  /** A backslash in front of another character is taken for an escape and lost. */
  predicate LosesSlash(token: string) {
    |token| >= 2
    && ((token[0] == '\\' && token[1] != '\\' && token[1] != '"') || LosesSlash(token[1..]))
  }

  /** Whether the token ends in an odd number of backslashes. */
  predicate OddEnd(token: string, odd: bool) {
    if token == [] then odd else OddEnd(token[1..], token[0] == '\\' && !odd)
  }

  lemma OneAhead(a: char, inner: string, rest: string)
    ensures var text := [a] + inner + rest; text != [] && text[0] == a && text[1..] == inner + rest
  {
  }

  lemma TwoAhead(a: char, b: char, inner: string, rest: string)
    ensures var text := [a, b] + inner + rest;
      |text| >= 2 && text[0] == a && text[1..] != [] && text[1..][0] == b && text[1..][1..] == inner + rest
  {
  }

  /** Within quotes an unbroken token is read to its end. */
  lemma {:induction false} LexUnbroken(word: string, token: string, rest: string, odd: bool)
    requires word != [] && !Breaks(token, odd)
    ensures Lex(EscapeQuotes(token) + rest, Some(word), true, odd)
         == Lex(rest, Some(word + EscapeQuotes(token)), true, OddEnd(token, odd))
    decreases |token|
  {
    var text := EscapeQuotes(token) + rest;
    if token == [] {
      assert text == rest && word + EscapeQuotes(token) == word;
    } else {
      if token[0] == '"' {
        TwoAhead('\\', '"', EscapeQuotes(token[1..]), rest);
        LexUnbroken(word + ['\\'] + ['"'], token[1..], rest, false);
        assert word + ['\\'] + ['"'] + EscapeQuotes(token[1..]) == word + EscapeQuotes(token);
      } else {
        OneAhead(token[0], EscapeQuotes(token[1..]), rest);
        LexUnbroken(word + [token[0]], token[1..], rest, token[0] == '\\' && !odd);
        assert word + [token[0]] + EscapeQuotes(token[1..]) == word + EscapeQuotes(token);
      }
    }
  }

  predicate AtLeast(r: Result<seq<string>>, n: nat) {
    r.Ok? ==> |r.value| >= n
  }

  /** A word begun is a token in the end. */
  lemma {:induction false} WordCounts(text: string, word: string, quoted: bool, skip: bool)
    requires quoted ==> word != []
    ensures AtLeast(Lex(text, Some(word), quoted, skip), 1)
    decreases |text|
  {
    if text != [] {
      var ch := text[0];
      if skip {
        WordCounts(text[1..], word + [ch], quoted, false);
      } else if quoted && ch != '"' {
        WordCounts(text[1..], word + [ch], true, ch == '\\');
      } else if !quoted && !Delimiter(ch) && ch != '"' {
        WordCounts(text[1..], word + [ch], false, ch == '\\');
      }
    }
  }

  lemma {:induction false} QuoteCounts(text: string)
    requires text != [] && text[|text| - 1] == '"'
    ensures AtLeast(Lex(text, None, false, false), 1)
  {
    var ch := text[0];
    if Delimiter(ch) {
      QuoteCounts(text[1..]);
    } else if ch == '"' {
      WordCounts(text[1..], [ch], true, false);
    } else {
      WordCounts(text[1..], [ch], false, ch == '\\');
    }
  }

  /** A broken token ends too early, and the closing quote begins another one. */
  lemma {:induction false} LexBroken(word: string, token: string, odd: bool)
    requires word != [] && Breaks(token, odd)
    ensures AtLeast(Lex(EscapeQuotes(token) + ['"'], Some(word), true, odd), 2)
    decreases |token|
  {
    var text, more := EscapeQuotes(token) + ['"'], EscapeQuotes(token[1..]) + ['"'];
    if token[0] == '"' {
      assert text == ['\\'] + (['"'] + more);
      assert text[1..] == ['"'] + more && text[1..][1..] == more;
      if odd {
        QuoteCounts(more);
      } else {
        LexBroken(word + ['\\'] + ['"'], token[1..], false);
      }
    } else {
      assert text == [token[0]] + more && text[1..] == more;
      LexBroken(word + [token[0]], token[1..], token[0] == '\\' && !odd);
    }
  }

  lemma {:induction false} UnescapeExactly(token: string)
    ensures !LosesSlash(token) ==> Unescape(EscapeQuotes(token)) == token
    ensures LosesSlash(token) ==> |Unescape(EscapeQuotes(token))| < |token|
    ensures |Unescape(EscapeQuotes(token))| <= |token|
    decreases |token|
  {
    if |token| >= 1 {
      var text, rest := EscapeQuotes(token), token[1..];
      UnescapeExactly(rest);
      if token[0] == '"' {
        assert text[2..] == EscapeQuotes(rest);
      } else {
        assert text[1..] == EscapeQuotes(rest);
        if rest == [] {
          assert text == token;
        } else if token[0] == '\\' && rest[0] != '\\' && rest[0] != '"' {
          UnescapeExactly(rest[1..]);
          assert text[2..] == EscapeQuotes(rest[1..]);
        } else {
          assert text[1] == EscapeQuotes(rest)[0];
        }
      }
    }
  }

  lemma {:induction false} UnescapeKeepsEnd(text: string)
    requires text != [] && text[|text| - 1] == '\\'
    ensures Unescape(text) != [] && Unescape(text)[|Unescape(text)| - 1] == '\\'
    decreases |text|
  {
    if |text| >= 2 {
      if text[0] == '\\' && text[1] != '\\' {
        UnescapeKeepsEnd(text[2..]);
      } else {
        UnescapeKeepsEnd(text[1..]);
      }
    }
  }

  lemma {:induction false} EscapeQuotesSnoc(init: string)
    ensures EscapeQuotes(init + ['"']) == EscapeQuotes(init) + ['\\', '"']
  {
    if init != [] {
      assert (init + ['"'])[1..] == init[1..] + ['"'];
      EscapeQuotesSnoc(init[1..]);
    }
  }

  /** A quote at the end is trimmed away, with a backslash left in its place. */
  lemma TrailingQuoteLost(init: string)
    ensures Prepared(EscapeQuotes(init + ['"'])) != init + ['"']
  {
    EscapeQuotesSnoc(init);
    EscapedEnds(init + ['"']);
    var text := EscapeQuotes(init) + ['\\', '"'];
    var cut := EscapeQuotes(init) + ['\\'];
    assert text[..|text| - 1] == cut && cut[|cut| - 1] == '\\';
    assert TrimLeft(text) == text && TrimRight(text) == TrimRight(cut) == cut;
    UnescapeKeepsEnd(cut);
    var result := Unescape(cut);
    assert result[|result| - 1] != (init + ['"'])[|init|];
  }

  /** Within its quotes, alone. */
  lemma LexAlone(token: string)
    requires token != [] && !Breaks(token, false)
    ensures Lex(['"'] + EscapeQuotes(token) + ['"'], None, false, false) == Ok([Prepared(EscapeQuotes(token))])
  {
    var inner := EscapeQuotes(token);
    var text := ['"'] + inner + ['"'];
    assert text[1..] == inner + ['"'];
    LexUnbroken(['"'], token, ['"'], false);
    assert (['"'] + inner)[1..] == inner && ['"'][1..] == [];
    EscapedEnds(token);
    var all := ['"'] + inner + ['"'];
    assert all[1..] == inner + ['"'] && TrimLeft(all) == TrimLeft(inner + ['"']);
    assert (inner + ['"'])[0] == inner[0] && (inner + ['"'])[..|inner|] == inner;
    assert [Prepared(inner)] + [] == [Prepared(inner)];
  }

  /** The tokens that survive being written and lexed are exactly those that are not empty, do not
      end in a quote, have an even number of backslashes before every quote, and have backslashes
      nowhere else but at the end. */
  lemma SurvivesExactly(token: string)
    ensures Snippets(Escaped(token)) == Ok([token])
        <==> token != [] && token[|token| - 1] != '"' && !Breaks(token, false) && !LosesSlash(token)
  {
    if Plain(token) {
      if token != [] { PlainSurvives(token); }
    } else if Breaks(token, false) {
      BrokenIsLost(token);
    } else {
      UnbrokenExactly(token);
    }
  }

  lemma BrokenIsLost(token: string)
    requires !Plain(token) && Breaks(token, false)
    ensures AtLeast(Snippets(Escaped(token)), 2)
  {
    assert (['"'] + EscapeQuotes(token) + ['"'])[1..] == EscapeQuotes(token) + ['"'];
    LexBroken(['"'], token, false);
  }

  lemma UnbrokenExactly(token: string)
    requires !Plain(token) && token != [] && !Breaks(token, false)
    ensures Snippets(Escaped(token)) == Ok([token]) <==> token[|token| - 1] != '"' && !LosesSlash(token)
  {
    LexAlone(token);
    PreparedExactly(token);
    Singletons(Prepared(EscapeQuotes(token)), token);
  }

  lemma Singletons(a: string, b: string)
    ensures [a] == [b] <==> a == b
  {
    if [a] == [b] { assert [a][0] == [b][0]; }
  }

  lemma PreparedExactly(token: string)
    requires token != []
    ensures Prepared(EscapeQuotes(token)) == token <==> token[|token| - 1] != '"' && !LosesSlash(token)
  {
    var n := |token| - 1;
    if token[n] == '"' {
      TrailingQuoteLost(token[..n]);
      assert token == token[..n] + ['"'];
    } else {
      PreparedIsUnescaped(token);
      UnescapeExactly(token);
    }
  }

  lemma PreparedIsUnescaped(token: string)
    requires token != [] && token[|token| - 1] != '"'
    ensures Prepared(EscapeQuotes(token)) == Unescape(EscapeQuotes(token))
  {
    EscapedEnds(token);
    TrimsNothing(EscapeQuotes(token));
  }

  lemma TrimsNothing(text: string)
    requires text != [] && text[0] != '"' && text[|text| - 1] != '"'
    ensures TrimRight(TrimLeft(text)) == text
  {
  }

  lemma PlainSurvives(token: string)
    requires Plain(token) && token != []
    ensures Snippets(Escaped(token)) == Ok([token])
    ensures token[|token| - 1] != '"' && !Breaks(token, false) && !LosesSlash(token)
  {
    PlainIsPrintable(token);
    assert Escaped(token) + [] == Escaped(token) && [token] + [] == [token];
    LexToken(token, []);
    UnslashedIsFine(token);
  }

  /** Without backslashes only the end matters. */
  lemma {:induction false} UnslashedIsFine(token: string)
    requires Unslashed(token)
    ensures !Breaks(token, false) && !LosesSlash(token) && !OddEnd(token, false)
  {
    if token != [] { UnslashedIsFine(token[1..]); }
  }

  /** For one, a backslash between letters is lost. */
  lemma SlashIsLost(token: string)
    requires token == ['a', '\\', 'b']
    ensures Snippets(Escaped(token)) != Ok([token])
  {
    assert token[1..] == ['\\', 'b'];
    SurvivesExactly(token);
  }
}
