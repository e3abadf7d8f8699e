/** What the query parser refuses, and what it takes although it is never printed. */
module QueryRejects {
  import opened Basics
  import opened Splitting
  import opened QueryLexer
  import opened QueryConditions
  import opened QueryParser
  import opened Queries

  // ----- texts

  predicate Blank(ch: char) {
    ch in " \t\n\r"
  }

  lemma LexBlank(ch: char, rest: string)
    requires Blank(ch)
    ensures LexOn([ch] + rest) == LexOn(rest)
  {
    assert ([ch] + rest)[1..] == rest;
    var none: seq<string> := [];
    assert none + none == [];
    BeforeNothing(LexOn(rest));
  }

  /** Space, tab, newline and carriage return all end a word, in any number. */
  lemma {:induction false} BlanksSeparate(token: string, blanks: string, rest: string)
    requires Printable(token) && blanks != [] && forall i | 0 <= i < |blanks| :: Blank(blanks[i])
    ensures LexOn(Escaped(token) + (blanks + rest)) == Before([token], LexOn(rest))
    decreases |blanks|
  {
    var tail := blanks[1..] + rest;
    assert blanks + rest == [blanks[0]] + tail;
    LexBlank(blanks[0], tail);
    LexToken(token, [blanks[0]] + tail);
    if |blanks| > 1 {
      BlanksSeparate(token, blanks[1..], rest);
      LexToken(token, tail);
    } else {
      assert tail == rest;
    }
  }

  /** A quote within a word is an error. */
  lemma QuoteInWordRejected(word: string, rest: string)
    requires Plain(word) && word != []
    ensures LexOn(word + (['"'] + rest)) == Err(QuoteInWord)
  {
    LexPlainWord(word, ['"'] + rest);
  }

  /** A quoted token need not be closed at the end. */
  lemma QuoteNotClosed(token: string)
    requires Printable(token)
    ensures LexOn(['"'] + EscapeQuotes(token)) == Ok([token])
  {
    var inner := EscapeQuotes(token);
    var text := ['"'] + inner;
    assert text[1..] == inner && inner + [] == inner;
    UnslashedIsFine(token);
    LexUnbroken(['"'], token, [], false);
    EscapedEnds(token);
    PreparedEscaped(token);
    TrimsNothing(inner);
    assert TrimLeft(text) == inner;
  }

  /** Outside quotes a backslash makes the next character part of the word. */
  lemma EscapedInWord(word: string, ch: char, more: string)
    requires Plain(word) && Plain(more) && ch != '\\' && (more != [] || ch != '"')
    ensures LexOn(word + (['\\', ch] + more)) == Ok([word + [ch] + more])
  {
    var text := word + (['\\', ch] + more);
    if word == [] {
      assert text == ['\\', ch] + more;
    } else {
      LexPlainWord(word, ['\\', ch] + more);
    }
    LexEscape(word, ch, more);
    UnescapeInWord(word, ch, more);
    assert text[0] != '"' && text[|text| - 1] != '"';
    TrimsNothing(text);
  }

  lemma LexEscape(word: string, ch: char, more: string)
    requires Plain(more)
    ensures Lex(['\\', ch] + more, if word == [] then None else Some(word), false, false)
         == Ok([Prepared(word + (['\\', ch] + more))])
  {
    var text := ['\\', ch] + more;
    assert text[1..] == [ch] + more && ([ch] + more)[1..] == more && more + [] == more;
    var begun := word + ['\\'] + [ch];
    assert begun == if word == [] then ['\\'] + [ch] else word + ['\\'] + [ch];
    LexPlain(begun, more, []);
    assert begun + more == word + text;
  }

  lemma {:induction false} UnescapeInWord(word: string, ch: char, more: string)
    requires Plain(word) && Plain(more) && ch != '\\'
    ensures Unescape(word + (['\\', ch] + more)) == word + [ch] + more
  {
    var text := word + (['\\', ch] + more);
    if word == [] {
      assert text[2..] == more;
      UnescapePlain(more);
    } else {
      UnescapeInWord(word[1..], ch, more);
      ConsParts(word, ['\\', ch], more);
      ConsParts(word, [ch], more);
      assert !Special(word[0]);
    }
  }

  lemma ConsParts(word: string, middle: string, more: string)
    requires word != [] && middle != []
    ensures var text := word + (middle + more); |text| >= 2 && text[0] == word[0] && text[1..] == word[1..] + (middle + more)
    ensures [word[0]] + (word[1..] + middle + more) == word + middle + more
  {
  }

  lemma {:induction false} UnescapePlain(text: string)
    requires Plain(text)
    ensures Unescape(text) == text
  {
    if |text| >= 2 { UnescapePlain(text[1..]); }
  }

  // ----- connectives

  lemma MixedWord(word: string, isOr: bool, more: seq<string>, root: bool, st: Loop)
    requires Joins(word, !isOr) && st.typeSet && st.isOr == isOr
    ensures AndOr([word] + more, root, st) == Err(MixedAndOr)
  {
    var ts := [word] + more;
    assert ts[0] == word;
  }

  /** After two or more conditions joined by one connective the other one is an error, whatever
      follows. */
  lemma MixedRejected(cs: seq<Condition>, word: string, other: string, isOr: bool, more: seq<string>, root: bool)
    requires |cs| >= 2 && (forall i | 0 <= i < |cs| :: Canonical(cs[i])) && Joins(word, isOr) && Joins(other, !isOr)
    ensures AndOr(TokensJoined(cs, word) + ([other] + more), root, START) == Err(MixedAndOr)
  {
    ParseJoined(cs, word, isOr, [other] + more, root, START);
    MixedWord(other, isOr, more, root, AfterAll(START, cs, isOr));
  }

  lemma MixedAndOrRejected(cs: seq<Condition>, more: seq<string>, root: bool)
    requires |cs| >= 2 && (forall i | 0 <= i < |cs| :: Canonical(cs[i]))
    ensures AndOr(TokensJoined(cs, "and") + (["or"] + more), root, START) == Err(MixedAndOr)
    ensures AndOr(TokensJoined(cs, "or") + (["and"] + more), root, START) == Err(MixedAndOr)
  {
    MixedRejected(cs, "and", "or", false, more, root);
    MixedRejected(cs, "or", "and", true, more, root);
  }

  /** What is wrong within a group is wrong. */
  lemma GroupFails(ts: seq<string>, root: bool, st: Loop)
    requires AndOr(ts, false, START).Err?
    ensures AndOr(["("] + ts, root, st) == AndOr(ts, false, START)
  {
    var all := ["("] + ts;
    assert all[0] == "(" && all[1..] == ts;
    assert !ClauseWord(all[0]);
  }

  /** A query text that mixes the connectives at one level is refused. */
  lemma MixedQueryRejected(key: string, cs: seq<Condition>, c: Condition)
    requires Plain(key) && key != [] && |cs| >= 2 && (forall i | 0 <= i < |cs| :: Canonical(cs[i])) && Canonical(c)
    ensures FromText(QueryText(key, TextJoined(cs, Spaced("and")) + (Spaced("or") + Text(c)))) == Err(MixedAndOr)
    ensures FromText(QueryText(key, TextJoined(cs, Spaced("or")) + (Spaced("and") + Text(c)))) == Err(MixedAndOr)
  {
    MixedAndOrRejected(cs, Tokens(c), true);
    LexMixed(cs, "and", "or", c);
    LexMixed(cs, "or", "and", c);
    WhereFails(key, TextJoined(cs, Spaced("and")) + (Spaced("or") + Text(c)), TokensJoined(cs, "and") + (["or"] + Tokens(c)));
    WhereFails(key, TextJoined(cs, Spaced("or")) + (Spaced("and") + Text(c)), TokensJoined(cs, "or") + (["and"] + Tokens(c)));
  }

  /** A query with a where clause. */
  function QueryText(key: string, where: string): string {
    "query" + ([' '] + key + ClauseText("where", where))
  }

  lemma LexMixed(cs: seq<Condition>, word: string, other: string, c: Condition)
    requires |cs| >= 2 && (forall i | 0 <= i < |cs| :: Canonical(cs[i])) && Canonical(c)
    requires Plain(word) && word != [] && Plain(other) && other != []
    ensures LexOn(TextJoined(cs, Spaced(word)) + (Spaced(other) + Text(c))) == Ok(TokensJoined(cs, word) + ([other] + Tokens(c)))
  {
    LexConditionAlone(c);
    var tail := [' '] + Text(c);
    LexSpace(Text(c));
    Regroup([' '] + other, [' '], [], Text(c));
    LexSpacedWord(other, tail);
    LexJoined(cs, word, Spaced(other) + Text(c));
  }

  lemma LexConditionAlone(c: Condition)
    requires Canonical(c)
    ensures LexOn(Text(c)) == Ok(Tokens(c))
  {
    LexCondition(c, []);
    assert Text(c) + [] == Text(c);
    assert Tokens(c) + [] == Tokens(c);
  }

  lemma LexQueryText(key: string, where: string, ts: seq<string>)
    requires Plain(key) && key != [] && LexOn(where) == Ok(ts)
    ensures Snippets(QueryText(key, where)) == Ok(["query", key] + (["where"] + ts))
  {
    var none: string := [];
    assert where + none == where && ClauseText("where", where) + none == ClauseText("where", where);
    assert ts + [] == ts && LexOn(none) == Ok([]);
    LexClause("where", where, ts, none);
    assert ["where"] + ts + [] == ["where"] + ts;
    LexTwoWords("query", key, ClauseText("where", where), ["where"] + ts);
  }

  lemma QueryTokens(key: string, ts: seq<string>)
    ensures FromTokens(["query", key] + ts) == Clauses(ts, New(key))
  {
    var all := ["query", key] + ts;
    assert all[0] == "query" && all[1] == key && all[2..] == ts;
  }

  lemma WhereFails(key: string, where: string, ts: seq<string>)
    requires Plain(key) && key != [] && LexOn(where) == Ok(ts) && AndOr(ts, true, START).Err?
    ensures FromText(QueryText(key, where)) == Err(AndOr(ts, true, START).error)
  {
    LexQueryText(key, where, ts);
    QueryTokens(key, ["where"] + ts);
    assert (["where"] + ts)[1..] == ts;
  }

  // ----- parentheses

  /** A group that is not closed ends unexpectedly. */
  lemma MissingClose(cs: seq<Condition>, word: string, isOr: bool, root: bool, st: Loop)
    requires |cs| > 0 && (forall i | 0 <= i < |cs| :: Canonical(cs[i])) && Joins(word, isOr)
    ensures AndOr(["("] + TokensJoined(cs, word), root, st) == Err(UnexpectedEnd)
  {
    ParseJoined(cs, word, isOr, [], false, START);
    assert TokensJoined(cs, word) + [] == TokensJoined(cs, word);
    GroupFails(TokensJoined(cs, word), root, st);
  }

  /** Parentheses around a single condition make no difference but that more is then expected. */
  lemma RedundantParentheses(c: Condition, rest: seq<string>, root: bool, st: Loop)
    requires Canonical(c)
    ensures AndOr(["("] + Tokens(c) + ([")"] + rest), root, st) == AndOr(rest, root, st.Add(c, true))
  {
    var tail := [")"] + rest;
    assert tail[0] == ")" && tail[1..] == rest && !ClauseWord(tail[0]);
    ParseOne(c, tail, false, START);
    assert START.Add(c, !LeafLike(c)).conditions == [c];
    assert AndOr(Tokens(c) + tail, false, START) == Ok((c, rest));
    GroupTaken(Tokens(c) + tail, c, rest, root, st);
    assert ["("] + Tokens(c) + tail == ["("] + (Tokens(c) + tail);
  }

  lemma GroupTaken(ts: seq<string>, c: Condition, rest: seq<string>, root: bool, st: Loop)
    requires AndOr(ts, false, START) == Ok((c, rest))
    ensures AndOr(["("] + ts, root, st) == AndOr(rest, root, st.Add(c, true))
  {
    var all := ["("] + ts;
    assert all[0] == "(" && all[1..] == ts && !ClauseWord(all[0]);
  }

  /** An empty group is an And of nothing. */
  lemma EmptyGroup(rest: seq<string>, root: bool, st: Loop)
    ensures AndOr(["("] + ([")"] + rest), root, st) == AndOr(rest, root, st.Add(And([]), true))
  {
    var tail := [")"] + rest;
    assert tail[0] == ")" && tail[1..] == rest && !ClauseWord(tail[0]);
    GroupTaken(tail, And([]), rest, root, st);
  }

  /** At the root level a stray closing parenthesis ends the where clause, and then is no clause. */
  lemma StrayClose(c: Condition, more: seq<string>, q: Query)
    requires Canonical(c) && q.where.None?
    ensures Clauses(["where"] + (RootTokens(c) + ([")"] + more)), q) == Err(UnknownClause)
  {
    var tail := [")"] + more;
    var ts := ["where"] + (RootTokens(c) + tail);
    assert ts[0] == "where" && ts[1..] == RootTokens(c) + tail;
    RootParsed(c, tail);
    CloseAtRoot(more, RootState(c));
    assert tail[0] == ")" && ClauseOf(tail[0]).OtherClause?;
  }

  /** The state of the loop after the tokens of a whole where clause. */
  function RootState(c: Condition): Loop
    requires Canonical(c)
  {
    if c.And? || c.Or? then AfterAll(START, c.conditions, c.Or?) else START.Add(c, !LeafLike(c))
  }

  lemma RootParsed(c: Condition, rest: seq<string>)
    requires Canonical(c)
    ensures AndOr(RootTokens(c) + rest, true, START) == AndOr(rest, true, RootState(c))
  {
    if c.And? {
      ParseJoined(c.conditions, "and", false, rest, true, START);
    } else if c.Or? {
      ParseJoined(c.conditions, "or", true, rest, true, START);
    } else {
      ParseOne(c, rest, true, START);
    }
  }

  lemma CloseAtRoot(more: seq<string>, st: Loop)
    ensures AndOr([")"] + more, true, st) == Ok((st.Combined(), [")"] + more))
  {
    var ts := [")"] + more;
    assert ts[0] == ")" && !ClauseWord(ts[0]);
  }

  // ----- what is expected

  /** A clause that ends in a connective or a negation ends unexpectedly. */
  lemma TrailingWord(word: string, root: bool, st: Loop)
    requires word == "and" || word == "or" || word == "not"
    requires word == "and" ==> !(st.typeSet && st.isOr)
    requires word == "or" ==> !(st.typeSet && !st.isOr)
    ensures AndOr([word], root, st) == Err(UnexpectedEnd)
  {
    var ts := [word];
    assert ts[0] == word && ts[1..] == [] && !ClauseWord(word);
  }

  /** Whether more is expected decides nothing but what may end the clause. */
  lemma ExpectingMore(ts: seq<string>, root: bool, st: Loop)
    requires ts != [] && (!root || !ClauseWord(ts[0]))
    ensures AndOr(ts, root, st) == AndOr(ts, root, st.(expectingMore := true))
  {
    if RoleOf(ts[0]).Connective? {
      var word := RoleOf(ts[0]).word;
      assert st.Connect(word) == st.(expectingMore := true).Connect(word);
    }
  }

  /** Two conditions without a connective between them are joined by and. */
  lemma ConnectiveIsOptional(a: Condition, b: Condition)
    requires Canonical(a) && Canonical(b) && LeafLike(b)
    requires var first := Tokens(b)[0]; first != "orderby" && first != "limit" && first != "offset"
    ensures AndOr(Tokens(a) + Tokens(b), true, START) == Ok((And([a, b]), []))
  {
    ParseOne(a, Tokens(b), true, START);
    var st := START.Add(a, !LeafLike(a));
    ExpectingMore(Tokens(b), true, st);
    ParseOne(b, [], true, st.(expectingMore := true));
    assert Tokens(b) + [] == Tokens(b);
    assert [a] + [b] == [a, b] && [] + [a] == [a];
  }

  // ----- conditions

  /** What is no name of an operator is refused. */
  lemma UnknownOperatorRejected(key: string, name: string, more: seq<string>, root: bool, st: Loop)
    requires RoleOf(key) == Key && (!root || !ClauseWord(key)) && name != "not" && name !in WORDS + SYMBOLS
    ensures AndOr([key, name] + more, root, st) == Err(UnknownOperator)
    ensures AndOr([key, "not", name] + more, root, st) == Err(UnknownOperator)
  {
    TableIsTable();
    UnknownOperatorFails(key, name, "not", more);
    KeyFails([key, name] + more, root, st);
    KeyFails([key, "not", name] + more, root, st);
  }

  lemma UnknownOperatorFails(key: string, name: string, negation: string, more: seq<string>)
    requires OperatorNamed(name).None? && name != "not" && negation == "not"
    ensures ConditionFrom([key, name] + more) == Err(UnknownOperator)
    ensures ConditionFrom([key, negation, name] + more) == Err(UnknownOperator)
  {
    var ts := [key, negation, name] + more;
    assert ts[1] == negation && ts[2..] == [name] + more;
    assert ([key, name] + more)[1..] == [name] + more;
  }

  /** A condition that ends before its operator or its value ends unexpectedly. */
  lemma UnendedRejected(key: string, name: string, root: bool, st: Loop)
    requires RoleOf(key) == Key && (!root || !ClauseWord(key)) && name != "not"
    requires name in WORDS + SYMBOLS && (WORDS + SYMBOLS)[name] != Exists
    ensures AndOr([key], root, st) == AndOr([key, "not"], root, st) == AndOr([key, name], root, st) == Err(UnexpectedEnd)
  {
    TableIsTable();
    UnendedFails(key, name, "not");
    KeyFails([key], root, st);
    KeyFails([key, "not"], root, st);
    KeyFails([key, name], root, st);
  }

  lemma UnendedFails(key: string, name: string, negation: string)
    requires OperatorNamed(name).Some? && OperatorNamed(name).value != Exists && name != "not" && negation == "not"
    ensures ConditionFrom([key]) == ConditionFrom([key, negation]) == ConditionFrom([key, name]) == Err(UnexpectedEnd)
  {
    assert [key, negation][2..] == [];
    assert [key, name][1..] == [name];
  }

  lemma KeyFails(ts: seq<string>, root: bool, st: Loop)
    requires ts != [] && RoleOf(ts[0]) == Key && (!root || !ClauseWord(ts[0]))
    ensures ConditionFrom(ts).Err? ==> AndOr(ts, root, st) == Err(ConditionFrom(ts).error)
  {
  }

  // ----- values

  predicate AllDigits(text: string) {
    forall i | 0 <= i < |text| :: '0' <= text[i] <= '9'
  }

  lemma {:induction false} DigitsExactly(text: string)
    ensures Digits(text).Some? <==> AllDigits(text)
  {
    if text != [] { DigitsExactly(text[..|text| - 1]); }
  }

  /** Leading zeros do not count. */
  lemma {:induction false} LeadingZero(text: string)
    ensures Digits(['0'] + text) == Digits(text)
  {
    var zero := ['0'] + text;
    if text == [] {
      assert zero[..0] == [];
    } else {
      LeadingZero(text[..|text| - 1]);
      assert zero[..|zero| - 1] == ['0'] + text[..|text| - 1];
    }
  }

  /** Without leading zeros the text is that of the number. */
  lemma {:induction false} DecimalOfDigits(text: string)
    requires AllDigits(text) && text != [] && text[0] != '0'
    ensures Digits(text).Some? && Digits(text).value > 0 && Decimal(Digits(text).value) == text
  {
    DigitsExactly(text);
    var init, last := text[..|text| - 1], text[|text| - 1];
    assert text == init + [last];
    DigitsExactly(init);
    if init != [] { DecimalOfDigits(init); }
    DecimalSnoc(Digits(init).value, last);
  }

  lemma DecimalSnoc(n: nat, last: char)
    requires '0' <= last <= '9'
    ensures Decimal(10 * n + (last - '0') as nat) == if n == 0 then [last] else Decimal(n) + [last]
  {
    var d := (last - '0') as nat;
    assert Digit(d) == last;
    assert (10 * n + d) / 10 == n && (10 * n + d) % 10 == d;
  }

  /** Integers are digits behind an optional sign, within 64 bits. */
  lemma ParseIntExactly(digits: string)
    requires AllDigits(digits) && digits != []
    ensures Digits(digits).Some?
    ensures var n: int := Digits(digits).value;
      && ParseInt(digits) == (if n <= MAX_INT64 then Some(n) else None)
      && ParseInt(['+'] + digits) == ParseInt(digits)
      && ParseInt(['-'] + digits) == (if n <= MAX_INT64 + 1 then Some(0 - n) else None)
  {
    DigitsExactly(digits);
    assert '0' <= digits[0] <= '9';
    assert (['+'] + digits)[1..] == digits && (['-'] + digits)[1..] == digits;
  }

  /** Anything else is none. */
  lemma IntegersOnly(text: string)
    requires ParseInt(text).Some?
    ensures text != []
    ensures var rest := if text[0] == '+' || text[0] == '-' then text[1..] else text; rest != [] && AllDigits(rest)
  {
    DigitsExactly(text);
    DigitsExactly(text[1..]);
  }

  const TRUE_SPELLINGS := ["1", "t", "T", "true", "True", "TRUE"]
  const FALSE_SPELLINGS := ["0", "f", "F", "false", "False", "FALSE"]

  /** Booleans have these spellings and no others. */
  lemma ParseBoolExactly(text: string)
    ensures ParseBool(text) == Some(true) <==> text in TRUE_SPELLINGS
    ensures ParseBool(text) == Some(false) <==> text in FALSE_SPELLINGS
  {
    var yes, no := TRUE_SPELLINGS, FALSE_SPELLINGS;
    assert yes[0] == "1" && yes[1] == "t" && yes[2] == "T" && yes[3] == "true" && yes[4] == "True" && yes[5] == "TRUE";
    assert no[0] == "0" && no[1] == "f" && no[2] == "F" && no[3] == "false" && no[4] == "False" && no[5] == "FALSE";
  }

  /** Which values of a condition are refused. */
  lemma BadValues(key: string, op: Operator, value: string)
    ensures Where(key, op, value).ErrorCond? <==>
      || (IntOperator(op) && ParseInt(value).None?)
      || (op.In? && ',' !in value)
      || (ForeignOperator(op) && ReadForeign(op, value).None?)
      || (op.Is? && ParseBool(value).None?)
  {
    if op.In? {
      if ',' !in value { SplitFirst(value, ',', []); } else { SplitsApart(value); }
    }
  }

  lemma {:induction false} SplitsApart(text: string)
    requires ',' in text
    ensures |SplitOn(text, ',')| >= 2
  {
    if text[0] != ',' { SplitsApart(text[1..]); }
  }

  /** The conditions a condition is made of. */
  function Parts(c: Condition): set<Condition> {
    {c} + match c
          case And(cs) => (set i, p | 0 <= i < |cs| && p in Parts(cs[i]) :: p)
          case Or(cs) => (set i, p | 0 <= i < |cs| && p in Parts(cs[i]) :: p)
          case Not(x) => Parts(x)
          case _ => {}
  }

  /** The check refuses a condition exactly if one of its parts, however deep, has a bad value. */
  lemma {:induction false} SoundExactly(c: Condition)
    ensures Sound(c) <==> ErrorCond !in Parts(c)
  {
    match c
    case And(cs) => SoundParts(cs);
    case Or(cs) => SoundParts(cs);
    case Not(x) => SoundExactly(x);
    case _ =>
  }

  lemma {:induction false} SoundParts(cs: seq<Condition>)
    ensures (forall i | 0 <= i < |cs| :: Sound(cs[i])) <==> (forall i | 0 <= i < |cs| :: ErrorCond !in Parts(cs[i]))
    decreases cs
  {
    forall i | 0 <= i < |cs| ensures Sound(cs[i]) <==> ErrorCond !in Parts(cs[i]) { SoundExactly(cs[i]); }
  }

  /** Whatever is parsed has been checked, and none of its values is bad. */
  lemma ParsedIsSound(text: string)
    requires FromText(text).Ok?
    ensures var q := FromText(text).value; q.checked && (q.where.Some? ==> ErrorCond !in Parts(q.where.value))
  {
    var ts := Snippets(text).value;
    NoQuery(ts);
    ClausesSound(ts[2..], New(ts[1]));
    var q := FromText(text).value;
    if q.where.Some? { SoundExactly(q.where.value); }
  }

  lemma {:induction false} ClausesSound(ts: seq<string>, q: Query)
    requires !q.checked && Clauses(ts, q).Ok?
    ensures var r := Clauses(ts, q).value; r.checked && (r.where.Some? ==> Sound(r.where.value))
    decreases |ts|
  {
    if ts != [] {
      if ClauseOf(ts[0]).WhereClause? {
        var r := AndOr(ts[1..], true, START).value;
        ClausesSound(r.1, q.(where := Some(r.0)));
      } else {
        ClausesSound(ts[2..], WordClause(q, ClauseOf(ts[0]), ts[1]).value);
      }
    }
  }

  /** A query whose only fault is a bad value is refused for it. */
  lemma BadValueRejected(ts: seq<string>, q: Query, c: Condition)
    requires q.where.None? && !q.checked && AndOr(ts, true, START) == Ok((c, [])) && ErrorCond in Parts(c)
    ensures Clauses(["where"] + ts, q) == Err(BadValue)
  {
    SoundExactly(c);
    assert (["where"] + ts)[1..] == ts;
    ParseWhere(["where"] + ts, c, [], q);
  }

  // ----- clauses

  /** A clause is refused exactly if its field is set already. */
  lemma DuplicatesRejected(q: Query, more: seq<string>)
    ensures q.where.Some? ==> Clauses(["where"] + more, q) == Err(DuplicateClause)
    ensures q.orderBy != [] ==> Clauses(["orderby"] + more, q) == Err(DuplicateClause)
    ensures q.limit != 0 ==> Clauses(["limit"] + more, q) == Err(DuplicateClause)
    ensures q.offset != 0 ==> Clauses(["offset"] + more, q) == Err(DuplicateClause)
  {
  }

  /** Otherwise it is taken, a number only if it has at most 31 bits. */
  lemma OrderByTaken(q: Query, word: string, more: seq<string>)
    requires q.orderBy == []
    ensures Clauses(["orderby", word] + more, q) == Clauses(more, q.(orderBy := word))
  {
    ClauseTaken(q, "orderby", word, more);
  }

  lemma LimitTaken(q: Query, word: string, more: seq<string>)
    requires q.limit == 0
    ensures Clauses(["limit", word] + more, q)
         == if IsNumber(word) then Clauses(more, q.(limit := Digits(word).value)) else Err(BadNumber)
  {
    DigitsExactly(word);
    ClauseTaken(q, "limit", word, more);
  }

  lemma OffsetTaken(q: Query, word: string, more: seq<string>)
    requires q.offset == 0
    ensures Clauses(["offset", word] + more, q)
         == if IsNumber(word) then Clauses(more, q.(offset := Digits(word).value)) else Err(BadNumber)
  {
    DigitsExactly(word);
    ClauseTaken(q, "offset", word, more);
  }

  lemma ClauseTaken(q: Query, first: string, word: string, more: seq<string>)
    requires !ClauseOf(first).OtherClause? && !ClauseOf(first).WhereClause? && !IsSet(q, ClauseOf(first))
    ensures var r := WordClause(q, ClauseOf(first), word);
      Clauses([first, word] + more, q) == if r.Ok? then Clauses(more, r.value) else r
  {
    var ts := [first, word] + more;
    assert ts[0] == first && ts[1] == word && ts[2..] == more;
  }

  predicate IsNumber(word: string) {
    word != [] && AllDigits(word) && var n := Digits(word); n.Some? && n.value < 0x8000_0000
  }

  /** Other words begin no clause, and a clause without its word ends unexpectedly. */
  lemma OtherClausesRejected(q: Query, word: string, more: seq<string>)
    ensures word != "where" && word != "orderby" && word != "limit" && word != "offset" ==>
      Clauses([word] + more, q) == Err(UnknownClause)
    ensures q.orderBy == [] ==> Clauses(["orderby"], q) == Err(UnexpectedEnd)
    ensures q.limit == 0 ==> Clauses(["limit"], q) == Err(UnexpectedEnd)
    ensures q.offset == 0 ==> Clauses(["offset"], q) == Err(UnexpectedEnd)
  {
    var ts := [word] + more;
    assert ts[0] == word;
  }

  /** Queries begin with their word and a key, and a key without a colon has no prefix. */
  lemma {:induction false} KeyWithoutPrefix(key: string)
    requires ':' !in key
    ensures ParseKey(key) == (key, [])
  {
    if key != [] {
      KeyWithoutPrefix(key[1..]);
      assert [key[0]] + key[1..] == key;
    }
  }

  lemma NoQuery(ts: seq<string>)
    ensures FromTokens(ts).Ok? ==> |ts| >= 2 && ts[0] == "query"
    ensures ts != [] && ts[0] != "query" ==> FromTokens(ts) == Err(NotAQuery)
    ensures ts == [] || ts == ["query"] ==> FromTokens(ts) == Err(UnexpectedEnd)
  {
  }
}
