/** Whole queries: parsing a printed query gives the query back. */
module Queries {
  import opened Basics
  import opened QueryLexer
  import opened QueryConditions
  import opened QueryParser

  const MAX_UINT31: nat := 0x7fff_ffff

  datatype Query = Query(
    dbName: string, dbKeyPrefix: string, where: Option<Condition>,
    orderBy: string, limit: int, offset: int, checked: bool)

  /** The database name before the first colon, and the rest. */
  function ParseKey(key: string): (string, string) {
    if key == [] then ([], [])
    else if key[0] == ':' then ([], key[1..])
    else
      var rest := ParseKey(key[1..]);
      ([key[0]] + rest.0, rest.1)
  }

  function New(prefix: string): Query {
    var key := ParseKey(prefix);
    Query(key.0, key.1, None, [], 0, 0, false)
  }

  /** No leaf failed to parse its value. */
  predicate Sound(c: Condition) {
    match c
    case ErrorCond => false
    case And(cs) => forall i | 0 <= i < |cs| :: Sound(cs[i])
    case Or(cs) => forall i | 0 <= i < |cs| :: Sound(cs[i])
    case Not(x) => Sound(x)
    case _ => true
  }

  function Check(q: Query): Result<Query> {
    if !q.checked && q.where.Some? && !Sound(q.where.value) then Err(BadValue) else Ok(q.(checked := true))
  }

  // ----- parsing

  datatype Clause = WhereClause | OrderByClause | LimitClause | OffsetClause | OtherClause

  function ClauseOf(token: string): Clause {
    if token == "where" then WhereClause
    else if token == "orderby" then OrderByClause
    else if token == "limit" then LimitClause
    else if token == "offset" then OffsetClause
    else OtherClause
  }

  /** A clause of one word; the field it sets must not be set yet. */
  function WordClause(q: Query, clause: Clause, word: string): Result<Query>
    requires clause.OrderByClause? || clause.LimitClause? || clause.OffsetClause?
  {
    match clause
    case OrderByClause => Ok(q.(orderBy := word))
    case LimitClause =>
      var n := ParseUint(word, MAX_UINT31);
      if n.None? then Err(BadNumber) else Ok(q.(limit := n.value))
    case OffsetClause =>
      var n := ParseUint(word, MAX_UINT31);
      if n.None? then Err(BadNumber) else Ok(q.(offset := n.value))
  }

  predicate IsSet(q: Query, clause: Clause) {
    match clause
    case WhereClause => q.where.Some?
    case OrderByClause => q.orderBy != []
    case LimitClause => q.limit != 0
    case OffsetClause => q.offset != 0
    case OtherClause => false
  }

  function Clauses(ts: seq<string>, q: Query): Result<Query>
    decreases |ts|
  {
    if ts == [] then Check(q)
    else
      var clause := ClauseOf(ts[0]);
      if clause.OtherClause? then Err(UnknownClause)
      else if IsSet(q, clause) then Err(DuplicateClause)
      else if clause.WhereClause? then
        var r := AndOr(ts[1..], true, START);
        if r.Err? then Err(r.error) else Clauses(r.value.1, q.(where := Some(r.value.0)))
      else if |ts| < 2 then Err(UnexpectedEnd)
      else
        var r := WordClause(q, clause, ts[1]);
        if r.Err? then Err(r.error) else Clauses(ts[2..], r.value)
  }

  function FromTokens(ts: seq<string>): Result<Query> {
    if ts == [] then Err(UnexpectedEnd)
    else if ts[0] != "query" then Err(NotAQuery)
    else if |ts| < 2 then Err(UnexpectedEnd)
    else Clauses(ts[2..], New(ts[1]))
  }

  /** What ParseQuery computes. */
  function FromText(text: string): Result<Query> {
    var ts := Snippets(text);
    if ts.Err? then Err(ts.error) else FromTokens(ts.value)
  }

  /** One turn of the clause loop: takes a clause and gives the position after it. */
  method ParseClause(snippets: seq<string>, from: nat, q: Query) returns (r: Result<Query>, pos: nat)
    requires from < |snippets|
    ensures r.Err? ==> Clauses(snippets[from..], q) == Err(r.error)
    ensures r.Ok? ==> from < pos <= |snippets| && Clauses(snippets[from..], q) == Clauses(snippets[pos..], r.value)
  {
    ghost var ts := snippets[from..];
    assert ts[0] == snippets[from];
    var clause := ClauseOf(snippets[from]);
    pos := from + 1;
    assert ts[1..] == snippets[pos..];
    if clause.OtherClause? { return Err(UnknownClause), pos; }
    if IsSet(q, clause) { return Err(DuplicateClause), pos; }
    if clause.WhereClause? {
      var condition, after := ParseAndOr(snippets, pos, true);
      if condition.Err? { return Err(condition.error), pos; }
      return Ok(q.(where := Some(condition.value))), after - 1;
    }
    if pos == |snippets| { return Err(UnexpectedEnd), pos; }
    assert ts[1] == snippets[pos] && ts[2..] == snippets[pos + 1..];
    return WordClause(q, clause, snippets[pos]), pos + 1;
  }

  /** ParseQuery */
  method ParseQuery(text: string) returns (r: Result<Query>)
    ensures r == FromText(text)
  {
    var extracted := ExtractSnippets(text);
    if extracted.Err? { return Err(extracted.error); }
    var snippets := extracted.value;
    if |snippets| == 0 { return Err(UnexpectedEnd); }
    if snippets[0] != "query" { return Err(NotAQuery); }
    if |snippets| < 2 { return Err(UnexpectedEnd); }
    var q, pos := New(snippets[1]), 2;
    while pos < |snippets|
      invariant 2 <= pos <= |snippets|
      invariant FromText(text) == Clauses(snippets[pos..], q)
    {
      var updated, after := ParseClause(snippets, pos, q);
      if updated.Err? { return updated; }
      pos, q := after, updated.value;
    }
    assert snippets[pos..] == [];
    return Check(q);
  }

  // ----- printing

  /** The where clause loses the outermost parentheses. */
  function RootText(c: Condition): string {
    Unwrapped(Text(c))
  }

  function Unwrapped(text: string): string {
    if |text| >= 2 && text[0] == '(' then text[1..|text| - 1] else text
  }

  function ClauseText(word: string, text: string): string {
    [' '] + word + ([' '] + text)
  }

  function OptionalClause(word: string, text: string): string {
    if text == [] then [] else ClauseText(word, text)
  }

  /** A number as printed: not at all unless positive. */
  function Positive(n: int): string {
    if n > 0 then Decimal(n) else []
  }

  function TailClauses(q: Query): string {
    OptionalClause("orderby", q.orderBy)
    + (OptionalClause("limit", Positive(q.limit)) + OptionalClause("offset", Positive(q.offset)))
  }

  function WhereText(q: Query): string {
    if q.where.Some? && Text(q.where.value) != [] then ClauseText("where", RootText(q.where.value)) else []
  }

  /** Print */
  function Print(q: Query): string {
    "query" + ([' '] + (q.dbName + [':'] + q.dbKeyPrefix) + (WhereText(q) + TailClauses(q)))
  }

  // ----- queries that print faithfully

  /** The condition of a where clause must end in a leaf or a negated leaf: after a group the parser
      expects more. */
  predicate RootOk(c: Condition) {
    LeafLike(c) || ((c.And? || c.Or?) && |c.conditions| > 0 && LeafLike(c.conditions[|c.conditions| - 1]))
  }

  predicate CanonicalWords(q: Query) {
    && ':' !in q.dbName && Plain(q.dbName) && Plain(q.dbKeyPrefix)
    && Plain(q.orderBy)
    && 0 <= q.limit <= MAX_UINT31 && 0 <= q.offset <= MAX_UINT31
  }

  predicate CanonicalQuery(q: Query) {
    CanonicalWords(q) && (q.where.Some? ==> Canonical(q.where.value) && RootOk(q.where.value))
  }

  // ----- lexing

  function RootTokens(c: Condition): seq<string> {
    match c
    case And(cs) => TokensJoined(cs, "and")
    case Or(cs) => TokensJoined(cs, "or")
    case _ => Tokens(c)
  }

  function OptionalTokens(word: string, text: string): seq<string> {
    if text == [] then [] else [word, text]
  }

  function TailClauseTokens(q: Query): seq<string> {
    OptionalTokens("orderby", q.orderBy)
    + (OptionalTokens("limit", Positive(q.limit)) + OptionalTokens("offset", Positive(q.offset)))
  }

  lemma GroupRootText(inner: string)
    ensures Unwrapped("(" + inner + ")") == inner
  {
  }

  lemma {:induction false} NotTextStarts(text: string)
    requires text != [] && text[0] != '(' && text[0] != ' '
    ensures NotText(text) != [] && NotText(text)[0] == text[0]
  {
    assert FirstSpace(text) > 0;
  }

  lemma TextStarts(c: Condition)
    requires Canonical(c) && !c.And? && !c.Or?
    ensures Text(c) != [] && Text(c)[0] != '('
  {
    if c.Not? {
      var x := c.condition;
      if x.IsLeaf() {
        LeafTextStarts(x);
        NotTextStarts(LeafText(x));
      } else {
        GroupTextStarts(x);
      }
    } else {
      LeafTextStarts(c);
    }
  }

  lemma TextIsNotEmpty(c: Condition)
    requires Canonical(c)
    ensures Text(c) != []
  {
    if !c.And? && !c.Or? { TextStarts(c); }
  }

  lemma LexRootGroup(cs: seq<Condition>, word: string, rest: string)
    requires |cs| > 0 && (forall i | 0 <= i < |cs| :: Canonical(cs[i])) && Plain(word) && word != [] && Ends(rest)
    ensures LexOn(Unwrapped("(" + TextJoined(cs, Spaced(word)) + ")") + rest) == Before(TokensJoined(cs, word), LexOn(rest))
  {
    LexJoined(cs, word, rest);
    GroupRootText(TextJoined(cs, Spaced(word)));
  }

  lemma LexRoot(c: Condition, rest: string)
    requires Canonical(c) && Ends(rest)
    ensures LexOn(RootText(c) + rest) == Before(RootTokens(c), LexOn(rest))
  {
    if c.And? {
      LexRootGroup(c.conditions, "and", rest);
    } else if c.Or? {
      LexRootGroup(c.conditions, "or", rest);
    } else {
      LexCondition(c, rest);
      TextStarts(c);
    }
  }

  lemma LeafTextStarts(c: Condition)
    requires c.IsLeaf() && CanonicalLeaf(c)
    ensures LeafText(c) != [] && LeafText(c)[0] != '(' && LeafText(c)[0] != ' '
  {
    EscapedStarts(c.key);
    assert LeafText(c)[0] == Escaped(c.key)[0];
    assert Escaped(c.key)[0] == '"' || (Plain(c.key) && Escaped(c.key)[0] == c.key[0] && !Special(c.key[0]));
  }

  lemma LexOptional(word: string, text: string, rest: string)
    requires Plain(word) && word != [] && Plain(text) && Ends(rest)
    ensures LexOn(OptionalClause(word, text) + rest) == Before(OptionalTokens(word, text), LexOn(rest))
    ensures Ends(OptionalClause(word, text) + rest)
  {
    if text == [] {
      assert OptionalClause(word, text) + rest == rest;
      BeforeNothing(LexOn(rest));
    } else {
      Regroup([' '] + word, [' '] + text, [], rest);
      LexSpacedWord(word, [' '] + text + rest);
      LexSpacedWord(text, rest);
      BeforeBefore([word], [text], LexOn(rest));
      assert [word] + [text] == [word, text];
    }
  }

  lemma PositivePlain(n: int)
    ensures Plain(Positive(n))
    ensures 0 <= n <= MAX_UINT31 && Positive(n) != [] ==> n > 0 && ParseUint(Positive(n), MAX_UINT31) == Some(n)
    ensures n > 0 ==> Positive(n) != []
  {
    if n > 0 {
      DigitsOfDecimal(n);
    }
  }

  lemma LexTailClauses(q: Query)
    requires CanonicalWords(q)
    ensures LexOn(TailClauses(q)) == Ok(TailClauseTokens(q)) && Ends(TailClauses(q))
  {
    var limit, offset := Positive(q.limit), Positive(q.offset);
    PositivePlain(q.limit);
    PositivePlain(q.offset);
    LexOptional("offset", offset, []);
    assert OptionalClause("offset", offset) + [] == OptionalClause("offset", offset);
    LexOptional("limit", limit, OptionalClause("offset", offset));
    LexOptional("orderby", q.orderBy, OptionalClause("limit", limit) + OptionalClause("offset", offset));
    assert OptionalTokens("offset", offset) + [] == OptionalTokens("offset", offset);
  }

  function WhereTokens(q: Query): seq<string> {
    if q.where.Some? then ["where"] + RootTokens(q.where.value) else []
  }

  lemma LexWhere(q: Query, rest: string)
    requires q.where.Some? && Canonical(q.where.value) && Ends(rest)
    ensures LexOn(ClauseText("where", RootText(q.where.value)) + rest) == Before(WhereTokens(q), LexOn(rest))
  {
    LexRoot(q.where.value, rest);
    LexClause("where", RootText(q.where.value), RootTokens(q.where.value), rest);
  }

  lemma LexClause(word: string, text: string, tokens: seq<string>, rest: string)
    requires Plain(word) && word != [] && LexOn(text + rest) == Before(tokens, LexOn(rest))
    ensures LexOn(ClauseText(word, text) + rest) == Before([word] + tokens, LexOn(rest))
  {
    Regroup([' '] + word, [' '] + text, [], rest);
    LexSpacedWord(word, [' '] + text + rest);
    Regroup([' '], text, [], rest);
    LexSpace(text + rest);
    BeforeBefore([word], tokens, LexOn(rest));
  }

  lemma LexBody(q: Query, tail: string, tokens: seq<string>)
    requires q.where.Some? ==> Canonical(q.where.value)
    requires Ends(tail) && LexOn(tail) == Ok(tokens)
    ensures LexOn(WhereText(q) + tail) == Ok(WhereTokens(q) + tokens) && Ends(WhereText(q) + tail)
  {
    if q.where.Some? {
      TextIsNotEmpty(q.where.value);
      LexWhere(q, tail);
    } else {
      assert WhereText(q) + tail == tail && WhereTokens(q) + tokens == tokens;
    }
  }

  /** A printed query lexes to the tokens of its parts. */
  lemma LexQuery(q: Query)
    requires CanonicalWords(q) && (q.where.Some? ==> Canonical(q.where.value))
    ensures Snippets(Print(q)) ==
      Ok(["query", q.dbName + [':'] + q.dbKeyPrefix] + (WhereTokens(q) + TailClauseTokens(q)))
  {
    LexTailClauses(q);
    LexBody(q, TailClauses(q), TailClauseTokens(q));
    LexTwoWords("query", q.dbName + [':'] + q.dbKeyPrefix, WhereText(q) + TailClauses(q), WhereTokens(q) + TailClauseTokens(q));
  }

  lemma LexTwoWords(first: string, second: string, rest: string, tokens: seq<string>)
    requires Plain(first) && first != [] && Plain(second) && second != [] && Ends(rest) && LexOn(rest) == Ok(tokens)
    ensures Snippets(first + ([' '] + second + rest)) == Ok([first, second] + tokens)
  {
    LexSpacedWord(second, rest);
    PlainIsPrintable(first);
    LexToken(first, [' '] + second + rest);
    assert [first] + ([second] + tokens) == [first, second] + tokens;
  }

  // ----- parsing the tokens

  lemma {:induction false} CanonicalIsSound(c: Condition)
    requires Canonical(c)
    ensures Sound(c)
  {
    match c
    case And(cs) => forall i | 0 <= i < |cs| ensures Sound(cs[i]) { CanonicalIsSound(cs[i]); }
    case Or(cs) => forall i | 0 <= i < |cs| ensures Sound(cs[i]) { CanonicalIsSound(cs[i]); }
    case Not(x) => CanonicalIsSound(x);
    case _ =>
  }

  lemma ParseRoot(c: Condition, rest: seq<string>)
    requires Canonical(c) && RootOk(c) && (rest == [] || ClauseWord(rest[0]))
    ensures AndOr(RootTokens(c) + rest, true, START) == Ok((c, rest))
  {
    if c.And? {
      ParseRootGroup(c, "and", rest);
    } else if c.Or? {
      ParseRootGroup(c, "or", rest);
    } else {
      ParseOne(c, rest, true, START);
      ParseEnds(START.Add(c, false), rest);
      assert START.Add(c, false).conditions == [c];
    }
  }

  lemma CombinesAll(c: Condition)
    requires (c.And? || c.Or?) && |c.conditions| >= 2
    ensures AfterAll(START, c.conditions, c.Or?).Combined() == c
  {
    assert [] + c.conditions == c.conditions;
  }

  lemma ParseRootGroup(c: Condition, word: string, rest: seq<string>)
    requires (c.And? || c.Or?) && |c.conditions| >= 2 && (forall i | 0 <= i < |c.conditions| :: Canonical(c.conditions[i]))
    requires LeafLike(c.conditions[|c.conditions| - 1]) && Joins(word, c.Or?)
    requires rest == [] || ClauseWord(rest[0])
    ensures AndOr(TokensJoined(c.conditions, word) + rest, true, START) == Ok((c, rest))
  {
    ParseJoined(c.conditions, word, c.Or?, rest, true, START);
    CombinesAll(c);
    ParseEnds(AfterAll(START, c.conditions, c.Or?), rest);
  }

  lemma ParseEnds(st: Loop, rest: seq<string>)
    requires !st.expectingMore && (rest == [] || ClauseWord(rest[0]))
    ensures AndOr(rest, true, st) == Ok((st.Combined(), rest))
  {
  }

  /** Among canonical conditions, those that survive as a whole where clause are exactly the ones
      that end in a leaf or negated leaf; all others end unexpectedly. */
  lemma RootExactly(c: Condition)
    requires Canonical(c)
    ensures AndOr(RootTokens(c), true, START) == if RootOk(c) then Ok((c, [])) else Err(UnexpectedEnd)
  {
    assert RootTokens(c) + [] == RootTokens(c);
    if RootOk(c) {
      ParseRoot(c, []);
    } else if c.And? {
      ParseUnendedGroup(c, "and");
    } else if c.Or? {
      ParseUnendedGroup(c, "or");
    } else {
      ParseOne(c, [], true, START);
    }
  }

  lemma ParseUnendedGroup(c: Condition, word: string)
    requires (c.And? || c.Or?) && |c.conditions| >= 2 && (forall i | 0 <= i < |c.conditions| :: Canonical(c.conditions[i]))
    requires !LeafLike(c.conditions[|c.conditions| - 1]) && Joins(word, c.Or?)
    ensures AndOr(TokensJoined(c.conditions, word) + [], true, START) == Err(UnexpectedEnd)
  {
    ParseJoined(c.conditions, word, c.Or?, [], true, START);
  }

  lemma {:induction false} ParseKeyOfParts(name: string, prefix: string)
    requires ':' !in name
    ensures ParseKey(name + [':'] + prefix) == (name, prefix)
  {
    var key := name + [':'] + prefix;
    if name == [] {
      assert key[1..] == prefix;
    } else {
      assert key[1..] == name[1..] + [':'] + prefix && key[0] == name[0];
      assert [name[0]] + name[1..] == name;
      ParseKeyOfParts(name[1..], prefix);
    }
  }

  /** An optional clause of one word is parsed into its field. */
  lemma ParseOptional(word: string, text: string, rest: seq<string>, q: Query, q': Query)
    requires !ClauseOf(word).WhereClause? && !ClauseOf(word).OtherClause? && !IsSet(q, ClauseOf(word))
    requires text == [] ==> q' == q
    requires text != [] ==> WordClause(q, ClauseOf(word), text) == Ok(q')
    ensures Clauses(OptionalTokens(word, text) + rest, q) == Clauses(rest, q')
  {
    var ts := OptionalTokens(word, text) + rest;
    if text == [] {
      assert ts == rest;
    } else {
      assert ts[0] == word && ts[1] == text && ts[2..] == rest;
    }
  }

  lemma ParseTailClauses(q: Query, q0: Query)
    requires CanonicalWords(q) && q0 == q.(orderBy := [], limit := 0, offset := 0)
    ensures Clauses(TailClauseTokens(q), q0) == Check(q)
  {
    PositivePlain(q.limit);
    PositivePlain(q.offset);
    var limit, offset := OptionalTokens("limit", Positive(q.limit)), OptionalTokens("offset", Positive(q.offset));
    var q1, q2 := q.(limit := 0, offset := 0), q.(offset := 0);
    ParseOptional("orderby", q.orderBy, limit + offset, q0, q1);
    ParseOptional("limit", Positive(q.limit), offset, q1, q2);
    ParseOptional("offset", Positive(q.offset), [], q2, q);
    assert offset + [] == offset;
  }

  lemma TailStartsWithClause(q: Query)
    ensures TailClauseTokens(q) == [] || ClauseWord(TailClauseTokens(q)[0])
  {
  }

  /** Parsing a printed canonical query gives the same query, checked. */
  lemma RoundTrip(q: Query)
    requires CanonicalQuery(q)
    ensures FromText(Print(q)) == Ok(q.(checked := true))
  {
    LexQuery(q);
    ParseKeyOfParts(q.dbName, q.dbKeyPrefix);
    var ts := ["query", q.dbName + [':'] + q.dbKeyPrefix] + (WhereTokens(q) + TailClauseTokens(q));
    assert ts[0] == "query" && ts[2..] == WhereTokens(q) + TailClauseTokens(q);
    var unchecked := q.(checked := false);
    var start := New(q.dbName + [':'] + q.dbKeyPrefix);
    ParseTailClauses(unchecked, start.(where := q.where));
    assert TailClauseTokens(unchecked) == TailClauseTokens(q);
    if q.where.Some? {
      CanonicalIsSound(q.where.value);
      TailStartsWithClause(q);
      ParseRoot(q.where.value, TailClauseTokens(q));
      Regroup(["where"], RootTokens(q.where.value), [], TailClauseTokens(q));
      ParseWhere(WhereTokens(q) + TailClauseTokens(q), q.where.value, TailClauseTokens(q), start);
    } else {
      assert WhereTokens(q) + TailClauseTokens(q) == TailClauseTokens(q);
    }
  }

  lemma ParseWhere(ts: seq<string>, c: Condition, rest: seq<string>, q: Query)
    requires |ts| > 0 && ClauseOf(ts[0]).WhereClause? && q.where.None?
    requires AndOr(ts[1..], true, START) == Ok((c, rest))
    ensures Clauses(ts, q) == Clauses(rest, q.(where := Some(c)))
  {
  }

  // ----- what happens to all other queries

  /** The parser never loses a condition it has. */
  lemma {:induction false} NeverShorter(ts: seq<string>, root: bool, st: Loop)
    requires |st.conditions| >= 2 && AndOr(ts, root, st).Ok?
    ensures var c := AndOr(ts, root, st).value.0; (c.And? || c.Or?) && |c.conditions| >= |st.conditions|
    decreases |ts|
  {
    if ts != [] && !(!st.expectingMore && root && ClauseWord(ts[0])) {
      match RoleOf(ts[0])
      case Open =>
        var group := AndOr(ts[1..], false, START).value;
        NeverShorter(group.1, root, st.Add(group.0, true));
      case Close =>
      case Key =>
        var leaf := ConditionFrom(ts).value;
        NeverShorter(leaf.1, root, st.Add(leaf.0, false));
      case Connective(word) =>
        NeverShorter(ts[1..], root, st.Connect(word).value);
    }
  }

  /** Where more is expected, the word that begins the next clause is taken as a key. */
  lemma TakesKey(ts: seq<string>, st: Loop)
    requires st.expectingMore && |st.conditions| >= 1 && |ts| > 0 && RoleOf(ts[0]) == Key && AndOr(ts, true, st).Ok?
    ensures var c := AndOr(ts, true, st).value.0; (c.And? || c.Or?) && |c.conditions| > |st.conditions|
  {
    var leaf := ConditionFrom(ts).value;
    NeverShorter(leaf.1, true, st.Add(leaf.0, false));
  }

  lemma ClauseWordIsKey(word: string)
    requires ClauseWord(word)
    ensures RoleOf(word) == Key
  {
  }

  /** A where clause that does not end in a leaf is never parsed back, whatever clauses follow. */
  lemma RootSwallows(c: Condition, rest: seq<string>)
    requires Canonical(c) && !RootOk(c) && (rest == [] || ClauseWord(rest[0]))
    ensures var r := AndOr(RootTokens(c) + rest, true, START); r.Err? || r.value.0 != c
  {
    if c.And? {
      GroupSwallows(c, "and", rest);
    } else if c.Or? {
      GroupSwallows(c, "or", rest);
    } else {
      ParseOne(c, rest, true, START);
      NotEnded(START.Add(c, true), rest);
    }
  }

  lemma GroupSwallows(c: Condition, word: string, rest: seq<string>)
    requires (c.And? || c.Or?) && |c.conditions| >= 2 && (forall i | 0 <= i < |c.conditions| :: Canonical(c.conditions[i]))
    requires !LeafLike(c.conditions[|c.conditions| - 1]) && Joins(word, c.Or?) && (rest == [] || ClauseWord(rest[0]))
    ensures var r := AndOr(TokensJoined(c.conditions, word) + rest, true, START); r.Err? || r.value.0 != c
  {
    ParseJoined(c.conditions, word, c.Or?, rest, true, START);
    NotEnded(AfterAll(START, c.conditions, c.Or?), rest);
  }

  lemma NotEnded(st: Loop, rest: seq<string>)
    requires st.expectingMore && |st.conditions| >= 1 && (rest == [] || ClauseWord(rest[0]))
    ensures var r := AndOr(rest, true, st);
      r.Err? || ((r.value.0.And? || r.value.0.Or?) && |r.value.0.conditions| > |st.conditions|)
  {
    if rest != [] {
      ClauseWordIsKey(rest[0]);
      if AndOr(rest, true, st).Ok? { TakesKey(rest, st); }
    }
  }

  lemma {:induction false} ClausesKeepWhere(ts: seq<string>, q: Query)
    requires q.where.Some? && Clauses(ts, q).Ok?
    ensures Clauses(ts, q).value.where == q.where
    decreases |ts|
  {
    if ts != [] { ClausesKeepWhere(ts[2..], WordClause(q, ClauseOf(ts[0]), ts[1]).value); }
  }

  /** Parsing the printed form of a query with canonical parts gives the query back exactly if its
      where clause, if any, is or ends in a leaf or a negated leaf. */
  lemma RoundTripExactly(q: Query)
    requires CanonicalWords(q) && (q.where.Some? ==> Canonical(q.where.value))
    ensures FromText(Print(q)) == Ok(q.(checked := true)) <==> (q.where.Some? ==> RootOk(q.where.value))
  {
    if q.where.Some? && !RootOk(q.where.value) {
      TailStartsWithClause(q);
      RootSwallows(q.where.value, TailClauseTokens(q));
      LexQuery(q);
      Regroup(["where"], RootTokens(q.where.value), [], TailClauseTokens(q));
      assert (WhereTokens(q) + TailClauseTokens(q))[1..] == RootTokens(q.where.value) + TailClauseTokens(q);
      WhereIsLost(q, WhereTokens(q) + TailClauseTokens(q));
    } else {
      RoundTrip(q);
    }
  }

  lemma WhereIsLost(q: Query, ts: seq<string>)
    requires q.where.Some? && Snippets(Print(q)) == Ok(["query", q.dbName + [':'] + q.dbKeyPrefix] + ts)
    requires |ts| > 0 && ClauseOf(ts[0]).WhereClause?
    requires var r := AndOr(ts[1..], true, START); r.Err? || r.value.0 != q.where.value
    ensures FromText(Print(q)) != Ok(q.(checked := true))
  {
    var key := q.dbName + [':'] + q.dbKeyPrefix;
    var all := ["query", key] + ts;
    assert all[0] == "query" && all[1] == key && all[2..] == ts;
    var r := AndOr(ts[1..], true, START);
    if r.Ok? {
      var q1 := New(key).(where := Some(r.value.0));
      ParseWhere(ts, r.value.0, r.value.1, New(key));
      if Clauses(r.value.1, q1).Ok? { ClausesKeepWhere(r.value.1, q1); }
    }
  }

  /** For one, an order by the word "exists" becomes a condition on a key "orderby". */
  lemma OrderBySwallowed(st: Loop)
    requires st.expectingMore
    ensures AndOr(["orderby", "exists"], true, st) == Ok((st.Add(ExistsCond("orderby"), false).Combined(), []))
  {
    var ts := ["orderby", "exists"];
    assert ts[1..] == ["exists"];
    assert RoleOf(ts[0]) == Key && OperatorNamed("exists") == Some(Exists);
    assert ConditionFrom(ts) == Ok((ExistsCond("orderby"), []));
  }

  /** For another, a where clause that ends in a group is never parsed back, whatever its parts. */
  lemma GroupAtEndIsLost(q: Query, a: Condition, b: Condition, c: Condition)
    requires CanonicalWords(q) && q.where == Some(And([a, Or([b, c])]))
    requires Canonical(a) && Canonical(b) && Canonical(c)
    ensures FromText(Print(q)) != Ok(q.(checked := true))
  {
    GroupEnds(a, Or([b, c]));
    RoundTripExactly(q);
  }

  lemma GroupEnds(a: Condition, group: Condition)
    requires Canonical(a) && group.Or? && |group.conditions| == 2 && forall i | 0 <= i < 2 :: Canonical(group.conditions[i])
    ensures Canonical(And([a, group])) && !RootOk(And([a, group]))
  {
    var cs := [a, group];
    assert cs[1] == group && Canonical(group) && !LeafLike(group);
  }

  /** There are such conditions. */
  lemma LettersAreKeys(a: string, b: string, c: string)
    requires a == "a" && b == "b" && c == "c"
    ensures Canonical(ExistsCond(a)) && Canonical(ExistsCond(b)) && Canonical(ExistsCond(c))
  {
  }
}
