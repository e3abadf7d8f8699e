/** Parsing queries, printing them, and that the one undoes the other. */
module QueryParser {
  import opened Basics
  import opened QueryLexer
  import opened QueryConditions
  import opened Splitting

  // ----- what the parser computes, on the tokens still ahead

  type Parsed = Result<(Condition, seq<string>)>

  function ParseBool(text: string): Option<bool> {
    if text == "1" || text == "t" || text == "T" || text == "TRUE" || text == "true" || text == "True" then Some(true)
    else if text == "0" || text == "f" || text == "F" || text == "FALSE" || text == "false" || text == "False"
    then Some(false)
    else None
  }

  /** Where, with the value as text. */
  function Where(key: string, op: Operator, value: string): Condition {
    if IntOperator(op) then
      var number := ParseInt(value);
      if number.Some? then IntCond(key, op, number.value) else ErrorCond
    else if StringOperator(op) then StringCond(key, op, value)
    else if op.In? then
      var parts := SplitOn(value, ',');
      if |parts| < 2 then ErrorCond else InCond(key, parts)
    else if ForeignOperator(op) then
      var read := ReadForeign(op, value);
      if read.Some? then ForeignCond(key, op, read.value) else ErrorCond
    else if op.Is? then
      var flag := ParseBool(value);
      if flag.Some? then IsCond(key, flag.value) else ErrorCond
    else ExistsCond(key)
  }

  function Negated(c: Condition, negate: bool): Condition {
    if negate then Not(c) else c
  }

  /** parseCondition, its first token being the key. */
  function ConditionFrom(ts: seq<string>): (r: Parsed)
    requires |ts| > 0
    ensures r.Ok? ==> |r.value.1| < |ts|
  {
    if |ts| < 2 then Err(UnexpectedEnd)
    else
      var negate := ts[1] == "not";
      var rest := if negate then ts[2..] else ts[1..];
      if rest == [] then Err(UnexpectedEnd)
      else
        var op := OperatorNamed(rest[0]);
        if op.None? then Err(UnknownOperator)
        else if op.value.Exists? then Ok((Negated(ExistsCond(ts[0]), negate), rest[1..]))
        else if |rest| < 2 then Err(UnexpectedEnd)
        else Ok((Negated(Where(ts[0], op.value, rest[1]), negate), rest[2..]))
  }

  datatype Word = AndWord | OrWord | NotWord

  datatype Loop = Loop(isOr: bool, typeSet: bool, wrapInNot: bool, expectingMore: bool, conditions: seq<Condition>)
  {
    function Add(c: Condition, more: bool): Loop {
      this.(conditions := conditions + [Negated(c, wrapInNot)], wrapInNot := false, expectingMore := more)
    }

    function Connect(word: Word): Result<Loop> {
      match word
      case AndWord =>
        if typeSet && isOr then Err(MixedAndOr) else Ok(this.(isOr := false, typeSet := true, expectingMore := true))
      case OrWord =>
        if typeSet && !isOr then Err(MixedAndOr) else Ok(this.(isOr := true, typeSet := true, expectingMore := true))
      case NotWord =>
        Ok(this.(wrapInNot := true, expectingMore := true))
    }

    function Combined(): Condition {
      if |conditions| == 1 then conditions[0] else if isOr then Or(conditions) else And(conditions)
    }
  }

  const START := Loop(false, false, false, true, [])

  /** The role a token plays where a condition may begin. */
  datatype Role = Open | Close | Connective(word: Word) | Key

  function RoleOf(token: string): Role {
    if token == "(" then Open
    else if token == ")" then Close
    else if token == "and" then Connective(AndWord)
    else if token == "or" then Connective(OrWord)
    else if token == "not" then Connective(NotWord)
    else Key
  }

  predicate ClauseWord(token: string) {
    token == "orderby" || token == "limit" || token == "offset"
  }

  /** parseAndOr. At the root level the token that ends the clause is put back. */
  function AndOr(ts: seq<string>, root: bool, st: Loop): (r: Parsed)
    ensures r.Ok? ==> |r.value.1| <= |ts| && (!root ==> |r.value.1| < |ts|)
    decreases |ts|
  {
    if ts == [] then
      if !st.expectingMore && root then Ok((st.Combined(), [])) else Err(UnexpectedEnd)
    else
      if !st.expectingMore && root && ClauseWord(ts[0]) then Ok((st.Combined(), ts))
      else
        match RoleOf(ts[0])
        case Open =>
          var group := AndOr(ts[1..], false, START);
          if group.Err? then group else AndOr(group.value.1, root, st.Add(group.value.0, true))
        case Close =>
          Ok((st.Combined(), if root then ts else ts[1..]))
        case Key =>
          var leaf := ConditionFrom(ts);
          if leaf.Err? then leaf else AndOr(leaf.value.1, root, st.Add(leaf.value.0, false))
        case Connective(word) =>
          var next := st.Connect(word);
          if next.Err? then Err(next.error) else AndOr(ts[1..], root, next.value)
  }

  // ----- the parser's loop

  /** parseAndOr on the snippets from position from on; the position after the last one it took. */
  method ParseAndOr(snippets: seq<string>, from: nat, root: bool) returns (r: Result<Condition>, pos: nat)
    requires from <= |snippets|
    ensures r.Err? ==> AndOr(snippets[from..], root, START) == Err(r.error)
    ensures r.Ok? ==> from < pos <= |snippets| + (if root then 1 else 0)
    ensures r.Ok? ==> AndOr(snippets[from..], root, START) == Ok((r.value, snippets[if root then pos - 1 else pos..]))
    decreases |snippets| - from, 1
  {
    var st := START;
    pos := from;
    while true
      invariant from <= pos <= |snippets|
      invariant AndOr(snippets[from..], root, START) == AndOr(snippets[pos..], root, st)
      decreases |snippets| - pos
    {
      var ended := AtEnd(snippets, pos, root, st);
      if ended.Some? { return ended.value, pos + 1; }
      var next, after := ParsePart(snippets, pos, root, st);
      if next.Err? { return Err(next.error), after; }
      pos, st := after, next.value;
    }
  }

  /** Whether the loop ends at a position, and with what. */
  method AtEnd(snippets: seq<string>, pos: nat, root: bool, st: Loop) returns (r: Option<Result<Condition>>)
    requires pos <= |snippets|
    ensures r.None? ==> pos < |snippets| && RoleOf(snippets[pos]) != Close && !(!st.expectingMore && root && ClauseWord(snippets[pos]))
    ensures r.Some? && r.value.Err? ==> AndOr(snippets[pos..], root, st) == Err(r.value.error)
    ensures r.Some? && r.value.Ok? ==> pos + 1 <= |snippets| + (if root then 1 else 0)
    ensures r.Some? && r.value.Ok? ==> AndOr(snippets[pos..], root, st) == Ok((r.value.value, snippets[if root then pos else pos + 1..]))
  {
    if pos == |snippets| { return Some(if !st.expectingMore && root then Ok(st.Combined()) else Err(UnexpectedEnd)); }
    if !st.expectingMore && root && ClauseWord(snippets[pos]) { return Some(Ok(st.Combined())); }
    if RoleOf(snippets[pos]) == Close {
      CloseEnds(snippets, pos, root, st);
      return Some(Ok(st.Combined()));
    }
    return None;
  }

  /** A turn of the loop that takes a group, a condition or a connective. */
  method ParsePart(snippets: seq<string>, from: nat, root: bool, st: Loop) returns (r: Result<Loop>, pos: nat)
    requires from < |snippets| && RoleOf(snippets[from]) != Close
    requires !(!st.expectingMore && root && ClauseWord(snippets[from]))
    ensures r.Err? ==> AndOr(snippets[from..], root, st) == Err(r.error)
    ensures r.Ok? ==> from < pos <= |snippets|
    ensures r.Ok? ==> AndOr(snippets[from..], root, st) == AndOr(snippets[pos..], root, r.value)
    decreases |snippets| - from, 0
  {
    ghost var ts := snippets[from..];
    pos := from + 1;
    assert ts[0] == snippets[from] && ts[1..] == snippets[pos..];
    match RoleOf(snippets[from])
    case Open =>
      var group, after := ParseAndOr(snippets, pos, false);
      if group.Err? { return Err(group.error), after; }
      return Ok(st.Add(group.value, true)), after;
    case Key =>
      var leaf, after := ParseCondition(snippets, pos);
      if leaf.Err? { return Err(leaf.error), after; }
      return Ok(st.Add(leaf.value, false)), after;
    case Connective(word) =>
      return st.Connect(word), pos;
  }

  lemma CloseEnds(snippets: seq<string>, pos: nat, root: bool, st: Loop)
    requires pos < |snippets| && RoleOf(snippets[pos]) == Close && !(!st.expectingMore && root && ClauseWord(snippets[pos]))
    ensures AndOr(snippets[pos..], root, st) == Ok((st.Combined(), snippets[if root then pos else pos + 1..]))
  {
    assert snippets[pos..][1..] == snippets[pos + 1..];
  }

  /** parseCondition, the key being the snippet before from. */
  method ParseCondition(snippets: seq<string>, from: nat) returns (r: Result<Condition>, pos: nat)
    requires 0 < from <= |snippets|
    ensures r.Err? ==> ConditionFrom(snippets[from - 1..]) == Err(r.error)
    ensures r.Ok? ==> from <= pos <= |snippets|
    ensures r.Ok? ==> ConditionFrom(snippets[from - 1..]) == Ok((r.value, snippets[pos..]))
  {
    ghost var ts := snippets[from - 1..];
    var key := snippets[from - 1];
    pos := from;
    if pos >= |snippets| { return Err(UnexpectedEnd), pos; }
    var name, negate := snippets[pos], false;
    pos := pos + 1;
    assert ts[1..] == snippets[from..] && ts[0] == key && ts[1] == name;
    if name == "not" {
      if pos >= |snippets| { return Err(UnexpectedEnd), pos; }
      name, negate := snippets[pos], true;
      pos := pos + 1;
      assert ts[2..] == snippets[from + 1..];
    }
    ghost var rest := if negate then ts[2..] else ts[1..];
    assert rest[0] == name && rest[1..] == snippets[pos..];
    var op := OperatorNamed(name);
    if op.None? { return Err(UnknownOperator), pos; }
    if op.value.Exists? { return Ok(Negated(ExistsCond(key), negate)), pos; }
    if pos >= |snippets| { return Err(UnexpectedEnd), pos; }
    assert rest[2..] == snippets[pos + 1..];
    return Ok(Negated(Where(key, op.value, snippets[pos]), negate)), pos + 1;
  }

  // ----- parsing the tokens of a condition gives the condition back

  lemma WhereOfLeaf(c: Condition)
    requires c.IsLeaf() && CanonicalLeaf(c) && c.LeafValue().Some?
    ensures Where(c.key, c.LeafOperator(), c.LeafValue().value) == c
  {
    match c
    case IntCond(_, _, number) => ParseIntOfText(number);
    case InCond(_, values) => SplitOfJoin(values, ',');
    case _ =>
  }

  lemma ConditionFromTail(key: string, negate: bool, op: Operator, value: Option<string>, rest: seq<string>)
    requires op.Exists? <==> value.None?
    ensures ConditionFrom((if negate then [key] + (["not"] + TailTokens(OperatorName(op), value))
                           else [key] + TailTokens(OperatorName(op), value)) + rest)
         == Ok((Negated(if value.None? then ExistsCond(key) else Where(key, op, value.value), negate), rest))
  {
    var name := OperatorName(op);
    OperatorNameIsLongest(op, name);
    OperatorNameIsPlain(op);
    var tail := TailTokens(name, value) + rest;
    var ts := (if negate then [key] + (["not"] + TailTokens(name, value)) else [key] + TailTokens(name, value)) + rest;
    assert if negate then ts[2..] == tail && ts[1] == "not" else ts[1..] == tail && ts[1] == name;
    assert tail[0] == name;
    assert value.None? ==> tail[1..] == rest;
    assert value.Some? ==> tail[1] == value.value && tail[2..] == rest;
  }

  lemma ConditionFromLeaf(c: Condition, negate: bool, rest: seq<string>)
    requires c.IsLeaf() && CanonicalLeaf(c)
    ensures ConditionFrom(LeafTokens(c, negate) + rest) == Ok((Negated(c, negate), rest))
  {
    ConditionFromTail(c.key, negate, c.LeafOperator(), c.LeafValue(), rest);
    if c.LeafValue().Some? { WhereOfLeaf(c); }
  }

  predicate LeafLike(c: Condition) {
    c.IsLeaf() || (c.Not? && c.condition.IsLeaf())
  }

  lemma ParseLeaf(c: Condition, negate: bool, rest: seq<string>, root: bool, st: Loop)
    requires c.IsLeaf() && CanonicalLeaf(c) && st.expectingMore
    ensures AndOr(LeafTokens(c, negate) + rest, root, st) == AndOr(rest, root, st.Add(Negated(c, negate), false))
  {
    ConditionFromLeaf(c, negate, rest);
    var ts := LeafTokens(c, negate) + rest;
    assert ts[0] == c.key;
    assert RoleOf(c.key) == Key;
  }

  lemma {:induction false} ParseOne(c: Condition, rest: seq<string>, root: bool, st: Loop)
    requires Canonical(c) && st.expectingMore && !st.wrapInNot
    ensures AndOr(Tokens(c) + rest, root, st) == AndOr(rest, root, st.Add(c, !LeafLike(c)))
    decreases c, 0
  {
    match c
    case ErrorCond =>
    case And(cs) => ParseGroup(c, rest, root, st);
    case Or(cs) => ParseGroup(c, rest, root, st);
    case Not(x) =>
      if x.IsLeaf() {
        ParseLeaf(x, true, rest, root, st);
      } else {
        var st1 := st.(wrapInNot := true);
        ParseGroup(x, rest, root, st1);
        ParseNot("not", Tokens(x), rest, root, st);
        assert st1.Add(x, true) == st.Add(c, true);
      }
    case _ => ParseLeaf(c, false, rest, root, st);
  }

  lemma ParseNot(word: string, ts: seq<string>, rest: seq<string>, root: bool, st: Loop)
    requires RoleOf(word) == Connective(NotWord) && st.expectingMore
    ensures AndOr([word] + ts + rest, root, st) == AndOr(ts + rest, root, st.(wrapInNot := true))
  {
    var all := [word] + ts + rest;
    assert all[1..] == ts + rest && all[0] == word;
  }

  lemma {:induction false} ParseGroup(c: Condition, rest: seq<string>, root: bool, st: Loop)
    requires Canonical(c) && (c.And? || c.Or?) && st.expectingMore
    ensures AndOr(Tokens(c) + rest, root, st) == AndOr(rest, root, st.Add(c, true))
    decreases c.conditions, 1
  {
    var word := if c.Or? then "or" else "and";
    var inner := TokensJoined(c.conditions, word);
    ParseJoined(c.conditions, word, c.Or?, [")"] + rest, false, START);
    ParseEnclosed(c, inner, rest, root, st);
  }

  lemma ParseEnclosed(c: Condition, inner: seq<string>, rest: seq<string>, root: bool, st: Loop)
    requires (c.And? || c.Or?) && |c.conditions| >= 2 && st.expectingMore
    requires AndOr(inner + ([")"] + rest), false, START) == AndOr([")"] + rest, false, AfterAll(START, c.conditions, c.Or?))
    ensures AndOr(["("] + inner + [")"] + rest, root, st) == AndOr(rest, root, st.Add(c, true))
  {
    var tail := [")"] + rest;
    assert tail[1..] == rest;
    assert [] + c.conditions == c.conditions;
    assert AndOr(tail, false, AfterAll(START, c.conditions, c.Or?)) == Ok((c, rest));
    var ts := ["("] + inner + [")"] + rest;
    assert ts[1..] == inner + tail;
  }

  /** The state of the loop after a list of conditions joined by one connective. */
  function AfterAll(st: Loop, cs: seq<Condition>, isOr: bool): Loop
    requires |cs| > 0
  {
    Loop(if |cs| > 1 then isOr else st.isOr, st.typeSet || |cs| > 1, false,
         !LeafLike(cs[|cs| - 1]), st.conditions + cs)
  }

  predicate Joins(word: string, isOr: bool) {
    RoleOf(word) == Connective(if isOr then OrWord else AndWord) && !ClauseWord(word)
  }

  lemma {:induction false} ParseJoined(cs: seq<Condition>, word: string, isOr: bool, rest: seq<string>, root: bool, st: Loop)
    requires |cs| > 0 && forall i | 0 <= i < |cs| :: Canonical(cs[i])
    requires Joins(word, isOr) && st.expectingMore && !st.wrapInNot && (st.typeSet ==> st.isOr == isOr)
    ensures AndOr(TokensJoined(cs, word) + rest, root, st) == AndOr(rest, root, AfterAll(st, cs, isOr))
    decreases cs, 0
  {
    if |cs| == 1 {
      ParseOne(cs[0], rest, root, st);
      assert [cs[0]] == cs;
    } else {
      var more := TokensJoined(cs[1..], word);
      var st2 := Loop(isOr, true, false, true, st.conditions + [cs[0]]);
      ParseFirst(cs[0], word, isOr, more + rest, root, st);
      ParseJoined(cs[1..], word, isOr, rest, root, st2);
      AfterAllCons(st, cs, isOr);
      assert TokensJoined(cs, word) == Tokens(cs[0]) + [word] + more;
      Regroup(Tokens(cs[0]), [word], more, rest);
    }
  }

  lemma {:induction false} ParseFirst(c: Condition, word: string, isOr: bool, more: seq<string>, root: bool, st: Loop)
    requires Canonical(c) && Joins(word, isOr) && st.expectingMore && !st.wrapInNot && (st.typeSet ==> st.isOr == isOr)
    ensures AndOr(Tokens(c) + ([word] + more), root, st)
         == AndOr(more, root, Loop(isOr, true, false, true, st.conditions + [c]))
    decreases c, 1
  {
    ParseOne(c, [word] + more, root, st);
    ParseWord(word, isOr, more, root, st.Add(c, !LeafLike(c)));
  }

  lemma AfterAllCons(st: Loop, cs: seq<Condition>, isOr: bool)
    requires |cs| > 1
    ensures AfterAll(Loop(isOr, true, false, true, st.conditions + [cs[0]]), cs[1..], isOr) == AfterAll(st, cs, isOr)
  {
    assert st.conditions + [cs[0]] + cs[1..] == st.conditions + cs;
  }

  lemma ParseWord(word: string, isOr: bool, more: seq<string>, root: bool, st: Loop)
    requires Joins(word, isOr) && !st.wrapInNot && (st.typeSet ==> st.isOr == isOr)
    ensures AndOr([word] + more, root, st) == AndOr(more, root, st.(isOr := isOr, typeSet := true, expectingMore := true))
  {
    var ts := [word] + more;
    assert ts[1..] == more;
  }
}
