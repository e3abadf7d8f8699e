/** Query conditions and how they are printed. Conditions on floating point numbers and regular
    expressions keep the text of their value. */
module QueryConditions {
  import opened Basics
  import opened QueryLexer
  import opened Splitting

  // ----- numbers

  const MAX_INT64: int := 0x7fff_ffff_ffff_ffff
  const MIN_INT64: int := -0x8000_0000_0000_0000

  function Digit(d: nat): char
    requires d < 10
  {
    '0' + d as char
  }

  function Decimal(n: nat): string {
    if n < 10 then [Digit(n)] else Decimal(n / 10) + [Digit(n % 10)]
  }

  function Digits(text: string): Option<nat> {
    if text == [] then Some(0)
    else
      var n, ch := |text| - 1, text[|text| - 1];
      var init := Digits(text[..n]);
      if init.Some? && '0' <= ch <= '9' then Some(10 * init.value + (ch - '0') as nat) else None
  }

  /** strconv.ParseUint with base 10 and an upper bound. */
  function ParseUint(text: string, max: nat): Option<nat> {
    if text == [] then None
    else
      var n := Digits(text);
      if n.Some? && n.value <= max then n else None
  }

  function IntText(i: int): string {
    if i < 0 then ['-'] + Decimal(-i) else Decimal(i)
  }

  /** strconv.ParseInt with base 10 and 64 bits. */
  function ParseInt(text: string): Option<int> {
    if text == [] then None
    else if text[0] == '-' then
      var n := ParseUint(text[1..], -MIN_INT64);
      if n.Some? then Some(0 - n.value) else None
    else
      ParseUint(if text[0] == '+' then text[1..] else text, MAX_INT64)
  }

  lemma {:induction false} DigitsOfDecimal(n: nat)
    ensures Digits(Decimal(n)) == Some(n)
    ensures Decimal(n) != [] && forall i | 0 <= i < |Decimal(n)| :: '0' <= Decimal(n)[i] <= '9'
  {
    if n < 10 {
      assert Decimal(n)[..0] == [];
    } else {
      DigitsOfDecimal(n / 10);
      var text := Decimal(n);
      assert text[..|text| - 1] == Decimal(n / 10);
    }
  }

  lemma ParseUintOfDecimal(n: nat, max: nat)
    requires n <= max
    ensures ParseUint(Decimal(n), max) == Some(n) && Plain(Decimal(n)) && Decimal(n) != []
  {
    DigitsOfDecimal(n);
  }

  lemma ParseIntOfText(i: int)
    requires MIN_INT64 <= i <= MAX_INT64
    ensures ParseInt(IntText(i)) == Some(i) && Plain(IntText(i)) && IntText(i) != []
  {
    if i < 0 {
      ParseUintOfDecimal(-i, -MIN_INT64);
      assert IntText(i)[1..] == Decimal(-i);
    } else {
      ParseUintOfDecimal(i, MAX_INT64);
      DigitsOfDecimal(i);
      assert '0' <= Decimal(i)[0] <= '9';
    }
  }

  // ----- operators

  datatype Operator =
    | Equals | GreaterThan | GreaterThanOrEqual | LessThan | LessThanOrEqual
    | FloatEquals | FloatGreaterThan | FloatGreaterThanOrEqual | FloatLessThan | FloatLessThanOrEqual
    | SameAs | Contains | StartsWith | EndsWith | In | Matches | Is | Exists

  /** The table of operator names, with their short forms. */
  function OperatorNamed(name: string): Option<Operator> {
    var symbol := SymbolNamed(name);
    if symbol.Some? then symbol else WordNamed(name)
  }

  function SymbolNamed(name: string): Option<Operator> {
    if name == "==" then Some(Equals)
    else if name == ">" then Some(GreaterThan)
    else if name == ">=" then Some(GreaterThanOrEqual)
    else if name == "<" then Some(LessThan)
    else if name == "<=" then Some(LessThanOrEqual)
    else if name == "f==" then Some(FloatEquals)
    else if name == "f>" then Some(FloatGreaterThan)
    else if name == "f>=" then Some(FloatGreaterThanOrEqual)
    else if name == "f<" then Some(FloatLessThan)
    else if name == "f<=" then Some(FloatLessThanOrEqual)
    else None
  }

  function WordNamed(name: string): Option<Operator> {
    if name == "sameas" || name == "s==" then Some(SameAs)
    else if name == "contains" || name == "co" then Some(Contains)
    else if name == "startswith" || name == "sw" then Some(StartsWith)
    else if name == "endswith" || name == "ew" then Some(EndsWith)
    else if name == "in" then Some(In)
    else if name == "matches" || name == "re" then Some(Matches)
    else if name == "is" then Some(Is)
    else if name == "exists" || name == "ex" then Some(Exists)
    else None
  }

  function OperatorName(op: Operator): string {
    match op
    case Equals => "==" case GreaterThan => ">" case GreaterThanOrEqual => ">="
    case LessThan => "<" case LessThanOrEqual => "<="
    case FloatEquals => "f==" case FloatGreaterThan => "f>" case FloatGreaterThanOrEqual => "f>="
    case FloatLessThan => "f<" case FloatLessThanOrEqual => "f<="
    case SameAs => "sameas" case Contains => "contains" case StartsWith => "startswith" case EndsWith => "endswith"
    case In => "in" case Matches => "matches" case Is => "is" case Exists => "exists"
  }

  /** The printed name of an operator is one of its names and longer than all others. */
  lemma OperatorNameIsLongest(op: Operator, name: string)
    ensures OperatorNamed(OperatorName(op)) == Some(op)
    ensures OperatorNamed(name) == Some(op) ==> name == OperatorName(op) || |name| < |OperatorName(op)|
  {
    OperatorNameIsName(op);
    if SymbolNamed(name).Some? { OnlySymbol(name); } else if WordNamed(name).Some? { LongestWord(name); }
  }

  lemma OperatorNameIsName(op: Operator)
    ensures OperatorNamed(OperatorName(op)) == Some(op)
  {
  }

  lemma OnlySymbol(name: string)
    requires SymbolNamed(name).Some?
    ensures name == OperatorName(SymbolNamed(name).value)
  {
  }

  lemma LongestWord(name: string)
    requires WordNamed(name).Some?
    ensures var longest := OperatorName(WordNamed(name).value); name == longest || |name| < |longest|
  {
  }

  lemma OperatorNameIsPlain(op: Operator)
    ensures Plain(OperatorName(op)) && OperatorName(op) != [] && OperatorName(op) != "not"
  {
    assert OperatorName(op)[0] != 'n';
  }

  /** The initialisation of the printed names: whatever the order the table is ranged over in, each
      operator gets a longest one of its names. */
  method BuildPrimaryNames(names: map<string, Operator>) returns (primary: map<Operator, string>)
    ensures primary.Keys == names.Values
    ensures forall op | op in primary :: primary[op] in names && names[primary[op]] == op
    ensures forall name | name in names :: names[name] in primary && |name| <= |primary[names[name]]|
  {
    primary := map[];
    var todo := names.Keys;
    while todo != {}
      invariant todo <= names.Keys
      invariant forall op | op in primary :: primary[op] in names && names[primary[op]] == op
      invariant forall name | name in names && name !in todo ::
        names[name] in primary && |name| <= |primary[names[name]]|
    {
      var name :| name in todo;
      var op := names[name];
      if op !in primary || |primary[op]| < |name| {
        primary := primary[op := name];
      }
      todo := todo - {name};
    }
  }

  /** The names are those of the table. */
  ghost predicate IsTable(names: map<string, Operator>) {
    forall name :: OperatorNamed(name) == if name in names then Some(names[name]) else None
  }

  /** From the table, in any order, the initialisation makes exactly the printed names. */
  method InitOperatorNames(names: map<string, Operator>) returns (primary: map<Operator, string>)
    requires IsTable(names)
    ensures forall op :: op in primary && primary[op] == OperatorName(op)
  {
    primary := BuildPrimaryNames(names);
    forall op ensures op in primary && primary[op] == OperatorName(op) {
      PrimaryIsLongest(names, primary, op);
    }
  }

  lemma PrimaryIsLongest(names: map<string, Operator>, primary: map<Operator, string>, op: Operator)
    requires IsTable(names) && primary.Keys == names.Values
    requires op in primary ==> primary[op] in names && names[primary[op]] == op
    requires forall name | name in names :: names[name] in primary && |name| <= |primary[names[name]]|
    ensures op in primary && primary[op] == OperatorName(op)
  {
    var longest := OperatorName(op);
    OperatorNameIsLongest(op, longest);
    assert longest in names && names[longest] == op;
    OperatorNameIsLongest(op, primary[op]);
    assert OperatorNamed(primary[op]) == Some(op);
  }

  const SYMBOLS: map<string, Operator> := map[
    "==" := Equals, ">" := GreaterThan, ">=" := GreaterThanOrEqual, "<" := LessThan, "<=" := LessThanOrEqual,
    "f==" := FloatEquals, "f>" := FloatGreaterThan, "f>=" := FloatGreaterThanOrEqual,
    "f<" := FloatLessThan, "f<=" := FloatLessThanOrEqual]

  const WORDS: map<string, Operator> := map[
    "sameas" := SameAs, "s==" := SameAs, "contains" := Contains, "co" := Contains,
    "startswith" := StartsWith, "sw" := StartsWith, "endswith" := EndsWith, "ew" := EndsWith,
    "in" := In, "matches" := Matches, "re" := Matches, "is" := Is, "exists" := Exists, "ex" := Exists]

  lemma Symbols(name: string)
    ensures SymbolNamed(name) == if name in SYMBOLS then Some(SYMBOLS[name]) else None
  {
  }

  lemma Words(name: string)
    ensures WordNamed(name) == if name in WORDS then Some(WORDS[name]) else None
  {
  }

  /** The table of the source. */
  lemma TableIsTable()
    ensures IsTable(WORDS + SYMBOLS)
  {
    forall name ensures OperatorNamed(name) == if name in WORDS + SYMBOLS then Some((WORDS + SYMBOLS)[name]) else None {
      Symbols(name);
      Words(name);
    }
  }

  // ----- conditions

  datatype Condition =
    | IntCond(key: string, op: Operator, number: int)
    | StringCond(key: string, op: Operator, text: string)
    | InCond(key: string, values: seq<string>)
    | ForeignCond(key: string, op: Operator, value: string)
    | IsCond(key: string, flag: bool)
    | ExistsCond(key: string)
    | ErrorCond
    | And(conditions: seq<Condition>)
    | Or(conditions: seq<Condition>)
    | Not(condition: Condition)
  {
    predicate IsLeaf() {
      IntCond? || StringCond? || InCond? || ForeignCond? || IsCond? || ExistsCond?
    }

    function LeafOperator(): Operator
      requires IsLeaf()
    {
      match this
      case IntCond(_, op, _) => op
      case StringCond(_, op, _) => op
      case InCond(_, _) => In
      case ForeignCond(_, op, _) => op
      case IsCond(_, _) => Is
      case ExistsCond(_) => Exists
    }

    /** The value as it is printed, before escaping. */
    function LeafValue(): Option<string>
      requires IsLeaf()
    {
      match this
      case IntCond(_, _, number) => Some(IntText(number))
      case StringCond(_, _, text) => Some(text)
      case InCond(_, values) => Some(JoinWith(values, ","))
      case ForeignCond(_, _, value) => Some(value)
      case IsCond(_, flag) => Some(if flag then "true" else "false")
      case ExistsCond(_) => None
    }
  }

  predicate IntOperator(op: Operator) {
    op.Equals? || op.GreaterThan? || op.GreaterThanOrEqual? || op.LessThan? || op.LessThanOrEqual?
  }

  predicate StringOperator(op: Operator) {
    op.SameAs? || op.Contains? || op.StartsWith? || op.EndsWith?
  }

  predicate FloatOperator(op: Operator) {
    op.FloatEquals? || op.FloatGreaterThan? || op.FloatGreaterThanOrEqual? || op.FloatLessThan? || op.FloatLessThanOrEqual?
  }

  /** Operators whose values libraries read: floating point numbers and regular expressions. */
  predicate ForeignOperator(op: Operator) {
    FloatOperator(op) || op.Matches?
  }

  /** What the libraries make of a value: its text as they print it, or nothing if they reject it.
      Nothing is known about them, so all that is proved holds whatever they do. */
  const ReadForeign: (Operator, string) -> Option<string>

  // ----- printing

  function FirstSpace(text: string): (i: nat)
    ensures i <= |text|
  {
    if text == [] || text[0] == ' ' then 0 else 1 + FirstSpace(text[1..])
  }

  /** How Not prints: before a group, and otherwise after the first space-separated part. */
  function NotText(text: string): string {
    if text != [] && text[0] == '(' then "not " + text
    else text[..FirstSpace(text)] + ([' '] + "not") + text[FirstSpace(text)..]
  }

  /** What follows the key: an operator name and, mostly, a value. */
  function TailText(name: string, value: Option<string>): string {
    [' '] + name + (if value.Some? then [' '] + Escaped(value.value) else [])
  }

  function LeafText(c: Condition): string
    requires c.IsLeaf()
  {
    Escaped(c.key) + TailText(OperatorName(c.LeafOperator()), c.LeafValue())
  }

  function Spaced(word: string): string {
    [' '] + word + [' ']
  }

  function Text(c: Condition): string {
    match c
    case ErrorCond => "[ERROR]"
    case And(cs) => "(" + TextJoined(cs, Spaced("and")) + ")"
    case Or(cs) => "(" + TextJoined(cs, Spaced("or")) + ")"
    case Not(x) => NotText(Text(x))
    case _ => LeafText(c)
  }

  function TextJoined(cs: seq<Condition>, sep: string): string {
    if cs == [] then [] else if |cs| == 1 then Text(cs[0]) else Text(cs[0]) + sep + TextJoined(cs[1..], sep)
  }

  // ----- the tokens of a printed condition

  function TailTokens(name: string, value: Option<string>): seq<string> {
    [name] + (if value.Some? then [value.value] else [])
  }

  function LeafTokens(c: Condition, negated: bool): seq<string>
    requires c.IsLeaf()
  {
    var tail := TailTokens(OperatorName(c.LeafOperator()), c.LeafValue());
    if negated then [c.key] + (["not"] + tail) else [c.key] + tail
  }

  function Tokens(c: Condition): seq<string> {
    match c
    case ErrorCond => ["[ERROR]"]
    case And(cs) => ["("] + TokensJoined(cs, "and") + [")"]
    case Or(cs) => ["("] + TokensJoined(cs, "or") + [")"]
    case Not(x) => if x.IsLeaf() then LeafTokens(x, true) else ["not"] + Tokens(x)
    case _ => LeafTokens(c, false)
  }

  function TokensJoined(cs: seq<Condition>, sep: string): seq<string> {
    if cs == [] then [] else if |cs| == 1 then Tokens(cs[0]) else Tokens(cs[0]) + [sep] + TokensJoined(cs[1..], sep)
  }

  // ----- conditions that print faithfully

  predicate KeyOk(key: string) {
    Printable(key) && key != "(" && key != ")" && key != "and" && key != "or" && key != "not"
  }

  predicate CanonicalLeaf(c: Condition)
    requires c.IsLeaf()
  {
    KeyOk(c.key)
    && match c
       case IntCond(_, op, number) => IntOperator(op) && MIN_INT64 <= number <= MAX_INT64
       case StringCond(_, op, text) => StringOperator(op) && Printable(text)
       case InCond(_, values) =>
         |values| >= 2 && Printable(JoinWith(values, ",")) && forall i | 0 <= i < |values| :: ',' !in values[i]
       case ForeignCond(_, op, value) =>
         ForeignOperator(op) && Printable(value) && (FloatOperator(op) ==> Plain(value)) && ReadForeign(op, value) == Some(value)
       case IsCond(_, _) => true
       case ExistsCond(_) => true
  }

  /** Groups of two or more, no negation of a negation, and no space in the key of a negated leaf. */
  predicate Canonical(c: Condition) {
    match c
    case ErrorCond => false
    case And(cs) => |cs| >= 2 && forall i | 0 <= i < |cs| :: Canonical(cs[i])
    case Or(cs) => |cs| >= 2 && forall i | 0 <= i < |cs| :: Canonical(cs[i])
    case Not(x) => Canonical(x) && !x.Not? && (x.IsLeaf() ==> ' ' !in x.key)
    case _ => CanonicalLeaf(c)
  }

  // ----- printed conditions lex to their tokens

  function LexOn(rest: string): Result<seq<string>> {
    Lex(rest, None, false, false)
  }

  predicate TailOk(name: string, value: Option<string>) {
    Plain(name) && name != [] && (value.Some? ==> Printable(value.value))
  }

  lemma LeafTailOk(c: Condition)
    requires c.IsLeaf() && CanonicalLeaf(c)
    ensures TailOk(OperatorName(c.LeafOperator()), c.LeafValue())
  {
    OperatorNameIsPlain(c.LeafOperator());
    match c
    case IntCond(_, _, number) => ParseIntOfText(number); PlainIsPrintable(IntText(number));
    case _ =>
  }

  /** A plain word after a space. */
  lemma LexSpacedWord(word: string, rest: string)
    requires Plain(word) && word != [] && Ends(rest)
    ensures LexOn([' '] + word + rest) == Before([word], LexOn(rest))
  {
    PlainIsPrintable(word);
    LexSpacedToken(word, rest);
  }

  lemma LexSpacedToken(token: string, rest: string)
    requires Printable(token) && Ends(rest)
    ensures LexOn([' '] + Escaped(token) + rest) == Before([token], LexOn(rest))
  {
    LexToken(token, rest);
    assert [' '] + Escaped(token) + rest == [' '] + (Escaped(token) + rest);
    LexSpace(Escaped(token) + rest);
  }

  lemma LexTail(name: string, value: Option<string>, rest: string)
    requires TailOk(name, value) && Ends(rest)
    ensures LexOn(TailText(name, value) + rest) == Before(TailTokens(name, value), LexOn(rest))
  {
    if value.None? {
      assert TailText(name, value) + rest == [' '] + name + rest;
      assert TailTokens(name, value) == [name];
      LexSpacedWord(name, rest);
    } else {
      var tail := [' '] + Escaped(value.value) + rest;
      LexSpacedToken(value.value, rest);
      assert TailText(name, value) + rest == [' '] + name + tail;
      LexSpacedWord(name, tail);
      BeforeBefore([name], [value.value], LexOn(rest));
    }
  }

  lemma LexKeyAndTail(key: string, name: string, value: Option<string>, rest: string)
    requires Printable(key) && TailOk(name, value) && Ends(rest)
    ensures LexOn(Escaped(key) + TailText(name, value) + rest) == Before([key] + TailTokens(name, value), LexOn(rest))
  {
    var tail := TailText(name, value) + rest;
    assert Escaped(key) + TailText(name, value) + rest == Escaped(key) + tail;
    LexToken(key, tail);
    LexTail(name, value, rest);
    BeforeBefore([key], TailTokens(name, value), LexOn(rest));
  }

  lemma LexWordAndTail(word: string, name: string, value: Option<string>, rest: string)
    requires Plain(word) && word != [] && TailOk(name, value) && Ends(rest)
    ensures LexOn([' '] + word + TailText(name, value) + rest) == Before([word] + TailTokens(name, value), LexOn(rest))
  {
    Regroup([' '] + word, TailText(name, value), [], rest);
    LexSpacedWord(word, TailText(name, value) + rest);
    LexTail(name, value, rest);
    BeforeBefore([word], TailTokens(name, value), LexOn(rest));
  }

  lemma Regroup<T>(a: seq<T>, b: seq<T>, c: seq<T>, rest: seq<T>)
    ensures a + b + rest == a + (b + rest)
    ensures a + b + c + rest == a + (b + c + rest)
    ensures b + c + rest == b + (c + rest)
  {
  }

  lemma LexKeyWordAndTail(key: string, word: string, name: string, value: Option<string>, rest: string)
    requires Printable(key) && Plain(word) && word != [] && TailOk(name, value) && Ends(rest)
    ensures LexOn(Escaped(key) + ([' '] + word) + TailText(name, value) + rest)
         == Before([key] + ([word] + TailTokens(name, value)), LexOn(rest))
  {
    Regroup(Escaped(key), [' '] + word, TailText(name, value), rest);
    LexToken(key, [' '] + word + TailText(name, value) + rest);
    LexWordAndTail(word, name, value, rest);
    BeforeBefore([key], [word] + TailTokens(name, value), LexOn(rest));
  }

  lemma {:induction false} FirstSpaceAfter(word: string, rest: string)
    requires ' ' !in word && rest != [] && rest[0] == ' '
    ensures FirstSpace(word + rest) == |word|
  {
    if word == [] {
      assert word + rest == rest;
    } else {
      assert (word + rest)[1..] == word[1..] + rest;
      FirstSpaceAfter(word[1..], rest);
    }
  }

  lemma {:induction false} EscapeQuotesNoSpace(token: string)
    requires ' ' !in token
    ensures ' ' !in EscapeQuotes(token)
  {
    if token != [] { EscapeQuotesNoSpace(token[1..]); }
  }

  lemma EscapedStarts(key: string)
    requires Printable(key)
    ensures Escaped(key) != [] && Escaped(key)[0] != '('
    ensures ' ' !in key ==> ' ' !in Escaped(key)
  {
    if ' ' !in key { EscapeQuotesNoSpace(key); }
  }

  lemma NotInserted(key: string, name: string, value: Option<string>)
    requires Printable(key) && ' ' !in key
    ensures NotText(Escaped(key) + TailText(name, value)) == Escaped(key) + ([' '] + "not") + TailText(name, value)
  {
    var tail := TailText(name, value);
    var text := Escaped(key) + tail;
    EscapedStarts(key);
    assert tail[0] == ' ';
    FirstSpaceAfter(Escaped(key), tail);
    assert text[..|Escaped(key)|] == Escaped(key) && text[|Escaped(key)|..] == tail;
    assert text[0] == Escaped(key)[0];
  }

  lemma LexLeaf(c: Condition, rest: string)
    requires c.IsLeaf() && CanonicalLeaf(c) && Ends(rest)
    ensures LexOn(LeafText(c) + rest) == Before(LeafTokens(c, false), LexOn(rest))
  {
    LeafTailOk(c);
    LexKeyAndTail(c.key, OperatorName(c.LeafOperator()), c.LeafValue(), rest);
  }

  lemma LexNotLeaf(c: Condition, rest: string)
    requires c.IsLeaf() && CanonicalLeaf(c) && ' ' !in c.key && Ends(rest)
    ensures LexOn(NotText(LeafText(c)) + rest) == Before(LeafTokens(c, true), LexOn(rest))
  {
    LeafTailOk(c);
    NotInserted(c.key, OperatorName(c.LeafOperator()), c.LeafValue());
    LexKeyWordAndTail(c.key, "not", OperatorName(c.LeafOperator()), c.LeafValue(), rest);
  }

  // ----- groups

  lemma GroupTextStarts(c: Condition)
    requires c.And? || c.Or?
    ensures Text(c) != [] && Text(c)[0] == '('
  {
  }

  lemma {:induction false} LexCondition(c: Condition, rest: string)
    requires Canonical(c) && Ends(rest)
    ensures LexOn(Text(c) + rest) == Before(Tokens(c), LexOn(rest))
    decreases c, 0
  {
    match c
    case ErrorCond =>
    case And(cs) => LexGroup(cs, "and", rest);
    case Or(cs) => LexGroup(cs, "or", rest);
    case Not(x) =>
      if x.IsLeaf() {
        LexNotLeaf(x, rest);
      } else {
        GroupTextStarts(x);
        LexCondition(x, rest);
        LexNot(Text(x), Tokens(x), rest);
      }
    case _ => LexLeaf(c, rest);
  }

  lemma LexNot(text: string, tokens: seq<string>, rest: string)
    requires LexOn(text + rest) == Before(tokens, LexOn(rest))
    ensures LexOn("not " + text + rest) == Before(["not"] + tokens, LexOn(rest))
  {
    var tail := [' '] + (text + rest);
    assert "not " + text + rest == "not" + tail;
    PlainIsPrintable("not");
    LexToken("not", tail);
    LexSpace(text + rest);
    BeforeBefore(["not"], tokens, LexOn(rest));
  }

  lemma {:induction false} LexGroup(cs: seq<Condition>, word: string, rest: string)
    requires |cs| > 0 && (forall i | 0 <= i < |cs| :: Canonical(cs[i])) && Plain(word) && word != []
    ensures LexOn("(" + TextJoined(cs, Spaced(word)) + ")" + rest)
         == Before(["("] + TokensJoined(cs, word) + [")"], LexOn(rest))
    decreases cs, 1
  {
    LexJoined(cs, word, [')'] + rest);
    LexEnclosed(TextJoined(cs, Spaced(word)), TokensJoined(cs, word), rest);
  }

  lemma LexEnclosed(text: string, tokens: seq<string>, rest: string)
    requires LexOn(text + ([')'] + rest)) == Before(tokens, LexOn([')'] + rest))
    ensures LexOn("(" + text + ")" + rest) == Before(["("] + tokens + [")"], LexOn(rest))
  {
    LexParen(')', rest);
    LexParen('(', text + ([')'] + rest));
    Regroup(['('], text, [')'], rest);
    BeforeBefore(tokens, [")"], LexOn(rest));
    BeforeBefore(["("], tokens + [")"], LexOn(rest));
    Regroup(["("], tokens, [], [")"]);
  }

  lemma {:induction false} LexJoined(cs: seq<Condition>, word: string, rest: string)
    requires |cs| > 0 && (forall i | 0 <= i < |cs| :: Canonical(cs[i])) && Plain(word) && word != [] && Ends(rest)
    ensures LexOn(TextJoined(cs, Spaced(word)) + rest) == Before(TokensJoined(cs, word), LexOn(rest))
    decreases cs, 0
  {
    if |cs| == 1 {
      LexCondition(cs[0], rest);
    } else {
      var more := TextJoined(cs[1..], Spaced(word));
      LexJoined(cs[1..], word, rest);
      LexSeparated(cs[0], word, more + rest);
      SpacedApart(Text(cs[0]), word, more, rest);
      BeforeBefore(Tokens(cs[0]) + [word], TokensJoined(cs[1..], word), LexOn(rest));
    }
  }

  lemma SpacedApart(a: string, word: string, b: string, rest: string)
    ensures a + Spaced(word) + b + rest == a + ([' '] + word + ([' '] + (b + rest)))
  {
  }

  lemma {:induction false} LexSeparated(c: Condition, word: string, more: string)
    requires Canonical(c) && Plain(word) && word != []
    ensures LexOn(Text(c) + ([' '] + word + ([' '] + more))) == Before(Tokens(c) + [word], LexOn(more))
    decreases c, 1
  {
    LexCondition(c, [' '] + word + ([' '] + more));
    LexSpacedWord(word, [' '] + more);
    LexSpace(more);
    BeforeBefore(Tokens(c), [word], LexOn(more));
  }
}
