/** Splitting strings at a separator and joining them again. */
module Splitting {
  function SplitOn(text: string, sep: char): (parts: seq<string>)
    ensures parts != []
  {
    if text == [] then [[]]
    else
      var rest := SplitOn(text[1..], sep);
      if text[0] == sep then [[]] + rest else [[text[0]] + rest[0]] + rest[1..]
  }

  function JoinWith(parts: seq<string>, sep: string): string {
    if parts == [] then [] else if |parts| == 1 then parts[0] else parts[0] + sep + JoinWith(parts[1..], sep)
  }

  lemma {:induction false} SplitFirst(part: string, sep: char, rest: string)
    requires sep !in part
    ensures SplitOn(part, sep) == [part]
    ensures SplitOn(part + [sep] + rest, sep) == [part] + SplitOn(rest, sep)
  {
    var text := part + [sep] + rest;
    if part == [] {
      assert text[1..] == rest;
    } else {
      SplitFirst(part[1..], sep, rest);
      assert text[1..] == part[1..] + [sep] + rest;
      assert [part[0]] + part[1..] == part;
    }
  }

  lemma {:induction false} SplitOfJoin(parts: seq<string>, sep: char)
    requires parts != [] && forall i | 0 <= i < |parts| :: sep !in parts[i]
    ensures SplitOn(JoinWith(parts, [sep]), sep) == parts
  {
    SplitFirst(parts[0], sep, if |parts| > 1 then JoinWith(parts[1..], [sep]) else []);
    if |parts| > 1 { SplitOfJoin(parts[1..], sep); }
  }

  lemma {:induction false} SplitSnoc(text: string, sep: char, part: string)
    requires sep !in part
    ensures SplitOn(text + [sep] + part, sep) == SplitOn(text, sep) + [part]
  {
    var whole := text + [sep] + part;
    if text == [] {
      assert whole[1..] == part;
      SplitFirst(part, sep, []);
    } else {
      assert whole[1..] == text[1..] + [sep] + part;
      SplitSnoc(text[1..], sep, part);
    }
  }

  lemma {:induction false} JoinOfSplit(text: string, sep: char)
    ensures JoinWith(SplitOn(text, sep), [sep]) == text
  {
    if text != [] {
      JoinOfSplit(text[1..], sep);
      var rest := SplitOn(text[1..], sep);
      if text[0] == sep {
        assert SplitOn(text, sep)[1..] == rest;
      } else {
        assert SplitOn(text, sep)[1..] == rest[1..];
      }
    }
  }

  /** Different strings split differently. */
  lemma SplitIsInjective(a: string, b: string, sep: char)
    requires SplitOn(a, sep) == SplitOn(b, sep)
    ensures a == b
  {
    JoinOfSplit(a, sep);
    JoinOfSplit(b, sep);
  }

  lemma {:induction false} PartsLackSeparator(text: string, sep: char)
    ensures forall i | 0 <= i < |SplitOn(text, sep)| :: sep !in SplitOn(text, sep)[i]
  {
    if text != [] { PartsLackSeparator(text[1..], sep); }
  }
}
