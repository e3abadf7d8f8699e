/** File names that carry a version. */
module VersionedNames {
  import opened Basics
  import opened NameMatching

  // ----- strings

  /** The length of the leading run of characters from lo to hi. */
  function Run(s: string, lo: char, hi: char): (n: nat)
    ensures n <= |s|
  {
    if s == [] || !(lo <= s[0] <= hi) then 0 else 1 + Run(s[1..], lo, hi)
  }

  function Digits(s: string): nat { Run(s, '0', '9') }
  function Letters(s: string): nat { Run(s, 'a', 'z') }

  predicate IsRun(s: string, n: nat, lo: char, hi: char) {
    n <= |s| && (forall i | 0 <= i < n :: lo <= s[i] <= hi) && (n < |s| ==> !(lo <= s[n] <= hi))
  }

  lemma {:induction false} RunExactly(s: string, n: nat, lo: char, hi: char)
    ensures IsRun(s, n, lo, hi) <==> n == Run(s, lo, hi)
  {
    if s != [] && lo <= s[0] <= hi {
      if n > 0 { RunExactly(s[1..], n - 1, lo, hi); }
      if IsRun(s, n, lo, hi) {
        assert IsRun(s[1..], n - 1, lo, hi);
      } else if n > 0 && IsRun(s[1..], n - 1, lo, hi) {
        assert forall i | 0 < i < n :: s[i] == s[1..][i - 1];
        assert IsRun(s, n, lo, hi);
      }
    }
  }

  lemma RunInside(s: string, t: string, lo: char, hi: char)
    requires Run(s, lo, hi) < |s| || t == [] || !(lo <= t[0] <= hi)
    ensures Run(s + t, lo, hi) == Run(s, lo, hi)
  {
    RunExactly(s, Run(s, lo, hi), lo, hi);
    RunExactly(s + t, Run(s, lo, hi), lo, hi);
  }

  lemma RunOfPrefix(s: string, n: nat, lo: char, hi: char)
    requires n <= |s|
    ensures Run(s[..n], lo, hi) == if Run(s, lo, hi) <= n then Run(s, lo, hi) else n
  {
    RunExactly(s, Run(s, lo, hi), lo, hi);
    RunExactly(s[..n], if Run(s, lo, hi) <= n then Run(s, lo, hi) else n, lo, hi);
  }

  /** strings.Replace of one character, at most n times. */
  function Replace(s: string, from: char, to: char, n: nat): string {
    if s == [] || n == 0 then s
    else if s[0] == from then [to] + Replace(s[1..], from, to, n - 1)
    else [s[0]] + Replace(s[1..], from, to, n)
  }

  /** strings.TrimLeft with two characters. */
  function TrimLeft(s: string, a: char, b: char): string {
    if s != [] && (s[0] == a || s[0] == b) then TrimLeft(s[1..], a, b) else s
  }

  // ----- versions

  /** k numbers that end in the separator, another number, and maybe a dash and letters. */
  predicate IsVersion(s: string, k: nat, sep: char) {
    var d := Digits(s);
    d > 0
    && if k == 0 then d == |s| || IsSuffix(s[d..])
       else d < |s| && s[d] == sep && IsVersion(s[d + 1..], k - 1, sep)
  }

  predicate IsSuffix(s: string) {
    |s| > 1 && s[0] == '-' && Letters(s[1..]) == |s| - 1
  }

  /** The length of the version that a string starts with, zero if there is none. All runs are
      greedy: nothing that may follow a run can continue it. */
  function VersionLength(s: string, k: nat): (n: nat)
    ensures n <= |s|
  {
    var d := Digits(s);
    if d == 0 then 0
    else if k == 0 then d + SuffixLength(s[d..])
    else if d == |s| || s[d] != '-' then 0
    else
      var rest := VersionLength(s[d + 1..], k - 1);
      if rest == 0 then 0 else d + 1 + rest
  }

  function SuffixLength(s: string): (n: nat)
    ensures n <= |s|
  {
    if s == [] || s[0] != '-' || Letters(s[1..]) == 0 then 0 else 1 + Letters(s[1..])
  }

  function MatchLength(s: string): (n: nat)
    ensures n <= |s|
  {
    if |s| < 2 || s[0] != '_' || s[1] != 'v' then 0
    else
      var rest := VersionLength(s[2..], 2);
      if rest == 0 then 0 else 2 + rest
  }

  /** What is matched is a version ... */
  lemma {:induction false} MatchedIsVersion(s: string, k: nat)
    requires VersionLength(s, k) > 0
    ensures IsVersion(s[..VersionLength(s, k)], k, '-')
    decreases k
  {
    var d, m := Digits(s), VersionLength(s, k);
    RunOfPrefix(s, m, '0', '9');
    if k > 0 {
      SliceOfPrefix(s, d + 1, m);
      MatchedIsVersion(s[d + 1..], k - 1);
    } else if d < m {
      SliceOfPrefix(s, d, m);
      MatchedIsSuffix(s[d..]);
    }
  }

  lemma SliceOfPrefix(s: string, i: nat, n: nat)
    requires i <= n <= |s|
    ensures s[..n][i..] == s[i..][..n - i]
  {
  }

  lemma MatchedIsSuffix(s: string)
    requires SuffixLength(s) > 0
    ensures IsSuffix(s[..SuffixLength(s)])
  {
    var n := SuffixLength(s);
    SliceOfPrefix(s, 1, n);
    RunOfPrefix(s[1..], n - 1, 'a', 'z');
  }

  lemma SuffixIsLongest(s: string, n: nat)
    requires n <= |s| && IsSuffix(s[..n])
    ensures n <= SuffixLength(s)
  {
    SliceOfPrefix(s, 1, n);
    RunOfPrefix(s[1..], n - 1, 'a', 'z');
  }

  lemma LastIsLongest(s: string, n: nat)
    requires n <= |s| && IsVersion(s[..n], 0, '-')
    ensures 0 < n <= VersionLength(s, 0)
  {
    var d := Digits(s);
    RunOfPrefix(s, n, '0', '9');
    if d < n {
      SliceOfPrefix(s, d, n);
      SuffixIsLongest(s[d..], n - d);
    }
  }

  /** ... and no longer prefix is one. */
  lemma {:induction false} MatchedIsLongest(s: string, k: nat, n: nat)
    requires n <= |s| && IsVersion(s[..n], k, '-')
    ensures 0 < n <= VersionLength(s, k)
    decreases k
  {
    if k == 0 {
      LastIsLongest(s, n);
    } else {
      var d := Digits(s);
      RunOfPrefix(s, n, '0', '9');
      SliceOfPrefix(s, d + 1, n);
      MatchedIsLongest(s[d + 1..], k - 1, n - d - 1);
    }
  }

  // ----- what versions look like

  predicate Number(s: string) {
    s != [] && forall i | 0 <= i < |s| :: '0' <= s[i] <= '9'
  }

  /** Nothing, or a dash and letters. */
  predicate Tag(s: string) {
    s == [] || (|s| > 1 && s[0] == '-' && forall i | 1 <= i < |s| :: 'a' <= s[i] <= 'z')
  }

  lemma LastForm(number: string, tag: string, sep: char)
    requires Number(number) && Tag(tag)
    ensures IsVersion(number + tag, 0, sep)
  {
    var s := number + tag;
    RunExactly(s, |number|, '0', '9');
    assert s[|number|..] == tag;
    if tag != [] {
      assert forall i | 0 <= i < |tag| - 1 :: tag[1..][i] == tag[i + 1];
      RunExactly(tag[1..], |tag| - 1, 'a', 'z');
    }
  }

  lemma NumberForm(number: string, rest: string, k: nat, sep: char)
    requires k > 0 && Number(number) && NoDigit(sep) && IsVersion(rest, k - 1, sep)
    ensures IsVersion(number + ([sep] + rest), k, sep)
  {
    var s := number + ([sep] + rest);
    RunExactly(s, |number|, '0', '9');
    assert s[|number| + 1..] == rest;
  }

  /** Three numbers and maybe a tag make a version, ... */
  lemma VersionForm(a: string, b: string, c: string, tag: string, sep: char)
    requires Number(a) && Number(b) && Number(c) && Tag(tag) && NoDigit(sep)
    ensures IsVersion(a + ([sep] + (b + ([sep] + (c + tag)))), 2, sep)
  {
    LastForm(c, tag, sep);
    NumberForm(b, c + tag, 1, sep);
    NumberForm(a, b + ([sep] + (c + tag)), 2, sep);
  }

  lemma NumberPart(s: string, k: nat, sep: char) returns (number: string, rest: string)
    requires IsVersion(s, k + 1, sep)
    ensures Number(number) && s == number + ([sep] + rest) && IsVersion(rest, k, sep)
  {
    var d := Digits(s);
    RunExactly(s, d, '0', '9');
    number, rest := s[..d], s[d + 1..];
    assert s == s[..d] + ([s[d]] + s[d + 1..]);
  }

  lemma LastParts(s: string, sep: char) returns (number: string, tag: string)
    requires IsVersion(s, 0, sep)
    ensures Number(number) && Tag(tag) && s == number + tag
  {
    var d := Digits(s);
    RunExactly(s, d, '0', '9');
    number, tag := s[..d], s[d..];
    if tag != [] {
      RunExactly(tag[1..], |tag| - 1, 'a', 'z');
      assert forall i | 1 <= i < |tag| :: tag[i] == tag[1..][i - 1];
    }
  }

  /** ... and every version is made of those. */
  lemma VersionParts(s: string, sep: char) returns (a: string, b: string, c: string, tag: string)
    requires IsVersion(s, 2, sep)
    ensures Number(a) && Number(b) && Number(c) && Tag(tag) && s == a + ([sep] + (b + ([sep] + (c + tag))))
  {
    var rest;
    a, rest := NumberPart(s, 1, sep);
    b, rest := NumberPart(rest, 0, sep);
    c, tag := LastParts(rest, sep);
  }

  // ----- matches and what surrounds them

  /** Neither a number, nor a separator, nor a suffix goes on with this character. */
  predicate Ends(c: char) {
    c != '-' && !('0' <= c <= '9') && !('a' <= c <= 'z')
  }

  /** What follows does not change a match if it stops one. */
  lemma {:induction false} VersionLengthStops(s: string, k: nat, t: string)
    requires t == [] || Ends(t[0])
    ensures VersionLength(s + t, k) == VersionLength(s, k)
    decreases k
  {
    if k == 0 {
      LastStops(s, t);
    } else {
      RunInside(s, t, '0', '9');
      if 0 < Digits(s) < |s| {
        VersionLengthStops(s[Digits(s) + 1..], k - 1, t);
        FirstStops(s, k, t);
      } else {
        NoFirstStops(s, k, t);
      }
    }
  }

  lemma FirstStops(s: string, k: nat, t: string)
    requires k > 0 && 0 < Digits(s) < |s| && Digits(s + t) == Digits(s)
    requires VersionLength(s[Digits(s) + 1..] + t, k - 1) == VersionLength(s[Digits(s) + 1..], k - 1)
    ensures VersionLength(s + t, k) == VersionLength(s, k)
  {
    var d := Digits(s);
    AppendBehind(s, d, t);
  }

  lemma NoFirstStops(s: string, k: nat, t: string)
    requires k > 0 && (Digits(s) == 0 || Digits(s) == |s|) && Digits(s + t) == Digits(s) && (t == [] || Ends(t[0]))
    ensures VersionLength(s + t, k) == VersionLength(s, k) == 0
  {
  }

  lemma LastStops(s: string, t: string)
    requires t == [] || Ends(t[0])
    ensures VersionLength(s + t, 0) == VersionLength(s, 0)
  {
    var d := Digits(s);
    RunInside(s, t, '0', '9');
    if d < |s| {
      assert (s + t)[d..] == s[d..] + t;
      SuffixLengthStops(s[d..], t);
    } else {
      assert (s + t)[d..] == t && s[d..] == [];
    }
  }

  lemma SuffixLengthStops(s: string, t: string)
    requires s != [] && (t == [] || Ends(t[0]))
    ensures SuffixLength(s + t) == SuffixLength(s)
  {
    assert (s + t)[1..] == s[1..] + t;
    RunInside(s[1..], t, 'a', 'z');
  }

  lemma MatchLengthStops(s: string, t: string)
    requires s != [] && (t == [] || (Ends(t[0]) && t[0] != 'v'))
    ensures MatchLength(s + t) == MatchLength(s)
  {
    if |s| >= 2 {
      assert (s + t)[2..] == s[2..] + t;
      VersionLengthStops(s[2..], 2, t);
    }
  }

  /** A whole version is matched to its end. */
  lemma {:induction false} WholeVersion(v: string, k: nat)
    requires IsVersion(v, k, '-')
    ensures VersionLength(v, k) == |v|
  {
    assert v[..|v|] == v;
    MatchedIsLongest(v, k, |v|);
  }

  lemma AppendBehind(s: string, i: nat, t: string)
    requires i < |s|
    ensures (s + t)[i] == s[i] && (s + t)[i + 1..] == s[i + 1..] + t
  {
  }

  /** More text after a match may prolong it, but there still is one. */
  lemma {:induction false} VersionLengthExtends(s: string, k: nat, t: string)
    requires VersionLength(s, k) > 0
    ensures VersionLength(s + t, k) > 0
    decreases k
  {
    if k == 0 {
      LastExtends(s, t);
    } else {
      VersionLengthExtends(s[Digits(s) + 1..], k - 1, t);
      FirstExtends(s, k, t);
    }
  }

  lemma LastExtends(s: string, t: string)
    requires Digits(s) > 0
    ensures VersionLength(s + t, 0) > 0
  {
    assert (s + t)[0] == s[0];
    assert Digits(s + t) > 0;
  }

  lemma FirstExtends(s: string, k: nat, t: string)
    requires k > 0 && 0 < Digits(s) < |s| && s[Digits(s)] == '-'
    requires VersionLength(s[Digits(s) + 1..] + t, k - 1) > 0
    ensures VersionLength(s + t, k) > 0
  {
    RunInside(s, t, '0', '9');
    AppendBehind(s, Digits(s), t);
  }

  lemma MatchExtends(s: string, raw: string)
    requires MatchLength(raw) > 0 && raw <= s
    ensures MatchLength(s) > 0
  {
    assert s[2..] == raw[2..] + s[|raw|..];
    VersionLengthExtends(raw[2..], 2, s[|raw|..]);
  }

  // ----- putting versions into names and taking them out

  /** The version that a match stands for. */
  function VersionOf(raw: string): string {
    Replace(TrimLeft(raw, '_', 'v'), '-', '.', 2)
  }

  /** A version as it appears in names. */
  function Packed(version: string): string {
    ['_', 'v'] + Replace(version, '.', '-', 2)
  }

  function GetIdentifierAndVersion(versionedPath: string): Option<Parts> {
    SplitPath(MatchLength, VersionOf, versionedPath)
  }

  function GetVersionedPath(identifier: string, version: string): string {
    PathWith(identifier, Packed(version))
  }

  /** Replacing the separators of a version and replacing them back. */
  lemma {:induction false} ReplaceSeparators(v: string, k: nat, a: char, b: char)
    requires IsVersion(v, k, a) && NoDigit(a) && NoDigit(b)
    ensures IsVersion(Replace(v, a, b, k), k, b) && Replace(Replace(v, a, b, k), b, a, k) == v
    decreases k
  {
    if k > 0 {
      var d := Digits(v);
      var number, rest := v[..d], v[d + 1..];
      assert v == number + ([a] + rest);
      RunExactly(v, d, '0', '9');
      ReplaceSeparators(rest, k - 1, a, b);
      var r := Replace(rest, a, b, k - 1);
      ReplaceOnce(number, rest, a, b, k);
      ReplaceOnce(number, r, b, a, k);
      NumberForm(number, r, k, b);
    }
  }

  lemma ReplaceOnce(number: string, rest: string, a: char, b: char, k: nat)
    requires k > 0 && a !in number
    ensures Replace(number + ([a] + rest), a, b, k) == number + ([b] + Replace(rest, a, b, k - 1))
  {
    ReplaceAfter(number, [a] + rest, a, b, k);
    assert ([a] + rest)[1..] == rest;
  }

  predicate NoDigit(c: char) {
    !('0' <= c <= '9')
  }

  lemma {:induction false} ReplaceAfter(s: string, t: string, a: char, b: char, k: nat)
    requires a !in s
    ensures Replace(s + t, a, b, k) == s + Replace(t, a, b, k)
  {
    if s == [] {
      assert s + t == t;
    } else if k > 0 {
      assert (s + t)[1..] == s[1..] + t;
      ReplaceAfter(s[1..], t, a, b, k);
    }
  }

  lemma TrimLeftOfMatch(v: string)
    requires IsVersion(v, 2, '-')
    ensures TrimLeft(['_', 'v'] + v, '_', 'v') == v
  {
    var s := ['_', 'v'] + v;
    assert s[1..] == ['v'] + v && s[1..][1..] == v;
    RunExactly(v, Digits(v), '0', '9');
    assert TrimLeft(v, '_', 'v') == v;
  }

  /** A version is matched to its end, before any extension. */
  lemma MatchOfVersion(v: string, t: string)
    requires IsVersion(v, 2, '-') && IsExtension(t)
    ensures MatchLength(['_', 'v'] + v) == MatchLength(['_', 'v'] + v + t) == |v| + 2
  {
    WholeVersion(v, 2);
    assert (['_', 'v'] + v)[2..] == v;
    MatchLengthStops(['_', 'v'] + v, t);
  }

  lemma {:induction false} NoSlashInVersion(v: string, k: nat, sep: char)
    requires IsVersion(v, k, sep) && sep != '/'
    ensures '/' !in v
    decreases k
  {
    var d := Digits(v);
    RunExactly(v, d, '0', '9');
    if k > 0 {
      NoSlashInVersion(v[d + 1..], k - 1, sep);
      assert forall i | d < i < |v| :: v[i] == v[d + 1..][i - d - 1];
    } else if d < |v| {
      var letters := v[d..][1..];
      RunExactly(letters, |letters|, 'a', 'z');
      assert forall i | d < i < |v| :: v[i] == letters[i - d - 1];
    }
  }

  lemma VersionOfPacked(version: string)
    requires IsVersion(version, 2, '.')
    ensures VersionOf(Packed(version)) == version && '/' !in Packed(version)
  {
    var v := Replace(version, '.', '-', 2);
    ReplaceSeparators(version, 2, '.', '-');
    TrimLeftOfMatch(v);
    NoSlashInVersion(v, 2, '-');
  }

  lemma PackedMatches(version: string, ext: string)
    requires IsVersion(version, 2, '.') && IsExtension(ext)
    ensures MatchLength(Packed(version)) == MatchLength(Packed(version) + ext) == |Packed(version)| > 0
  {
    ReplaceSeparators(version, 2, '.', '-');
    MatchOfVersion(Replace(version, '.', '-', 2), ext);
  }

  lemma PackedFits(version: string)
    requires IsVersion(version, 2, '.')
    ensures Fits(MatchLength, Packed(version))
  {
    VersionOfPacked(version);
    PackedMatches(version, []);
    forall ext | IsExtension(ext)
      ensures MatchLength(Packed(version) + ext) == |Packed(version)| && Stops(MatchLength, Packed(version) + ext)
    {
      PackedMatches(version, ext);
      UnderscoreStops(Packed(version) + ext);
    }
  }

  /** A match has an underscore at its start only. */
  lemma UnderscoreStops(t: string)
    requires t != [] && t[0] == '_'
    ensures Stops(MatchLength, t)
  {
    forall s | s != [] ensures MatchLength(s + t) == MatchLength(s) { MatchLengthStops(s, t); }
  }

  lemma MatcherIsSound()
    ensures Bounded(MatchLength) && Extends(MatchLength)
  {
    forall s, raw | MatchLength(raw) > 0 && raw <= s ensures MatchLength(s) > 0 { MatchExtends(s, raw); }
  }

  /** Whatever version is put into a name is taken out again, and leaves the name, if the name has no
      version before its first dot. */
  lemma RoundTrip(identifier: string, version: string)
    requires IsVersion(version, 2, '.')
    requires var file := identifier[DirLength(identifier)..]; FindMatch(MatchLength, file[..BaseLength(file)]) == None
    ensures GetIdentifierAndVersion(GetVersionedPath(identifier, version)) == Some(Parts(identifier, version))
  {
    MatcherIsSound();
    PackedFits(version);
    VersionOfPacked(version);
    PathRoundTrip(MatchLength, VersionOf, identifier, Packed(version));
  }

  lemma PackedAgain(v: string)
    requires IsVersion(v, 2, '-')
    ensures Packed(VersionOf(['_', 'v'] + v)) == ['_', 'v'] + v
  {
    TrimLeftOfMatch(v);
    ReplaceSeparators(v, 2, '-', '.');
  }

  /** A name whose leftmost version is right before its first dot, or at its end, is put together
      again from its parts. */
  lemma VersionedAgain(base: string, v: string, ext: string)
    requires IsVersion(v, 2, '-') && '.' !in base && IsExtension(ext)
    requires FindMatch(MatchLength, base + (['_', 'v'] + v + ext)) == Some(|base|)
    ensures Bounded(MatchLength)
    ensures var parts := SplitName(MatchLength, VersionOf, base + (['_', 'v'] + v + ext));
      parts.Some? && NameWith(parts.value.identifier, Packed(parts.value.version)) == base + (['_', 'v'] + v + ext)
  {
    MatcherIsSound();
    MatchOfVersion(v, ext);
    PackedAgain(v);
    NameAgain(MatchLength, VersionOf, Packed, base, ['_', 'v'] + v, ext);
  }

  // ----- what versioned names look like

  lemma PackedLayout(a: string, b: string, c: string, tag: string)
    requires Number(a) && Number(b) && Number(c)
    ensures Packed(a + (['.'] + (b + (['.'] + (c + tag))))) == ['_', 'v'] + (a + (['-'] + (b + (['-'] + (c + tag)))))
  {
    ReplaceOnce(a, b + (['.'] + (c + tag)), '.', '-', 2);
    ReplaceOnce(b, c + tag, '.', '-', 1);
  }

  /** The version goes before the first dot of the file name, with dashes between its numbers. */
  lemma PathLayout(dir: string, base: string, ext: string, version: string)
    requires (dir == [] || dir[|dir| - 1] == '/') && '/' !in base && '/' !in ext && '.' !in base && IsExtension(ext)
    ensures GetVersionedPath(dir + (base + ext), version) == dir + (base + (Packed(version) + ext))
  {
    DirLengthIs(dir, base + ext);
    BaseLengthIs(base, ext);
    Halves(dir, base + ext);
    Halves(base, ext);
  }
}
