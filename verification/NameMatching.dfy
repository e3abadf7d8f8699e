/** File names with a matched part: finding it, taking it out and putting one in. What counts as a
    match, and what it stands for, are parameters. */
module NameMatching {
  import opened Basics

  /** The length of the match a string starts with, zero if there is none. */
  type Matcher = string -> nat

  ghost predicate Bounded(m: Matcher) {
    forall s :: m(s) <= |s|
  }

  /** More text after a match may prolong it, but there still is one. */
  ghost predicate Extends(m: Matcher) {
    forall s, raw | m(raw) > 0 && raw <= s :: m(s) > 0
  }

  /** No match goes on into the text. */
  ghost predicate Stops(m: Matcher, t: string) {
    forall s | s != [] :: m(s + t) == m(s)
  }

  /** Where the leftmost match starts. */
  function FindMatch(m: Matcher, s: string): (i: Option<nat>)
    ensures i.Some? ==> i.value < |s|
  {
    if s == [] then None
    else if m(s) > 0 then Some(0)
    else
      var rest := FindMatch(m, s[1..]);
      if rest.None? then None else Some(rest.value + 1)
  }

  /** strings.Index */
  function Index(s: string, sub: string): (i: Option<nat>)
    ensures i.Some? ==> i.value + |sub| <= |s|
  {
    if sub <= s then Some(0)
    else if s == [] then None
    else
      var rest := Index(s[1..], sub);
      if rest.None? then None else Some(rest.value + 1)
  }

  /** path.Split, as the length of the directory with its slash. */
  function DirLength(s: string): (n: nat)
    ensures n <= |s|
  {
    if s == [] then 0 else if s[|s| - 1] == '/' then |s| else DirLength(s[..|s| - 1])
  }

  /** The length of the part before the first dot. */
  function BaseLength(file: string): (n: nat)
    ensures n <= |file|
  {
    if file == [] || file[0] == '.' then 0 else 1 + BaseLength(file[1..])
  }

  predicate IsExtension(ext: string) {
    ext == [] || ext[0] == '.'
  }

  // ----- taking a match out of a name and putting one in

  datatype Parts = Parts(identifier: string, version: string)

  function MatchAt(m: Matcher, file: string, i: nat): string
    requires Bounded(m) && i <= |file|
  {
    file[i..][..m(file[i..])]
  }

  function Without(file: string, raw: string): Option<string> {
    var i := Index(file, raw);
    if i.None? then None else Some(file[..i.value] + file[i.value + |raw|..])
  }

  function SplitName(m: Matcher, unpack: string -> string, file: string): Option<Parts>
    requires Bounded(m)
  {
    var start := FindMatch(m, file);
    if start.None? then None
    else
      var raw := MatchAt(m, file, start.value);
      var identifier := Without(file, raw);
      if identifier.None? then None else Some(Parts(identifier.value, unpack(raw)))
  }

  function SplitPath(m: Matcher, unpack: string -> string, path: string): Option<Parts>
    requires Bounded(m)
  {
    var n := DirLength(path);
    var parts := SplitName(m, unpack, path[n..]);
    if parts.None? then None else Some(Parts(path[..n] + parts.value.identifier, parts.value.version))
  }

  function NameWith(file: string, raw: string): string {
    file[..BaseLength(file)] + (raw + file[BaseLength(file)..])
  }

  function PathWith(identifier: string, raw: string): string {
    var n := DirLength(identifier);
    identifier[..n] + NameWith(identifier[n..], raw)
  }

  // ----- finding

  /** The match found is the leftmost one. */
  lemma {:induction false} FoundIsLeftmost(m: Matcher, s: string, j: nat)
    requires j < |s|
    ensures FindMatch(m, s) == Some(j) ==> m(s[j..]) > 0
    ensures m(s[j..]) > 0 ==> FindMatch(m, s).Some? && FindMatch(m, s).value <= j
  {
    if j == 0 {
      assert s[0..] == s;
    } else {
      assert s[j..] == s[1..][j - 1..];
      FoundIsLeftmost(m, s[1..], j - 1);
    }
  }

  /** If no match starts in the base and goes on behind it, the match behind it is found. */
  lemma {:induction false} FindsAfterBase(m: Matcher, base: string, t: string)
    requires FindMatch(m, base) == None && t != [] && m(t) > 0 && Stops(m, t)
    ensures FindMatch(m, base + t) == Some(|base|)
  {
    if base == [] {
      assert base + t == t;
    } else {
      assert (base + t)[1..] == base[1..] + t;
      FindsAfterBase(m, base[1..], t);
    }
  }

  /** The matched text occurs nowhere before the leftmost match. */
  lemma {:induction false} IndexOfMatch(m: Matcher, s: string, raw: string)
    requires Extends(m) && FindMatch(m, s).Some? && m(raw) > 0 && raw <= s[FindMatch(m, s).value..]
    ensures Index(s, raw) == FindMatch(m, s)
  {
    if m(s) == 0 {
      assert !(raw <= s);
      assert s[FindMatch(m, s).value..] == s[1..][FindMatch(m, s[1..]).value..];
      IndexOfMatch(m, s[1..], raw);
    }
  }

  lemma MatchInMiddle(m: Matcher, base: string, raw: string, ext: string)
    requires Bounded(m) && m(raw + ext) == |raw|
    ensures MatchAt(m, base + (raw + ext), |base|) == raw
    ensures raw <= (base + (raw + ext))[|base|..]
  {
    var file := base + (raw + ext);
    assert file[|base|..] == raw + ext && (raw + ext)[..|raw|] == raw;
  }

  lemma WithoutMiddle(base: string, raw: string, ext: string)
    requires Index(base + (raw + ext), raw) == Some(|base|)
    ensures Without(base + (raw + ext), raw) == Some(base + ext)
  {
    var file := base + (raw + ext);
    assert file[..|base|] == base && file[|base| + |raw|..] == ext;
  }

  /** Taking apart a name whose leftmost match is known. */
  lemma SplitParts(m: Matcher, unpack: string -> string, base: string, raw: string, ext: string)
    requires Bounded(m) && Extends(m) && m(raw) > 0 && m(raw + ext) == |raw|
    requires FindMatch(m, base + (raw + ext)) == Some(|base|)
    ensures SplitName(m, unpack, base + (raw + ext)) == Some(Parts(base + ext, unpack(raw)))
  {
    MatchInMiddle(m, base, raw, ext);
    IndexOfMatch(m, base + (raw + ext), raw);
    WithoutMiddle(base, raw, ext);
  }

  // ----- directories and extensions

  lemma {:induction false} DirLengthIs(dir: string, file: string)
    requires (dir == [] || dir[|dir| - 1] == '/') && '/' !in file
    ensures DirLength(dir + file) == |dir|
  {
    var s := dir + file;
    if file == [] {
      assert s == dir;
      if dir == [] { assert s == []; }
    } else {
      assert s[..|s| - 1] == dir + file[..|file| - 1];
      DirLengthIs(dir, file[..|file| - 1]);
    }
  }

  lemma {:induction false} DirParts(s: string)
    ensures var n := DirLength(s); (n == 0 || s[n - 1] == '/') && '/' !in s[n..]
  {
    if s != [] && s[|s| - 1] != '/' {
      DirParts(s[..|s| - 1]);
      var n := DirLength(s);
      assert s[n..] == s[..|s| - 1][n..] + [s[|s| - 1]];
    }
  }

  lemma {:induction false} BaseParts(file: string)
    ensures IsExtension(file[BaseLength(file)..]) && file[..BaseLength(file)] + file[BaseLength(file)..] == file
  {
    if file != [] && file[0] != '.' {
      BaseParts(file[1..]);
      assert file[BaseLength(file)..] == file[1..][BaseLength(file[1..])..];
    }
  }

  lemma {:induction false} BaseLengthIs(base: string, ext: string)
    requires '.' !in base && IsExtension(ext)
    ensures BaseLength(base + ext) == |base|
  {
    if base == [] {
      assert base + ext == ext;
    } else {
      assert (base + ext)[1..] == base[1..] + ext;
      BaseLengthIs(base[1..], ext);
    }
  }

  // ----- round trips

  /** What is needed of the text put in: it matches to its end before any extension, and no match
      before it goes on into it. */
  ghost predicate Fits(m: Matcher, raw: string) {
    m(raw) > 0 && '/' !in raw && forall ext | IsExtension(ext) :: m(raw + ext) == |raw| && Stops(m, raw + ext)
  }

  lemma NameRoundTrip(m: Matcher, unpack: string -> string, file: string, raw: string)
    requires Bounded(m) && Extends(m) && Fits(m, raw) && FindMatch(m, file[..BaseLength(file)]) == None
    ensures SplitName(m, unpack, NameWith(file, raw)) == Some(Parts(file, unpack(raw)))
  {
    var base, ext := file[..BaseLength(file)], file[BaseLength(file)..];
    BaseParts(file);
    FindsAfterBase(m, base, raw + ext);
    SplitParts(m, unpack, base, raw, ext);
  }

  lemma PathRoundTrip(m: Matcher, unpack: string -> string, identifier: string, raw: string)
    requires Bounded(m) && Extends(m) && Fits(m, raw)
    requires var file := identifier[DirLength(identifier)..]; FindMatch(m, file[..BaseLength(file)]) == None
    ensures SplitPath(m, unpack, PathWith(identifier, raw)) == Some(Parts(identifier, unpack(raw)))
  {
    NameRoundTrip(m, unpack, identifier[DirLength(identifier)..], raw);
    PathOfName(m, unpack, identifier, raw);
  }

  lemma PathOfName(m: Matcher, unpack: string -> string, identifier: string, raw: string)
    requires Bounded(m) && '/' !in raw
    requires var file := identifier[DirLength(identifier)..];
      SplitName(m, unpack, NameWith(file, raw)) == Some(Parts(file, unpack(raw)))
    ensures SplitPath(m, unpack, PathWith(identifier, raw)) == Some(Parts(identifier, unpack(raw)))
  {
    var n := DirLength(identifier);
    var name := NameWith(identifier[n..], raw);
    NoSlashInName(identifier, raw);
    SameDirectory(identifier, name);
    InDirectory(m, unpack, identifier[..n], name, Parts(identifier[n..], unpack(raw)));
    Whole(identifier, n);
  }

  lemma NoSlashInName(identifier: string, raw: string)
    requires '/' !in raw
    ensures '/' !in NameWith(identifier[DirLength(identifier)..], raw)
  {
    DirParts(identifier);
  }

  lemma SameDirectory(identifier: string, name: string)
    requires '/' !in name
    ensures DirLength(identifier[..DirLength(identifier)] + name) == DirLength(identifier)
  {
    DirParts(identifier);
    DirLengthIs(identifier[..DirLength(identifier)], name);
  }

  lemma InDirectory(m: Matcher, unpack: string -> string, dir: string, name: string, parts: Parts)
    requires Bounded(m) && DirLength(dir + name) == |dir| && SplitName(m, unpack, name) == Some(parts)
    ensures SplitPath(m, unpack, dir + name) == Some(Parts(dir + parts.identifier, parts.version))
  {
    Halves(dir, name);
    SplitBelow(m, unpack, dir + name, name, parts);
  }

  lemma Whole(s: string, n: nat)
    requires n <= |s|
    ensures s[..n] + s[n..] == s
  {
  }

  lemma Halves(a: string, b: string)
    ensures (a + b)[..|a|] == a && (a + b)[|a|..] == b
  {
  }

  lemma SplitBelow(m: Matcher, unpack: string -> string, path: string, name: string, parts: Parts)
    requires Bounded(m) && path[DirLength(path)..] == name && SplitName(m, unpack, name) == Some(parts)
    ensures SplitPath(m, unpack, path) == Some(Parts(path[..DirLength(path)] + parts.identifier, parts.version))
  {
  }

  /** The other way round: a name whose leftmost match is right before its first dot, or at its end,
      is put together again from its parts. */
  lemma NameAgain(m: Matcher, unpack: string -> string, pack: string -> string, base: string, raw: string, ext: string)
    requires Bounded(m) && Extends(m) && m(raw) > 0 && m(raw + ext) == |raw| && pack(unpack(raw)) == raw
    requires '.' !in base && IsExtension(ext) && FindMatch(m, base + (raw + ext)) == Some(|base|)
    ensures var parts := SplitName(m, unpack, base + (raw + ext));
      parts.Some? && NameWith(parts.value.identifier, pack(parts.value.version)) == base + (raw + ext)
  {
    SplitParts(m, unpack, base, raw, ext);
    BaseLengthIs(base, ext);
    assert (base + ext)[..|base|] == base && (base + ext)[|base|..] == ext;
  }
}
