/** Hierarchical configurations and their flattened form. */
module ConfigTree {
  import opened Basics
  import opened Splitting

  type Value(==, !new)

  datatype Tree = Leaf(value: Value) | Section(entries: map<string, Tree>)

  type Path = seq<string>

  type FlatConfig = map<string, Value>

  const SLASH: char := '/'

  function PathOf(key: string): Path {
    SplitOn(key, SLASH)
  }

  predicate CleanSegment(s: string) {
    s != [] && SLASH !in s && s != "." && s != ".."
  }

  /** path.Join on elements that are clean. */
  function Join(sub: string, key: string): string {
    if sub == [] then key else sub + [SLASH] + key
  }

  predicate CleanTree(t: Tree) {
    t.Leaf? || forall k | k in t.entries :: CleanSegment(k) && CleanTree(t.entries[k])
  }

  predicate CleanPath(p: Path) {
    forall i | 0 <= i < |p| :: CleanSegment(p[i])
  }

  /** The value at a path. */
  function Lookup(t: Tree, p: Path): Option<Value>
    decreases |p|
  {
    if p == [] then (if t.Leaf? then Some(t.value) else None)
    else if t.Leaf? || p[0] !in t.entries then None
    else Lookup(t.entries[p[0]], p[1..])
  }

  // ----- keys and paths

  /** The key of the section a path leads to; the root has the empty key. */
  predicate Leads(sub: string, prefix: Path) {
    if prefix == [] then sub == [] else sub != [] && PathOf(sub) == prefix
  }

  lemma JoinLeads(sub: string, prefix: Path, k: string)
    requires Leads(sub, prefix) && CleanSegment(k)
    ensures Leads(Join(sub, k), prefix + [k])
  {
    if prefix == [] {
      SplitFirst(k, SLASH, []);
    } else {
      SplitSnoc(sub, SLASH, k);
    }
  }

  lemma OnlyKeyOf(key: string, other: string, p: Path)
    requires Leads(key, p) && PathOf(other) == p
    ensures key == other
  {
    if p != [] { SplitIsInjective(key, other, SLASH); }
  }

  predicate Below(prefix: Path, p: Path) {
    |prefix| <= |p| && p[..|prefix|] == prefix
  }

  lemma BelowNext(prefix: Path, k: string, p: Path)
    ensures Below(prefix + [k], p) <==> Below(prefix, p) && |p| > |prefix| && p[|prefix|] == k
    ensures Below(prefix + [k], p) ==> p[|prefix|..][1..] == p[|prefix| + 1..] && p[|prefix|..][0] == k
  {
    if Below(prefix + [k], p) {
      assert p[..|prefix|] == p[..|prefix| + 1][..|prefix|] == prefix;
      assert p[..|prefix| + 1][|prefix|] == k;
    }
    if Below(prefix, p) && |p| > |prefix| && p[|prefix|] == k {
      assert p[..|prefix| + 1] == p[..|prefix|] + [p[|prefix|]];
    }
  }

  // ----- flattening

  /** What a flat configuration holds for a key once the entries in done of the section at prefix
      are merged into root. */
  function Merged(root: FlatConfig, t: Tree, prefix: Path, done: set<string>, key: string): Option<Value>
    requires t.Section?
  {
    var p := PathOf(key);
    if Below(prefix, p) && |p| > |prefix| && p[|prefix|] in done && Lookup(t, p[|prefix|..]).Some?
    then Lookup(t, p[|prefix|..])
    else Held(root, key)
  }

  function Held(flat: FlatConfig, key: string): Option<Value> {
    if key in flat then Some(flat[key]) else None
  }

  lemma MergeLeaf(root: FlatConfig, flat: FlatConfig, t: Tree, sub: string, prefix: Path, done: set<string>, k: string, key: string)
    requires t.Section? && k in t.entries && t.entries[k].Leaf? && CleanSegment(k) && Leads(sub, prefix) && k !in done
    requires Held(flat, key) == Merged(root, t, prefix, done, key)
    ensures Held(flat[Join(sub, k) := t.entries[k].value], key) == Merged(root, t, prefix, done + {k}, key)
  {
    var p := PathOf(key);
    JoinLeads(sub, prefix, k);
    BelowNext(prefix, k, p);
    if p == prefix + [k] {
      OnlyKeyOf(Join(sub, k), key, p);
      assert Below(prefix + [k], p);
      assert Lookup(t, p[|prefix|..]) == Some(t.entries[k].value);
    } else {
      assert PathOf(Join(sub, k)) == prefix + [k];
      if Below(prefix, p) && |p| > |prefix| && p[|prefix|] == k {
        assert |p| > |prefix| + 1;
        assert Lookup(t, p[|prefix|..]).None?;
      }
    }
  }

  lemma MergeSection(root: FlatConfig, flat: FlatConfig, flat': FlatConfig, t: Tree, prefix: Path, done: set<string>, k: string, key: string)
    requires t.Section? && k in t.entries && t.entries[k].Section? && k !in done
    requires Held(flat, key) == Merged(root, t, prefix, done, key)
    requires Held(flat', key) == Merged(flat, t.entries[k], prefix + [k], t.entries[k].entries.Keys, key)
    ensures Held(flat', key) == Merged(root, t, prefix, done + {k}, key)
  {
    var p := PathOf(key);
    BelowNext(prefix, k, p);
    if Below(prefix + [k], p) {
      assert Lookup(t, p[|prefix|..]) == Lookup(t.entries[k], p[|prefix| + 1..]);
    }
  }

  /** flattenMap, ranging over the entries in any order. */
  method FlattenMap(root: FlatConfig, t: Tree, sub: string, ghost prefix: Path) returns (flat: FlatConfig)
    requires t.Section? && CleanTree(t) && Leads(sub, prefix)
    ensures forall key :: Held(flat, key) == Merged(root, t, prefix, t.entries.Keys, key)
    decreases t
  {
    flat := root;
    var todo := t.entries.Keys;
    while todo != {}
      invariant todo <= t.entries.Keys
      invariant forall key :: Held(flat, key) == Merged(root, t, prefix, t.entries.Keys - todo, key)
    {
      var k :| k in todo;
      ghost var before, done := flat, t.entries.Keys - todo;
      var subbedKey := Join(sub, k);
      if t.entries[k].Section? {
        JoinLeads(sub, prefix, k);
        flat := FlattenMap(flat, t.entries[k], subbedKey, prefix + [k]);
        forall key ensures Held(flat, key) == Merged(root, t, prefix, done + {k}, key) {
          MergeSection(root, before, flat, t, prefix, done, k, key);
        }
      } else {
        flat := flat[subbedKey := t.entries[k].value];
        forall key ensures Held(flat, key) == Merged(root, t, prefix, done + {k}, key) {
          MergeLeaf(root, before, t, sub, prefix, done, k, key);
        }
      }
      todo := todo - {k};
      assert t.entries.Keys - todo == done + {k};
    }
    assert t.entries.Keys - todo == t.entries.Keys;
  }

  /** The flat configuration holds for every key what the tree holds at its path. */
  ghost predicate Flattens(flat: FlatConfig, t: Tree) {
    forall key :: Held(flat, key) == Lookup(t, PathOf(key))
  }

  method Flatten(t: Tree) returns (flat: FlatConfig)
    requires t.Section? && CleanTree(t)
    ensures Flattens(flat, t)
  {
    flat := FlattenMap(map[], t, [], []);
    forall key ensures Held(flat, key) == Lookup(t, PathOf(key)) {
      var p := PathOf(key);
      assert p[0..] == p && p[..0] == [];
      assert Held(flat, key) == Merged(map[], t, [], t.entries.Keys, key);
    }
  }

  // ----- expanding

  /** PutValueIntoHierarchicalConfig: sections are created along the path; what is in the way is
      replaced. */
  function Put(t: Tree, p: Path, value: Value): Tree
    requires p != []
    decreases |p|
  {
    var entries := if t.Section? then t.entries else map[];
    if |p| == 1 then Section(entries[p[0] := Leaf(value)])
    else
      var next := if p[0] in entries then entries[p[0]] else Section(map[]);
      Section(entries[p[0] := Put(next, p[1..], value)])
  }

  predicate Related(p: Path, q: Path) {
    Below(p, q) || Below(q, p)
  }

  lemma RelatedTails(p: Path, q: Path)
    requires p != [] && q != []
    ensures Related(p, q) <==> p[0] == q[0] && Related(p[1..], q[1..])
    ensures p == q <==> p[0] == q[0] && p[1..] == q[1..]
  {
    BelowTails(p, q);
    BelowTails(q, p);
  }

  lemma BelowTails(p: Path, q: Path)
    requires p != [] && q != []
    ensures Below(p, q) <==> p[0] == q[0] && Below(p[1..], q[1..])
    ensures p == q <==> p[0] == q[0] && p[1..] == q[1..]
  {
    assert p == [p[0]] + p[1..] && q == [q[0]] + q[1..];
    if |p| <= |q| {
      assert q[..|p|] == [q[0]] + q[1..][..|p| - 1];
    }
  }

  /** Putting a value changes the value at its path, and removes those above and below it. */
  lemma {:induction false} PutLookup(t: Tree, p: Path, value: Value, q: Path)
    requires p != []
    ensures Lookup(Put(t, p, value), q)
         == if q == p then Some(value) else if Related(p, q) then None else Lookup(t, q)
    decreases |p|
  {
    if q != [] {
      RelatedTails(p, q);
      var entries := if t.Section? then t.entries else map[];
      if q[0] == p[0] {
        if |p| > 1 {
          var next := if p[0] in entries then entries[p[0]] else Section(map[]);
          PutLookup(next, p[1..], value, q[1..]);
          if p[0] !in entries { NothingBelowNothing(q[1..]); }
        } else {
          assert p[1..] == [];
        }
      } else {
        assert !Related(p, q);
      }
    }
  }

  lemma NothingBelowNothing(q: Path)
    ensures Lookup(Section(map[]), q) == None
  {
  }

  lemma {:induction false} PutStaysClean(t: Tree, p: Path, value: Value)
    requires p != [] && CleanPath(p) && (t.Section? ==> CleanTree(t))
    ensures CleanTree(Put(t, p, value))
    decreases |p|
  {
    if |p| > 1 {
      var entries := if t.Section? then t.entries else map[];
      var next := if p[0] in entries then entries[p[0]] else Section(map[]);
      PutStaysClean(next, p[1..], value);
    }
  }

  /** No value lies above another. */
  lemma {:induction false} ValuesAreUnrelated(t: Tree, p: Path, q: Path)
    requires Lookup(t, p).Some? && Lookup(t, q).Some? && Related(p, q)
    ensures p == q
    decreases |p|
  {
    if p != [] && q != [] {
      RelatedTails(p, q);
      ValuesAreUnrelated(t.entries[p[0]], p[1..], q[1..]);
    }
  }

  /** No key is a path prefix of another. */
  ghost predicate PrefixFree(flat: FlatConfig) {
    forall a, b | a in flat && b in flat && a != b :: !Related(PathOf(a), PathOf(b))
  }

  ghost predicate CleanKeys(flat: FlatConfig) {
    forall key | key in flat :: CleanPath(PathOf(key))
  }

  /** Expand, ranging over the entries in any order. */
  method Expand(flat: FlatConfig) returns (t: Tree)
    ensures t.Section? && (CleanKeys(flat) ==> CleanTree(t))
    ensures forall key | key !in flat :: Lookup(t, PathOf(key)).None?
    ensures PrefixFree(flat) ==> Flattens(flat, t)
  {
    t := Section(map[]);
    var todo := flat.Keys;
    while todo != {}
      invariant todo <= flat.Keys && t.Section? && (CleanKeys(flat) ==> CleanTree(t))
      invariant forall key | key !in flat || key in todo :: Lookup(t, PathOf(key)).None?
      invariant PrefixFree(flat) ==> forall key | key in flat && key !in todo :: Lookup(t, PathOf(key)) == Some(flat[key])
    {
      var k :| k in todo;
      ghost var before := t;
      t := Put(t, PathOf(k), flat[k]);
      if CleanKeys(flat) { PutStaysClean(before, PathOf(k), flat[k]); }
      forall key ensures Lookup(t, PathOf(key))
        == if key == k then Some(flat[k]) else if Related(PathOf(k), PathOf(key)) then None else Lookup(before, PathOf(key))
      {
        PutLookup(before, PathOf(k), flat[k], PathOf(key));
        if PathOf(key) == PathOf(k) { SplitIsInjective(key, k, SLASH); }
      }
      todo := todo - {k};
    }
  }

  /** Flattening an expanded configuration gives it back, whatever the orders, exactly if no key is
      a path prefix of another. */
  method FlattenExpanded(flat: FlatConfig) returns (again: FlatConfig)
    requires CleanKeys(flat)
    ensures again == flat <==> PrefixFree(flat)
  {
    var t := Expand(flat);
    again := Flatten(t);
    if PrefixFree(flat) {
      SameFlat(again, flat, t);
    } else {
      var a, b :| a in flat && b in flat && a != b && Related(PathOf(a), PathOf(b));
      if again == flat {
        assert Held(again, a).Some? && Held(again, b).Some?;
        ValuesAreUnrelated(t, PathOf(a), PathOf(b));
        SplitIsInjective(a, b, SLASH);
      }
    }
  }

  /** A value under a section of the same name is lost, or the section is. */
  method PrefixIsLost(v: Value, w: Value) returns (flat: FlatConfig, again: FlatConfig)
    ensures flat == map["a" := v, "a/b" := w] && again != flat
  {
    var a, b := "a", "a/b";
    flat := map[a := v, b := w];
    PathsOfExample(a, b);
    again := FlattenExpanded(flat);
  }

  lemma PathsOfExample(a: string, b: string)
    requires a == "a" && b == "a/b"
    ensures a != b && CleanPath(PathOf(a)) && CleanPath(PathOf(b)) && Related(PathOf(a), PathOf(b))
  {
    SplitFirst("a", SLASH, "b");
    SplitFirst("b", SLASH, []);
    assert b == "a" + [SLASH] + "b";
    assert PathOf(a) == ["a"] && PathOf(b) == ["a", "b"];
    assert PathOf(b)[..1] == PathOf(a);
  }

  lemma SameFlat(a: FlatConfig, b: FlatConfig, t: Tree)
    requires Flattens(a, t) && Flattens(b, t)
    ensures a == b
  {
    forall key ensures Held(a, key) == Held(b, key) {
      assert Held(a, key) == Lookup(t, PathOf(key));
      assert Held(b, key) == Lookup(t, PathOf(key));
    }
    SameHeld(a, b);
  }

  lemma SameHeld(a: FlatConfig, b: FlatConfig)
    requires forall key :: Held(a, key) == Held(b, key)
    ensures a == b
  {
    forall key ensures key in a <==> key in b {
      assert Held(a, key) == Held(b, key);
    }
    forall key | key in a ensures a[key] == b[key] {
      assert Held(a, key) == Held(b, key);
    }
  }

  // ----- cleaning

  /** CleanFlattenedConfig */
  method CleanFlattened(flat: FlatConfig, options: set<string>) returns (cleaned: FlatConfig)
    ensures forall key :: Held(cleaned, key) == if key in options then Held(flat, key) else None
  {
    cleaned := flat;
    var todo := flat.Keys;
    while todo != {}
      invariant todo <= flat.Keys
      invariant forall key :: Held(cleaned, key) == if key in options || key in todo then Held(flat, key) else None
    {
      var key :| key in todo;
      if key !in options { cleaned := cleaned - {key}; }
      todo := todo - {key};
    }
  }

  /** Sections have clean names; names of values may contain slashes. */
  predicate CleanSections(t: Tree) {
    t.Leaf? || forall k | k in t.entries ::
      (CleanSegment(k) || (t.entries[k].Leaf? && SLASH in k)) && CleanSections(t.entries[k])
  }

  /** No section below is empty. */
  predicate Pruned(t: Tree) {
    t.Leaf? || forall k | k in t.entries :: t.entries[k] != Section(map[]) && Pruned(t.entries[k])
  }

  predicate Inside(prefix: Path, p: Path) {
    Below(prefix, p) && |p| > |prefix|
  }

  /** The cleaned section at prefix keeps of the entries in done what is an option, and all others. */
  predicate Cleans(c: Tree, t: Tree, prefix: Path, done: set<string>, options: set<string>, key: string)
    requires c.Section? && t.Section?
  {
    var p := PathOf(key);
    Inside(prefix, p) ==>
      var rest := p[|prefix|..];
      Lookup(c, rest) == if rest[0] !in done || key in options then Lookup(t, rest) else None
  }

  ghost predicate SameExcept(a: map<string, Tree>, b: map<string, Tree>, k: string) {
    forall j | j != k :: (j in a <==> j in b) && (j in a ==> a[j] == b[j])
  }

  lemma CleanLeaf(c: Tree, c': Tree, t: Tree, sub: string, prefix: Path, done: set<string>, options: set<string>, k: string, key: string)
    requires c.Section? && c'.Section? && t.Section? && Leads(sub, prefix) && k !in done
    requires k in t.entries && t.entries[k].Leaf? && (CleanSegment(k) || SLASH in k)
    requires Cleans(c, t, prefix, done, options, key) && SameExcept(c'.entries, c.entries, k)
    requires k in c'.entries <==> SLASH !in k && Join(sub, k) in options
    requires k in c'.entries ==> c'.entries[k] == t.entries[k]
    ensures Cleans(c', t, prefix, done + {k}, options, key)
  {
    var p := PathOf(key);
    if Inside(prefix, p) && p[|prefix|..][0] == k {
      PartsLackSeparator(key, SLASH);
      assert SLASH !in p[|prefix|];
      if |p| == |prefix| + 1 {
        JoinLeads(sub, prefix, k);
        assert p == p[..|prefix|] + [k];
        OnlyKeyOf(Join(sub, k), key, p);
      }
    }
  }

  lemma CleanSection(c: Tree, c': Tree, t: Tree, x: Tree, prefix: Path, done: set<string>, options: set<string>, k: string, key: string)
    requires c.Section? && c'.Section? && t.Section? && k !in done
    requires k in t.entries && t.entries[k].Section? && x.Section?
    requires Cleans(c, t, prefix, done, options, key) && SameExcept(c'.entries, c.entries, k)
    requires Cleans(x, t.entries[k], prefix + [k], t.entries[k].entries.Keys, options, key)
    requires if k in c'.entries then c'.entries[k] == x else x.entries == map[]
    ensures Cleans(c', t, prefix, done + {k}, options, key)
  {
    var p := PathOf(key);
    BelowNext(prefix, k, p);
    if Inside(prefix, p) && p[|prefix|] == k {
      var rest := p[|prefix|..];
      if |p| > |prefix| + 1 {
        assert p[|prefix| + 1..] == rest[1..];
        assert Inside(prefix + [k], p);
        if rest[1..][0] !in t.entries[k].entries { assert Lookup(t.entries[k], rest[1..]) == None; }
      } else {
        assert rest[1..] == [];
      }
    }
  }

  ghost predicate CleansAll(c: Tree, t: Tree, prefix: Path, done: set<string>, options: set<string>) {
    c.Section? && t.Section? && forall key :: Cleans(c, t, prefix, done, options, key)
  }

  lemma CleanedLeaf(c: Tree, c': Tree, t: Tree, sub: string, prefix: Path, done: set<string>, options: set<string>, k: string)
    requires CleansAll(c, t, prefix, done, options) && c'.Section? && Leads(sub, prefix) && k !in done
    requires k in t.entries && t.entries[k].Leaf? && CleanSections(t) && SameExcept(c'.entries, c.entries, k)
    requires k in c'.entries <==> SLASH !in k && Join(sub, k) in options
    requires k in c'.entries ==> c'.entries[k] == t.entries[k]
    ensures CleansAll(c', t, prefix, done + {k}, options)
  {
    forall key ensures Cleans(c', t, prefix, done + {k}, options, key) {
      CleanLeaf(c, c', t, sub, prefix, done, options, k, key);
    }
  }

  lemma CleanedSection(c: Tree, c': Tree, t: Tree, x: Tree, prefix: Path, done: set<string>, options: set<string>, k: string)
    requires CleansAll(c, t, prefix, done, options) && c'.Section? && k !in done
    requires k in t.entries && t.entries[k].Section? && SameExcept(c'.entries, c.entries, k)
    requires CleansAll(x, t.entries[k], prefix + [k], t.entries[k].entries.Keys, options)
    requires if k in c'.entries then c'.entries[k] == x else x.entries == map[]
    ensures CleansAll(c', t, prefix, done + {k}, options)
  {
    forall key ensures Cleans(c', t, prefix, done + {k}, options, key) {
      CleanSection(c, c', t, x, prefix, done, options, k, key);
    }
  }

  predicate CleanedEntry(k: string, x: Tree) {
    CleanSegment(k) && CleanTree(x) && Pruned(x) && x != Section(map[])
  }

  /** Entries still to do are untouched; of the others the valid ones are left, cleaned. */
  ghost predicate Tidy(c: Tree, t: Tree, todo: set<string>, valid: set<string>) {
    && c.Section? && t.Section? && todo <= t.entries.Keys && todo !! valid
    && c.entries.Keys == todo + valid
    && (forall k | k in todo :: c.entries[k] == t.entries[k])
    && (forall k | k in valid :: CleanedEntry(k, c.entries[k]))
  }

  lemma TidyDrop(c: Tree, t: Tree, todo: set<string>, valid: set<string>, k: string)
    requires Tidy(c, t, todo, valid) && k in todo
    ensures Tidy(Section(c.entries - {k}), t, todo - {k}, valid) && SameExcept(c.entries - {k}, c.entries, k)
  {
  }

  lemma TidyKeep(c: Tree, t: Tree, todo: set<string>, valid: set<string>, k: string, x: Tree)
    requires Tidy(c, t, todo, valid) && k in todo && CleanedEntry(k, x)
    ensures Tidy(Section(c.entries[k := x]), t, todo - {k}, valid + {k}) && SameExcept(c.entries[k := x], c.entries, k)
    ensures |valid + {k}| == |valid| + 1
  {
  }

  lemma TidyEnd(c: Tree, t: Tree, valid: set<string>)
    requires Tidy(c, t, {}, valid)
    ensures CleanTree(c) && Pruned(c) && (c.entries == map[] <==> |valid| == 0)
  {
    assert c.entries.Keys == valid;
    forall k | k in c.entries ensures CleanedEntry(k, c.entries[k]) { assert k in valid; }
    if |valid| == 0 { assert valid == {}; }
  }

  ghost predicate Partly(c: Tree, t: Tree, prefix: Path, options: set<string>, todo: set<string>, valid: set<string>) {
    Tidy(c, t, todo, valid) && CleansAll(c, t, prefix, t.entries.Keys - todo, options)
  }

  lemma RemoveOne(all: set<string>, todo: set<string>, k: string)
    requires todo <= all && k in todo
    ensures all - (todo - {k}) == all - todo + {k} && k !in all - todo
  {
  }

  /** An entry that is a value. */
  method CleanValue(c: Tree, t: Tree, sub: string, options: set<string>, k: string,
                    ghost prefix: Path, ghost todo: set<string>, ghost valid: set<string>) returns (c': Tree, isValid: bool)
    requires Partly(c, t, prefix, options, todo, valid) && CleanSections(t) && Leads(sub, prefix)
    requires k in todo && t.entries[k].Leaf?
    ensures Partly(c', t, prefix, options, todo - {k}, if isValid then valid + {k} else valid)
    ensures isValid ==> |valid + {k}| == |valid| + 1
  {
    isValid := SLASH !in k && Join(sub, k) in options;
    RemoveOne(t.entries.Keys, todo, k);
    if isValid {
      TidyKeep(c, t, todo, valid, k, t.entries[k]);
      c' := Section(c.entries[k := t.entries[k]]);
    } else {
      TidyDrop(c, t, todo, valid, k);
      c' := Section(c.entries - {k});
    }
    CleanedLeaf(c, c', t, sub, prefix, t.entries.Keys - todo, options, k);
  }

  /** An entry that is a section, which has been cleaned to x. */
  method CleanNested(c: Tree, t: Tree, x: Tree, options: set<string>, k: string,
                     ghost prefix: Path, ghost todo: set<string>, ghost valid: set<string>) returns (c': Tree)
    requires Partly(c, t, prefix, options, todo, valid) && k in todo && t.entries[k].Section? && CleanSegment(k)
    requires CleansAll(x, t.entries[k], prefix + [k], t.entries[k].entries.Keys, options) && CleanTree(x) && Pruned(x)
    ensures Partly(c', t, prefix, options, todo - {k}, if x.entries == map[] then valid else valid + {k})
    ensures x.entries != map[] ==> |valid + {k}| == |valid| + 1
  {
    RemoveOne(t.entries.Keys, todo, k);
    if x.entries == map[] {
      TidyDrop(c, t, todo, valid, k);
      c' := Section(c.entries - {k});
    } else {
      TidyKeep(c, t, todo, valid, k, x);
      c' := Section(c.entries[k := x]);
    }
    CleanedSection(c, c', t, x, prefix, t.entries.Keys - todo, options, k);
  }

  lemma CleanStart(t: Tree, prefix: Path, options: set<string>)
    requires t.Section?
    ensures Partly(t, t, prefix, options, t.entries.Keys, {})
  {
  }

  lemma CleanEnd(c: Tree, t: Tree, prefix: Path, options: set<string>, valid: set<string>)
    requires Partly(c, t, prefix, options, {}, valid)
    ensures c.Section? && CleanTree(c) && Pruned(c) && (c.entries == map[] <==> |valid| == 0)
    ensures CleansAll(c, t, prefix, t.entries.Keys, options)
  {
    TidyEnd(c, t, valid);
    assert t.entries.Keys - {} == t.entries.Keys;
  }

  /** cleanSubMap, ranging over the entries in any order. */
  method CleanSubMap(t: Tree, sub: string, options: set<string>, ghost prefix: Path) returns (c: Tree, empty: bool)
    requires t.Section? && CleanSections(t) && Leads(sub, prefix)
    ensures c.Section? && CleanTree(c) && Pruned(c) && (empty <==> c.entries == map[])
    ensures CleansAll(c, t, prefix, t.entries.Keys, options)
    decreases t
  {
    c := t;
    var foundValid, todo := 0, t.entries.Keys;
    ghost var valid: set<string> := {};
    CleanStart(t, prefix, options);
    while todo != {}
      invariant Partly(c, t, prefix, options, todo, valid) && |valid| == foundValid
    {
      var k := Pick(todo);
      if t.entries[k].Section? {
        JoinLeads(sub, prefix, k);
        var x, isEmpty := CleanSubMap(t.entries[k], Join(sub, k), options, prefix + [k]);
        c := CleanNested(c, t, x, options, k, prefix, todo, valid);
        if !isEmpty { foundValid, valid := foundValid + 1, valid + {k}; }
      } else {
        var isValid;
        c, isValid := CleanValue(c, t, sub, options, k, prefix, todo, valid);
        if isValid { foundValid, valid := foundValid + 1, valid + {k}; }
      }
      todo := todo - {k};
    }
    CleanEnd(c, t, prefix, options, valid);
    empty := foundValid == 0;
  }

  /** CleanHierarchicalConfig: what is left are exactly the values of existing options. */
  method CleanHierarchical(t: Tree, options: set<string>) returns (c: Tree)
    requires t.Section? && CleanSections(t)
    ensures c.Section? && CleanTree(c) && Pruned(c)
    ensures forall key :: Lookup(c, PathOf(key)) == if key in options then Lookup(t, PathOf(key)) else None
  {
    var empty;
    c, empty := CleanSubMap(t, [], options, []);
    forall key ensures Lookup(c, PathOf(key)) == if key in options then Lookup(t, PathOf(key)) else None {
      var p := PathOf(key);
      assert p[0..] == p && p[..0] == [];
      assert Cleans(c, t, [], t.entries.Keys, options, key);
    }
  }

  lemma CleanIsCleanSections(t: Tree)
    requires CleanTree(t)
    ensures CleanSections(t)
  {
  }

  /** Cleaning then flattening is flattening then cleaning. */
  method CleanBothWays(t: Tree, options: set<string>) returns (a: FlatConfig, b: FlatConfig)
    requires t.Section? && CleanTree(t)
    ensures a == b && forall key :: Held(a, key) == if key in options then Lookup(t, PathOf(key)) else None
  {
    CleanIsCleanSections(t);
    var c := CleanHierarchical(t, options);
    a := Flatten(c);
    b := Flatten(t);
    ghost var flat := b;
    b := CleanFlattened(b, options);
    forall key ensures Held(a, key) == Held(b, key) == if key in options then Lookup(t, PathOf(key)) else None {
      assert Held(a, key) == Lookup(c, PathOf(key));
      assert Held(flat, key) == Lookup(t, PathOf(key));
    }
    SameHeld(a, b);
  }
}
