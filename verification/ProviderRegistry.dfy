/** Providers registered for keys, or for all keys with a prefix that ends in a slash. */
module ProviderRegistry {
  import opened Basics

  type Provider(==, !new)

  type Providers = map<string, Provider>

  predicate IsPrefixKey(key: string) {
    key != [] && key[|key| - 1] == '/'
  }

  /** The keys a registration is responsible for. */
  predicate Owns(registered: string, key: string) {
    registered == key || (IsPrefixKey(registered) && registered <= key)
  }

  /** Two registrations that cannot stand together. */
  predicate Conflict(a: string, b: string) {
    Owns(a, b) || Owns(b, a)
  }

  ghost predicate NoConflicts(providers: Providers) {
    forall a, b | a in providers && b in providers && a != b :: !Conflict(a, b)
  }

  /** A registration that ends in a slash owns everything below it, and any other only itself. */
  lemma OwnsExactly(registered: string, key: string)
    ensures Owns(registered, key) <==>
      registered == key || exists base, tail :: registered == base + "/" && key == base + "/" + tail
  {
    if registered != [] && registered[|registered| - 1] == '/' && registered <= key {
      var base, tail := registered[..|registered| - 1], key[|registered|..];
      assert registered == base + "/" && key == base + "/" + tail;
    }
  }

  // ----- the radix tree

  /** The longest key that is a prefix of the given one, of length n at most. */
  function LongestPrefix(providers: Providers, key: string, n: nat): (r: Option<string>)
    requires n <= |key|
    ensures r.Some? ==> r.value in providers && r.value <= key
    ensures forall k | k in providers && k <= key && |k| <= n :: r.Some? && |k| <= |r.value|
  {
    assert forall k | k in providers && k <= key && |k| == n :: k == key[..n];
    if key[..n] in providers then Some(key[..n])
    else if n == 0 then None
    else LongestPrefix(providers, key, n - 1)
  }

  lemma PrefixesAreComparable(a: string, b: string, key: string)
    requires a <= key && b <= key && |a| <= |b|
    ensures a <= b
  {
  }

  /** No key has two owners. */
  lemma OwnerIsUnique(providers: Providers, a: string, b: string, key: string)
    requires NoConflicts(providers) && a in providers && b in providers && Owns(a, key) && Owns(b, key)
    ensures a == b
  {
    if |a| <= |b| {
      PrefixesAreComparable(a, b, key);
    } else {
      PrefixesAreComparable(b, a, key);
    }
  }

  /** With no conflicts, an owner is the longest prefix, and a longest prefix that is no owner hides
      none. */
  lemma LongestPrefixDecides(providers: Providers, key: string, owner: string)
    requires NoConflicts(providers) && owner in providers && Owns(owner, key)
    ensures LongestPrefix(providers, key, |key|) == Some(owner)
  {
    var longest := LongestPrefix(providers, key, |key|).value;
    PrefixesAreComparable(owner, longest, key);
    assert Conflict(owner, longest);
  }

  class Registry {
    var providers: Providers

    ghost predicate Valid()
      reads this
    {
      NoConflicts(providers)
    }

    constructor ()
      ensures Valid() && providers == map[]
    {
      providers := map[];
    }

    /** A registration is accepted exactly if it conflicts with none. */
    method Register(keyOrPrefix: string, p: Provider) returns (ok: bool)
      requires Valid()
      modifies this
      ensures Valid()
      ensures ok <==> forall k | k in old(providers) :: !Conflict(k, keyOrPrefix)
      ensures providers == if ok then old(providers)[keyOrPrefix := p] else old(providers)
    {
      var key := LongestPrefix(providers, keyOrPrefix, |keyOrPrefix|);
      if key.Some? && (IsPrefixKey(key.value) || key.value == keyOrPrefix) {
        assert Conflict(key.value, keyOrPrefix);
        return false;
      }
      forall k | k in providers && Owns(k, keyOrPrefix) ensures false {
        LongestPrefixDecides(providers, keyOrPrefix, k);
      }
      if IsPrefixKey(keyOrPrefix) {
        var found := WalkPrefix(providers, keyOrPrefix);
        if found.Some? {
          assert Conflict(found.value, keyOrPrefix);
          return false;
        }
      }
      providers := providers[keyOrPrefix := p];
      return true;
    }

    /** The provider that owns the key, if any does. */
    method GetMatchingProvider(key: string) returns (r: Option<Provider>)
      requires Valid()
      ensures r.None? <==> forall k | k in providers :: !Owns(k, key)
      ensures forall k | k in providers && Owns(k, key) :: r == Some(providers[k])
    {
      var longest := LongestPrefix(providers, key, |key|);
      forall k | k in providers && Owns(k, key) ensures longest == Some(k) {
        LongestPrefixDecides(providers, key, k);
      }
      if longest.None? { return None; }
      if !IsPrefixKey(longest.value) && longest.value != key { return None; }
      return Some(providers[longest.value]);
    }
  }

  /** Any registered key that starts with the prefix. */
  method WalkPrefix(providers: Providers, prefix: string) returns (found: Option<string>)
    ensures found.Some? ==> found.value in providers && prefix <= found.value
    ensures found.None? ==> forall k | k in providers :: !(prefix <= k)
  {
    var todo := providers.Keys;
    while todo != {}
      invariant todo <= providers.Keys
      invariant forall k | k in providers && k !in todo :: !(prefix <= k)
    {
      var k :| k in todo;
      if prefix <= k { return Some(k); }
      todo := todo - {k};
    }
    return None;
  }
}
