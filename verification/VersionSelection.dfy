/** Versions of a resource: adding, blacklisting, selecting and purging them. Versions are ordered by
    precedence (section 11 of Semantic Versioning 2.0.0), of which only the order matters. */
module VersionSelection {
  import opened Basics

  /** A parsed version: its normalised number, its precedence and whether it has a pre-release tag. */
  datatype SemVer = SemVer(number: string, precedence: real, tagged: bool)

  /** The precedence of the development version 0.0.0. */
  const DEV: real := 0.0

  class ResourceVersion {
    const semVer: SemVer
    var available: bool
    var currentRelease: bool
    var preRelease: bool
    var blacklisted: bool

    constructor (semVer: SemVer)
      ensures this.semVer == semVer && Unmarked()
    {
      this.semVer := semVer;
      available, currentRelease, preRelease, blacklisted := false, false, false, false;
    }

    predicate Unmarked()
      reads this
    {
      !available && !currentRelease && !preRelease && !blacklisted
    }

    /** Flags are only ever added. */
    method Mark(isAvailable: bool, isCurrent: bool, isPreRelease: bool)
      modifies this
      ensures available == (old(available) || isAvailable) && currentRelease == (old(currentRelease) || isCurrent)
      ensures preRelease == (old(preRelease) || isPreRelease || semVer.tagged) && blacklisted == old(blacklisted)
    {
      if isAvailable { available := true; }
      if isCurrent { currentRelease := true; }
      if isPreRelease || semVer.tagged { preRelease := true; }
    }
  }

  type Versions = seq<ResourceVersion>

  // ----- sorting, the newest first

  predicate Sorted(vs: Versions) {
    forall i, j | 0 <= i < j < |vs| :: vs[i].semVer.precedence >= vs[j].semVer.precedence
  }

  predicate Distinct(vs: Versions) {
    forall i, j | 0 <= i < j < |vs| :: vs[i] != vs[j]
  }

  function Insert(v: ResourceVersion, vs: Versions): Versions {
    if vs == [] || v.semVer.precedence >= vs[0].semVer.precedence then [v] + vs else [vs[0]] + Insert(v, vs[1..])
  }

  /** sort.Sort leaves the order of versions with equal precedence open; so do the properties. */
  function Sort(vs: Versions): Versions {
    if vs == [] then [] else Insert(vs[0], Sort(vs[1..]))
  }

  lemma SortedCons(v: ResourceVersion, vs: Versions)
    requires Sorted(vs) && (vs == [] || v.semVer.precedence >= vs[0].semVer.precedence)
    ensures Sorted([v] + vs)
  {
  }

  lemma {:induction false} InsertSorts(v: ResourceVersion, vs: Versions)
    requires Sorted(vs)
    ensures Sorted(Insert(v, vs)) && Insert(v, vs) != []
    ensures Insert(v, vs)[0] == v || (vs != [] && Insert(v, vs)[0] == vs[0])
  {
    if vs == [] || v.semVer.precedence >= vs[0].semVer.precedence {
      SortedCons(v, vs);
    } else {
      InsertSorts(v, vs[1..]);
      SortedCons(vs[0], Insert(v, vs[1..]));
    }
  }

  lemma {:induction false} InsertPermutes(v: ResourceVersion, vs: Versions)
    ensures multiset(Insert(v, vs)) == multiset(vs) + multiset{v} && |Insert(v, vs)| == |vs| + 1
  {
    if vs != [] && v.semVer.precedence < vs[0].semVer.precedence {
      InsertPermutes(v, vs[1..]);
      assert vs == [vs[0]] + vs[1..];
    }
  }

  lemma {:induction false} SortSorts(vs: Versions)
    ensures Sorted(Sort(vs)) && multiset(Sort(vs)) == multiset(vs) && |Sort(vs)| == |vs|
    decreases |vs|
  {
    if vs != [] {
      SortSorts(vs[1..]);
      InsertSorts(vs[0], Sort(vs[1..]));
      InsertPermutes(vs[0], Sort(vs[1..]));
      assert vs == [vs[0]] + vs[1..];
    }
  }

  lemma SameMembers(a: Versions, b: Versions, v: ResourceVersion)
    requires multiset(a) == multiset(b)
    ensures v in a <==> v in b
  {
    assert v in a <==> v in multiset(a);
    assert v in b <==> v in multiset(b);
  }

  lemma {:induction false} DistinctIsOnce(vs: Versions)
    ensures Distinct(vs) <==> forall v | v in vs :: multiset(vs)[v] == 1
  {
    if vs != [] {
      var rest := vs[1..];
      assert vs == [vs[0]] + rest;
      DistinctIsOnce(rest);
      assert forall v :: multiset(vs)[v] == multiset(rest)[v] + if v == vs[0] then 1 else 0;
      assert forall v :: v in rest <==> v in multiset(rest);
      assert Distinct(vs) <==> Distinct(rest) && vs[0] !in rest;
    }
  }

  lemma AppendDistinct(vs: Versions, v: ResourceVersion)
    requires Distinct(vs) && v !in vs
    ensures Distinct(vs + [v])
  {
  }

  // ----- the priority order

  datatype Settings = Settings(devMode: bool, usePreReleases: bool, online: bool, autoDownload: Option<bool>)

  /** Not blacklisted, and there or to be had. */
  predicate Selectable(v: ResourceVersion, s: Settings)
    reads v
  {
    !v.blacklisted && (v.available || (s.online && s.autoDownload == Some(true)))
  }

  predicate NotOlder(v: ResourceVersion, w: ResourceVersion) {
    v.semVer.precedence >= w.semVer.precedence
  }

  /** The lowest version, if it is the development version and there. */
  predicate DevChoice(vs: Versions, s: Settings)
    reads vs
  {
    s.devMode && vs != [] && vs[|vs| - 1].semVer.precedence == DEV && vs[|vs| - 1].available
  }

  /** Selectable, and stable if asked for. */
  predicate Fit(v: ResourceVersion, s: Settings, stable: bool)
    reads v
  {
    Selectable(v, s) && (stable ==> !v.preRelease)
  }

  predicate NoneFit(vs: Versions, s: Settings, stable: bool)
    reads vs
  {
    forall w | w in vs :: !Fit(w, s, stable)
  }

  predicate NewestFit(v: ResourceVersion, vs: Versions, s: Settings, stable: bool)
    reads v, vs
  {
    Fit(v, s, stable) && forall w | w in vs && Fit(w, s, stable) :: NotOlder(v, w)
  }

  /** The first fit one in the list. */
  predicate FirstFit(v: ResourceVersion, vs: Versions, s: Settings, stable: bool)
    reads v, vs
  {
    exists i | 0 <= i < |vs| :: vs[i] == v && Fit(v, s, stable) && forall j | 0 <= j < i :: !Fit(vs[j], s, stable)
  }

  predicate CurrentChoice(v: ResourceVersion, s: Settings)
    reads v
  {
    v.currentRelease && Selectable(v, s)
  }

  predicate NoCurrentChoice(vs: Versions, s: Settings)
    reads vs
  {
    forall w | w in vs :: !CurrentChoice(w, s)
  }

  /** What may be selected, in order of priority. */
  predicate Chosen(v: ResourceVersion, vs: Versions, s: Settings)
    reads v, vs
  {
    v in vs
    && if DevChoice(vs, s) then v == vs[|vs| - 1]
       else if !NoCurrentChoice(vs, s) then CurrentChoice(v, s)
       else if s.usePreReleases && !NoneFit(vs, s, false) then NewestFit(v, vs, s, false) && FirstFit(v, vs, s, false)
       else if !NoneFit(vs, s, true) then NewestFit(v, vs, s, true) && FirstFit(v, vs, s, true)
       else v == vs[0] && forall w | w in vs :: NotOlder(v, w)
  }

  /** Stable, there, and not known to be broken. */
  predicate Ready(v: ResourceVersion)
    reads v
  {
    v.available && !v.preRelease && !v.blacklisted
  }

  /** What a selection owes to its users, whatever the priorities: if some version is ready, the one
      selected is not blacklisted and is there or may be downloaded; and unless it is the current
      release, it is stable if it has to be and no older than any that is ready. */
  predicate Serves(v: ResourceVersion, vs: Versions, s: Settings)
    reads v, vs
  {
    !s.devMode && (exists w | w in vs :: Ready(w)) ==>
      && !v.blacklisted && (v.available || (s.online && s.autoDownload == Some(true)))
      && (v.currentRelease || s.usePreReleases || !v.preRelease)
      && (v.currentRelease || forall w | w in vs && Ready(w) :: v.semVer.precedence >= w.semVer.precedence)
  }

  lemma ChosenServes(v: ResourceVersion, vs: Versions, s: Settings)
    requires Chosen(v, vs, s)
    ensures Serves(v, vs, s)
  {
    if w :| w in vs && Ready(w) {
      assert Fit(w, s, true) && Fit(w, s, false);
      assert forall x | x in vs && Ready(x) :: Fit(x, s, true) && Fit(x, s, false);
    }
  }

  /** In dev mode an available development version is chosen whenever no version lies below it and
      none other has its precedence. */
  lemma DevVersionWins(vs: Versions, s: Settings, dev: ResourceVersion, v: ResourceVersion)
    requires Sorted(vs) && s.devMode && dev in vs && dev.semVer.precedence == DEV && dev.available
    requires forall w | w in vs && w != dev :: w.semVer.precedence > DEV
    requires Chosen(v, vs, s)
    ensures v == dev
  {
    var last := vs[|vs| - 1];
    assert last in vs && last.semVer.precedence <= dev.semVer.precedence;
  }

  /** How adding a version changes the flags of one, which is the version added or is not. */
  twostate predicate Updated(v: ResourceVersion, added: bool, available: bool, currentRelease: bool, preRelease: bool)
    reads v
  {
    && v.blacklisted == old(v.blacklisted)
    && v.available == (old(v.available) || (added && available))
    && v.preRelease == (old(v.preRelease) || (added && (preRelease || v.semVer.tagged)))
    && v.currentRelease == ((old(v.currentRelease) && !currentRelease) || (added && currentRelease))
  }

  predicate OneCurrent(vs: Versions)
    reads vs
  {
    forall v, w | v in vs && w in vs && v.currentRelease && w.currentRelease :: v == w
  }

  predicate TagsMarked(vs: Versions)
    reads vs
  {
    forall v | v in vs && v.semVer.tagged :: v.preRelease
  }

  /** A version that may still be used. */
  predicate Usable(v: ResourceVersion)
    reads v
  {
    !v.blacklisted && v.semVer.precedence != DEV
  }

  class Resource {
    var settings: Settings
    var versions: Versions
    var active: ResourceVersion?
    var selected: ResourceVersion?

    predicate Valid()
      reads this, versions
    {
      Distinct(versions) && OneCurrent(versions) && TagsMarked(versions)
    }

    constructor (settings: Settings)
      ensures Valid() && versions == [] && active == null && selected == null && this.settings == settings
    {
      this.settings, versions, active, selected := settings, [], null, null;
    }

    method SortVersions()
      requires Valid()
      modifies this`versions
      ensures Valid() && Sorted(versions) && multiset(versions) == multiset(old(versions)) && |versions| == |old(versions)|
      ensures forall v :: v in versions <==> v in old(versions)
    {
      SortSorts(versions);
      DistinctIsOnce(versions);
      DistinctIsOnce(Sort(versions));
      forall v ensures v in versions <==> v in Sort(versions) { SameMembers(versions, Sort(versions), v); }
      versions := Sort(versions);
    }

    /** isSelectable. autoDownload is the index's setting, if the resource is part of an index. */
    method IsSelectable(v: ResourceVersion) returns (r: bool)
      ensures r <==> Selectable(v, settings)
    {
      if v.blacklisted { return false; }
      if v.available { return true; }
      if !settings.online { return false; }
      if settings.autoDownload.None? { return false; }
      return settings.autoDownload.value;
    }

    /** The first fit version in the list is the newest. */
    method FindFit(stable: bool) returns (v: ResourceVersion?)
      requires Sorted(versions)
      ensures v == null <==> NoneFit(versions, settings, stable)
      ensures v != null ==> v in versions && NewestFit(v, versions, settings, stable) && FirstFit(v, versions, settings, stable)
    {
      for i := 0 to |versions|
        invariant forall j | 0 <= j < i :: !Fit(versions[j], settings, stable)
      {
        var selectable := IsSelectable(versions[i]);
        if (!stable || !versions[i].preRelease) && selectable {
          assert FirstFit(versions[i], versions, settings, stable);
          return versions[i];
        }
      }
      return null;
    }

    /** The search stops at a current release that is not selectable: there is no other. */
    method SelectableCurrent() returns (v: ResourceVersion?)
      requires OneCurrent(versions)
      ensures v == null <==> NoCurrentChoice(versions, settings)
      ensures v != null ==> v in versions && CurrentChoice(v, settings)
    {
      for i := 0 to |versions|
        invariant forall j | 0 <= j < i :: !versions[j].currentRelease
      {
        if versions[i].currentRelease {
          var selectable := IsSelectable(versions[i]);
          if selectable {
            assert CurrentChoice(versions[i], settings);
            return versions[i];
          }
          return null;
        }
      }
      return null;
    }

    /** The target selection on the sorted versions. */
    method Choose() returns (v: ResourceVersion)
      requires OneCurrent(versions) && Sorted(versions) && versions != []
      ensures Chosen(v, versions, settings)
    {
      if settings.devMode {
        v := versions[|versions| - 1];
        if v.semVer.precedence == DEV && v.available { return v; }
      }
      var choice := SelectableCurrent();
      if choice != null { return choice; }
      if settings.usePreReleases {
        choice := FindFit(false);
        if choice != null { return choice; }
      }
      choice := FindFit(true);
      if choice != null { return choice; }
      return versions[0];
    }

    method SelectVersion()
      requires Valid()
      modifies this`versions, this`selected
      ensures Valid() && Sorted(versions) && multiset(versions) == multiset(old(versions)) && |versions| == |old(versions)|
      ensures forall v :: v in versions <==> v in old(versions)
      ensures DistinctNumbers(old(versions)) ==> DistinctNumbers(versions)
      ensures versions == [] ==> selected == null
      ensures versions != [] ==> selected != null && Chosen(selected, versions, settings) && Serves(selected, versions, settings)
    {
      SortVersions();
      if |versions| == 0 {
        selected := null;
      } else {
        var v := Choose();
        ChosenServes(v, versions, settings);
        selected := v;
      }
    }

    method Find(version: string) returns (v: ResourceVersion?)
      ensures v == null <==> forall w | w in versions :: w.semVer.number != version
      ensures v != null ==> v in versions && v.semVer.number == version
    {
      for i := 0 to |versions|
        invariant forall j | 0 <= j < i :: versions[j].semVer.number != version
      {
        if versions[i].semVer.number == version { return versions[i]; }
      }
      return null;
    }

    method ResetCurrent()
      modifies versions
      ensures forall v | v in versions ::
        !v.currentRelease && v.blacklisted == old(v.blacklisted) && v.available == old(v.available) && v.preRelease == old(v.preRelease)
    {
      for i := 0 to |versions|
        invariant forall v | v in versions ::
          v.blacklisted == old(v.blacklisted) && v.available == old(v.available) && v.preRelease == old(v.preRelease)
        invariant forall j | 0 <= j < i :: !versions[j].currentRelease
      {
        versions[i].currentRelease := false;
      }
    }

    /** Marking a version as the current release unmarks all others, even if the version then turns
        out to be malformed. */
    method AddVersion(version: string, parsed: Option<SemVer>, available: bool, currentRelease: bool, preRelease: bool)
      returns (rv: ResourceVersion?)
      requires Valid()
      modifies this`versions, versions
      ensures Valid()
      ensures rv == null ==> parsed.None? && versions == old(versions)
      ensures rv != null ==> rv in versions && rv.semVer.number == (if fresh(rv) && parsed.Some? then parsed.value.number else version)
      ensures versions == old(versions) || (rv != null && fresh(rv) && parsed == Some(rv.semVer) && versions == old(versions) + [rv])
      ensures DistinctNumbers(old(versions)) ==>
        (DistinctNumbers(versions) <==> versions == old(versions) || forall v | v in old(versions) :: v.semVer.number != rv.semVer.number)
      ensures DistinctNumbers(old(versions)) && (parsed.Some? ==> parsed.value.number == version) ==> DistinctNumbers(versions)
      ensures forall v | v in old(versions) :: Updated(v, v == rv, available, currentRelease, preRelease)
      ensures rv != null && fresh(rv) ==> !rv.blacklisted && rv.available == available && rv.currentRelease == currentRelease
      ensures rv != null && fresh(rv) ==> rv.preRelease == (preRelease || rv.semVer.tagged)
    {
      if currentRelease { ResetCurrent(); }
      rv := FindOrCreate(version, parsed);
      if rv != null {
        assert forall v | v in versions :: v == rv || v in old(versions);
        rv.Mark(available, currentRelease, preRelease);
        assert TagsMarked(versions);
      }
    }

    method FindOrCreate(version: string, parsed: Option<SemVer>) returns (rv: ResourceVersion?)
      requires Distinct(versions)
      modifies this`versions
      ensures Distinct(versions)
      ensures rv == null ==> parsed.None? && versions == old(versions)
      ensures rv != null && !fresh(rv) ==> rv in versions && rv.semVer.number == version && versions == old(versions)
      ensures rv != null && fresh(rv) ==> parsed == Some(rv.semVer) && rv.Unmarked() && versions == old(versions) + [rv]
      ensures rv != null && fresh(rv) ==> forall v | v in old(versions) :: v.semVer.number != version
    {
      rv := Find(version);
      if rv == null && parsed.Some? {
        rv := new ResourceVersion(parsed.value);
        AppendDistinct(versions, rv);
        versions := versions + [rv];
      }
    }

    /** Whether at least two usable versions are left. */
    method TwoUsable() returns (r: bool)
      requires Distinct(versions)
      ensures r <==> exists v, w | v in versions && w in versions :: v != w && Usable(v) && Usable(w)
    {
      var valid := 0;
      ghost var first, second: ResourceVersion?;
      first, second := null, null;
      for i := 0 to |versions|
        invariant valid >= 1 ==> first != null && first in versions[..i] && Usable(first)
        invariant valid >= 2 ==> second != null && second in versions[..i] && Usable(second) && first != second
        invariant valid >= 0 && (valid == 0 ==> forall j | 0 <= j < i :: !Usable(versions[j]))
        invariant valid == 1 ==> forall j | 0 <= j < i && Usable(versions[j]) :: versions[j] == first
      {
        if versions[i].semVer.precedence == DEV { continue; }
        if !versions[i].blacklisted {
          assert Usable(versions[i]) && versions[i] !in versions[..i];
          valid := valid + 1;
          if valid == 1 { first := versions[i]; } else { second := versions[i]; }
        }
      }
      return valid > 1;
    }

    /** Blacklisting succeeds exactly if the version exists and two are usable; one then still is. */
    method Blacklist(version: string) returns (rv: ResourceVersion?)
      requires Valid()
      modifies this`versions, this`selected, versions
      ensures Valid()
      ensures rv != null <==>
        && (exists v, w | v in old(versions) && w in old(versions) :: v != w && old(Usable(v)) && old(Usable(w)))
        && (exists v | v in old(versions) :: v.semVer.number == version)
      ensures rv != null ==> rv in versions && rv.semVer.number == version && exists v | v in versions :: Usable(v)
      ensures rv != null ==> selected != null && Chosen(selected, versions, settings) && Serves(selected, versions, settings)
      ensures rv == null ==> versions == old(versions) && selected == old(selected)
      ensures DistinctNumbers(old(versions)) ==> DistinctNumbers(versions)
      ensures forall v | v in old(versions) :: v in versions && v.blacklisted == (old(v.blacklisted) || v == rv)
    {
      var two := TwoUsable();
      if !two { return null; }
      rv := Find(version);
      if rv != null { BlacklistFound(rv); }
    }

    method BlacklistFound(rv: ResourceVersion)
      requires Valid() && rv in versions
      requires exists v | v in versions :: v != rv && Usable(v)
      modifies this`versions, this`selected, rv`blacklisted
      ensures Valid() && rv.blacklisted && exists v | v in versions :: Usable(v)
      ensures selected != null && Chosen(selected, versions, settings) && Serves(selected, versions, settings)
      ensures forall v :: v in versions <==> v in old(versions)
    {
      ghost var kept :| kept in versions && kept != rv && Usable(kept);
      rv.blacklisted := true;
      SelectVersion();
      assert kept in versions && Usable(kept);
    }

    /** The least number of leading versions that include all required ones; if those are all the
        versions there are, or not among them, there is none. */
    method Required() returns (n: Option<nat>)
      ensures n.None? ==> forall k | 0 <= k < |versions| :: !RequiredBefore(k)
      ensures n.Some? ==> n.value < |versions| && RequiredBefore(n.value) && forall k | 0 <= k < n.value :: !RequiredBefore(k)
    {
      var skippedActive, skippedSelected, skippedStable := false, false, false;
      for i := 0 to |versions|
        invariant skippedActive <==> active in versions[..i]
        invariant skippedSelected <==> selected in versions[..i]
        invariant skippedStable <==> exists j | 0 <= j < i :: !versions[j].preRelease
        invariant forall k | 0 <= k < i :: !RequiredBefore(k)
      {
        if (skippedActive || active == null) && (skippedSelected || selected == null) && skippedStable {
          return Some(i);
        }
        assert !RequiredBefore(i);
        assert versions[..i + 1] == versions[..i] + [versions[i]];
        if versions[i] == active { skippedActive := true; }
        if versions[i] == selected { skippedSelected := true; }
        if !versions[i].preRelease { skippedStable := true; }
      }
      return None;
    }

    ghost predicate RequiredBefore(n: nat)
      requires n <= |versions|
      reads this, versions
    {
      && (active != null ==> active in versions[..n])
      && (selected != null ==> selected in versions[..n])
      && exists j | 0 <= j < n :: !versions[j].preRelease
    }

    /** Where purging starts: so many versions behind the required ones. Blacklisted versions pause
        purging. */
    ghost predicate IsBoundary(b: nat, keepExtra: int)
      reads this, versions
    {
      && (forall v | v in versions :: !v.blacklisted)
      && Keep(keepExtra) < b < |versions| && RequiredBefore(b - Keep(keepExtra))
      && forall k | 0 <= k < b - Keep(keepExtra) :: !RequiredBefore(k)
    }

    ghost predicate NoBoundary(keepExtra: int)
      reads this, versions
    {
      forall b: nat :: !IsBoundary(b, keepExtra)
    }

    method PurgeBoundary(keepExtra: int) returns (boundary: Option<nat>)
      ensures boundary.Some? ==> IsBoundary(boundary.value, keepExtra)
      ensures boundary.None? ==> NoBoundary(keepExtra)
    {
      for i := 0 to |versions|
        invariant forall j | 0 <= j < i :: !versions[j].blacklisted
      {
        if versions[i].blacklisted { return None; }
      }
      var required := Required();
      if required.None? { return None; }
      assert required.value > 0;
      forall b: nat | IsBoundary(b, keepExtra) ensures b == required.value + Keep(keepExtra) {
        assert RequiredBefore(b - Keep(keepExtra)) && RequiredBefore(required.value);
      }
      if required.value + Keep(keepExtra) >= |versions| { return None; }
      return Some(required.value + Keep(keepExtra));
    }

    /** Purge. The versions behind the boundary lose their files; it is those that stay listed. */
    method Purge(keepExtra: int) returns (boundary: Option<nat>, removed: set<string>)
      requires Valid()
      modifies this`versions
      ensures Valid()
      ensures boundary.None? ==> old(NoBoundary(keepExtra)) && removed == {} && versions == old(versions)
      ensures boundary.Some? ==> old(IsBoundary(boundary.value, keepExtra))
      ensures boundary.Some? ==> versions == old(versions)[boundary.value..] && removed == Files(old(versions)[boundary.value..])
      ensures DistinctNumbers(old(versions)) ==> DistinctNumbers(versions) && Spared(active, removed) && Spared(selected, removed)
      ensures DistinctNumbers(old(versions)) && boundary.Some? ==> forall v | v in old(versions) ::
        Spared(v, removed) <==> !v.available || v in old(versions)[..boundary.value]
      ensures DistinctNumbers(old(versions)) && Sorted(old(versions)) ==>
        forall v | v in old(versions) && NewestStable(v, old(versions)) :: Spared(v, removed)
    {
      boundary := PurgeBoundary(keepExtra);
      if boundary.None? { return None, {}; }
      var b := boundary.value;
      removed := Files(versions[b..]);
      TailStaysValid(versions, b);
      if DistinctNumbers(versions) {
        SparedExactly(versions, b);
        PurgeKeepsRequired(versions, active, selected, b - Keep(keepExtra), b);
      }
      versions := versions[b..];
    }
  }

  /** At least two versions are kept behind the required ones. */
  function Keep(keepExtra: int): (r: nat)
    ensures r >= 2 && r >= keepExtra && (r == 2 || r == keepExtra)
  {
    if keepExtra < 2 then 2 else keepExtra
  }

  /** The files of the available versions. */
  function Files(vs: Versions): set<string>
    reads vs
  {
    set v | v in vs && v.available :: v.semVer.number
  }

  lemma TailStaysValid(vs: Versions, n: nat)
    requires n <= |vs| && Distinct(vs) && OneCurrent(vs) && TagsMarked(vs)
    ensures Distinct(vs[n..]) && OneCurrent(vs[n..]) && TagsMarked(vs[n..])
  {
    assert forall v | v in vs[n..] :: v in vs;
  }

  predicate Spared(v: ResourceVersion?, removed: set<string>) {
    v != null ==> v.semVer.number !in removed
  }

  predicate DistinctNumbers(vs: Versions) {
    forall v, w | v in vs && w in vs && v != w :: v.semVer.number != w.semVer.number
  }

  /** Which versions keep their files: exactly those listed before the boundary, and those that have
      none. */
  lemma SparedExactly(vs: Versions, boundary: nat)
    requires Distinct(vs) && DistinctNumbers(vs) && boundary <= |vs|
    ensures forall v | v in vs :: Spared(v, Files(vs[boundary..])) <==> !v.available || v in vs[..boundary]
    ensures DistinctNumbers(vs[boundary..])
  {
    HalvesApart(vs, boundary);
    forall v | v in vs ensures Spared(v, Files(vs[boundary..])) <==> !v.available || v in vs[..boundary] {
      if v in vs[boundary..] && v.available { assert v.semVer.number in Files(vs[boundary..]); }
    }
  }

  lemma HalvesApart(vs: Versions, n: nat)
    requires Distinct(vs) && n <= |vs|
    ensures forall v :: v in vs <==> v in vs[..n] || v in vs[n..]
    ensures forall v | v in vs[..n] :: v !in vs[n..]
  {
    assert vs == vs[..n] + vs[n..];
    forall v | v in vs[..n] ensures v !in vs[n..] {
      var i :| 0 <= i < n && vs[i] == v;
      assert forall j | 0 <= j < |vs| - n :: vs[n..][j] == vs[n + j];
    }
  }

  /** Stable, and newer than all other stable versions. */
  ghost predicate NewestStable(v: ResourceVersion, vs: Versions)
    reads v, vs
  {
    !v.preRelease && forall w | w in vs && !w.preRelease && w != v :: w.semVer.precedence < v.semVer.precedence
  }

  lemma NewestStableComesFirst(vs: Versions, n: nat, v: ResourceVersion)
    requires Sorted(vs) && n <= |vs| && v in vs && NewestStable(v, vs)
    requires exists j | 0 <= j < n :: !vs[j].preRelease
    ensures v in vs[..n]
  {
    var j :| 0 <= j < n && !vs[j].preRelease;
    var i :| 0 <= i < |vs| && vs[i] == v;
    assert vs[j] in vs;
    assert i <= j || vs[j] == v;
  }

  /** Purging never removes the file of the active, the selected or the newest stable version. */
  lemma PurgeKeepsRequired(vs: Versions, active: ResourceVersion?, selected: ResourceVersion?, n: nat, boundary: nat)
    requires Distinct(vs) && DistinctNumbers(vs) && n <= boundary <= |vs|
    requires (active != null ==> active in vs[..n]) && (selected != null ==> selected in vs[..n])
    requires exists j | 0 <= j < n :: !vs[j].preRelease
    ensures Spared(active, Files(vs[boundary..])) && Spared(selected, Files(vs[boundary..]))
    ensures Sorted(vs) ==> forall v | v in vs && NewestStable(v, vs) :: Spared(v, Files(vs[boundary..]))
  {
    SparedExactly(vs, boundary);
    assert forall v | v in vs[..n] :: v in vs && v in vs[..boundary];
    if Sorted(vs) {
      forall v | v in vs && NewestStable(v, vs) ensures Spared(v, Files(vs[boundary..])) {
        NewestStableComesFirst(vs, n, v);
      }
    }
  }

  // ----- where purging removes too much

  /** A list of usable stable versions with these numbers and precedences. */
  ghost predicate Lists(vs: Versions, semVers: seq<SemVer>)
    reads vs
  {
    && |vs| == |semVers|
    && (forall i | 0 <= i < |vs| :: vs[i].semVer == semVers[i])
    && (forall i | 0 <= i < |vs| :: vs[i].available && !vs[i].preRelease && !vs[i].blacklisted && !vs[i].currentRelease)
  }

  /** Adds an available stable version that is not listed under the given string. */
  method AddStable(r: Resource, version: string, semVer: SemVer, ghost listed: seq<SemVer>) returns (rv: ResourceVersion)
    requires r.Valid() && Lists(r.versions, listed) && !semVer.tagged
    requires forall i | 0 <= i < |listed| :: listed[i].number != version
    modifies r`versions, r.versions
    ensures r.Valid() && Lists(r.versions, listed + [semVer])
    ensures fresh(rv) && r.versions == old(r.versions) + [rv]
  {
    ghost var before := r.versions;
    var added := r.AddVersion(version, Some(semVer), true, false, false);
    assert forall v | v in before :: v.semVer.number != version;
    assert r.versions == before + [added] && fresh(added);
    rv := added;
    forall i | 0 <= i < |before|
      ensures before[i].available && !before[i].preRelease && !before[i].blacklisted && !before[i].currentRelease
    {
      assert before[i] in before && before[i] != rv;
    }
  }

  /** Adds the versions from the n-th on. */
  method AddRest(r: Resource, versions: seq<string>, semVers: seq<SemVer>, n: nat)
    requires n <= |versions| == |semVers| && forall i | 0 <= i < |semVers| :: !semVers[i].tagged
    requires forall i, j | 0 <= i < j < |semVers| :: semVers[i].number != versions[j]
    requires r.Valid() && Lists(r.versions, semVers[..n])
    modifies r`versions, r.versions
    ensures r.Valid() && Lists(r.versions, semVers)
    ensures forall i | 0 <= i < |r.versions| :: fresh(r.versions[i]) || r.versions[i] in old(r.versions)
    decreases |versions| - n
  {
    if n == |versions| {
      assert semVers[..n] == semVers;
    } else {
      var _ := AddStable(r, versions[n], semVers[n], semVers[..n]);
      assert semVers[..n] + [semVers[n]] == semVers[..n + 1];
      AddRest(r, versions, semVers, n + 1);
    }
  }

  /** Four versions added to a new resource. */
  method AddFour(versions: seq<string>, semVers: seq<SemVer>) returns (r: Resource)
    requires |versions| == |semVers| == 4 && forall i | 0 <= i < 4 :: !semVers[i].tagged
    requires forall i, j | 0 <= i < j < 4 :: semVers[i].number != versions[j]
    ensures fresh(r) && r.Valid() && Lists(r.versions, semVers) && r.active == null && r.selected == null
    ensures !r.settings.devMode && !r.settings.usePreReleases
    ensures forall i | 0 <= i < 4 :: fresh(r.versions[i])
  {
    r := new Resource(Settings(false, false, false, None));
    AddRest(r, versions, semVers, 0);
  }

  /** If three versions are listed before the newest, purging removes the file of the newest: adding
      does not sort. */
  method PurgeLosesNewest(semVers: seq<SemVer>) returns (removed: set<string>, ghost listed: Versions, newest: ResourceVersion)
    requires |semVers| == 4 && forall i | 0 <= i < 4 :: !semVers[i].tagged
    requires forall i, j | 0 <= i < j < 4 :: semVers[i].number != semVers[j].number
    requires forall i | 0 <= i < 3 :: semVers[i].precedence < semVers[3].precedence
    ensures Lists(listed, semVers) && DistinctNumbers(listed)
    ensures newest in listed && NewestStable(newest, listed) && newest.semVer.number in removed
  {
    var numbers := seq(4, i requires 0 <= i < 4 => semVers[i].number);
    var r := AddFour(numbers, semVers);
    listed, newest := r.versions, r.versions[3];
    OnlyBoundary(r, 3, 2);
    var boundary;
    boundary, removed := r.Purge(2);
    assert listed[3..] == [newest];
  }

  /** The version selected among four added under a string that is not their number loses its file
      too: they are four for the list, and one for the disk. */
  method PurgeLosesSelected(version: string, semVer: SemVer) returns (removed: set<string>, r: Resource)
    requires version != semVer.number && !semVer.tagged
    ensures r.selected != null && r.selected.semVer == semVer && semVer.number in removed
  {
    r := AddFour([version, version, version, version], [semVer, semVer, semVer, semVer]);
    SelectAmongEqual(r, semVer);
    OnlyBoundary(r, 3, 2);
    ghost var sorted := r.versions;
    var boundary;
    boundary, removed := r.Purge(2);
    assert sorted[3] == sorted[3..][0] && sorted[3].semVer.number in removed;
  }

  /** A stable version with these numbers that is available and may be used. */
  predicate Plain(v: ResourceVersion, semVer: SemVer)
    reads v
  {
    v.semVer == semVer && v.available && !v.preRelease && !v.blacklisted && !v.currentRelease
  }

  /** Among equal versions the first one is selected. */
  method SelectAmongEqual(r: Resource, semVer: SemVer)
    requires r.Valid() && |r.versions| == 4 && Lists(r.versions, [semVer, semVer, semVer, semVer])
    requires !r.settings.devMode && !r.settings.usePreReleases
    modifies r`versions, r`selected
    ensures r.Valid() && |r.versions| == 4 && r.selected == r.versions[0]
    ensures forall i | 0 <= i < 4 :: Plain(r.versions[i], semVer)
  {
    assert forall v | v in r.versions :: Plain(v, semVer);
    r.SelectVersion();
    forall i | 0 <= i < 4 ensures Plain(r.versions[i], semVer) { assert r.versions[i] in r.versions; }
    assert Fit(r.versions[0], r.settings, true);
  }

  /** With stable versions only and the first one required at most, the boundary is right behind the
      versions kept. */
  lemma OnlyBoundary(r: Resource, b: nat, keepExtra: int)
    requires b == Keep(keepExtra) + 1 < |r.versions| && (forall v | v in r.versions :: !v.blacklisted)
    requires !r.versions[0].preRelease && r.active == null && (r.selected == null || r.selected == r.versions[0])
    ensures r.IsBoundary(b, keepExtra) && forall k: nat | r.IsBoundary(k, keepExtra) :: k == b
  {
    assert r.versions[..1] == [r.versions[0]];
    assert r.RequiredBefore(1);
  }

  /** The two failures on concrete versions. */
  method PurgeExamples() returns (removed: set<string>, lost: set<string>, r: Resource)
    ensures "2.0.0" in removed
    ensures r.selected != null && r.selected.semVer.number == "1.0.0" && "1.0.0" in lost
  {
    var semVers := [SemVer("1.4.0", 104.0, false), SemVer("1.3.0", 103.0, false), SemVer("1.2.0", 102.0, false), SemVer("2.0.0", 200.0, false)];
    assert semVers[0].number[2] == '4' && semVers[1].number[2] == '3' && semVers[2].number[2] == '2' && semVers[3].number[2] == '0';
    var newest;
    ghost var listed;
    removed, listed, newest := PurgeLosesNewest(semVers);
    assert newest.semVer.number == "2.0.0";
    lost, r := PurgeLosesSelected("1.0", SemVer("1.0.0", 100.0, false));
  }
}
