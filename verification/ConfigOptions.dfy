/** Option getters with a validity flag: any number of getters and setters, interleaved step by step. */
module ConfigOptions {
  import opened Basics

  type Key(==, !new)
  type Setter(==, !new)
  type GetterId(==, !new)

  datatype Value = Text(text: string) | Texts(texts: seq<string>) | Number(number: int) | Switch(on: bool)

  datatype Kind = TextKind | TextsKind | NumberKind | SwitchKind

  datatype Layer = Active | Default

  /** A registered option with its layers of values. */
  datatype Setting = Setting(
    kind: Kind, releaseLevel: nat, active: Option<Value>, default: Option<Value>, fallback: Option<Value>)
  {
    function With(layer: Layer, value: Option<Value>): Setting {
      if layer == Active then this.(active := value) else this.(default := value)
    }

    /** getValueCache on a registered option of the right type. */
    function Lookup(level: nat): Option<Value> {
      if releaseLevel <= level && active.Some? then active
      else if default.Some? then default
      else fallback
    }
  }

  /** A getter's captured variables; fetching is set from taking the flag until the value is read. */
  datatype Getter = Getter(key: Key, kind: Kind, fallback: Value, flag: nat, fetching: bool, value: Value)

  /** Validity flags are numbered; replaced flags are unset, so only the current one is set. A setter
      that has written is pending, with the keys it wrote, until it signals. */
  datatype State = State(
    settings: map<Key, Setting>, release: Key, level: nat, flag: nat,
    pending: map<Setter, set<Key>>, getters: map<GetterId, Getter>)

  /** The value a fresh lookup gives. */
  function Fresh(s: State, g: Getter): Value {
    if g.key !in s.settings || s.settings[g.key].kind != g.kind then g.fallback
    else
      var value := s.settings[g.key].Lookup(s.level);
      if value.Some? then value.value else g.fallback
  }

  /** updateReleaseLevel: here, unlike in lookups, the default takes precedence. */
  function LevelOf(setting: Setting): nat {
    var value :=
      if setting.default.Some? then setting.default
      else if setting.active.Some? then setting.active
      else setting.fallback;
    if value == Some(Text("beta")) then 1 else if value == Some(Text("experimental")) then 2 else 0
  }

  datatype Event =
    | Write(setter: Setter, key: Key, layer: Layer, value: Option<Value>)
    | Signal(setter: Setter)
    | Create(id: GetterId, key: Key, kind: Kind, fallback: Value)
    | Take(id: GetterId)
    | Read(id: GetterId)

  function Written(s: State, setter: Setter): set<Key> {
    if setter in s.pending then s.pending[setter] else {}
  }

  /** One step; an event that is not possible changes nothing. */
  function Step(s: State, e: Event): State {
    match e
    case Write(setter, key, layer, value) =>
      if key !in s.settings then s
      else
        var setting := s.settings[key].With(layer, value);
        s.(settings := s.settings[key := setting],
           level := if key == s.release then LevelOf(setting) else s.level,
           pending := s.pending[setter := Written(s, setter) + {key}])
    case Signal(setter) =>
      s.(flag := s.flag + 1, pending := s.pending - {setter})
    case Create(id, key, kind, fallback) =>
      if id in s.getters then s
      else s.(getters := s.getters[id := Getter(key, kind, fallback, s.flag, true, fallback)])
    case Take(id) =>
      if id !in s.getters || s.getters[id].fetching || s.getters[id].flag == s.flag then s
      else s.(getters := s.getters[id := s.getters[id].(flag := s.flag, fetching := true)])
    case Read(id) =>
      if id !in s.getters || !s.getters[id].fetching then s
      else s.(getters := s.getters[id := s.getters[id].(value := Fresh(s, s.getters[id]), fetching := false)])
  }

  predicate Initial(s: State) {
    s.pending == map[] && s.getters == map[]
  }

  /** The state after a run. */
  function After(init: State, h: seq<Event>): State {
    if h == [] then init else Step(After(init, h[..|h| - 1]), h[|h| - 1])
  }

  /** The getter would return its cached value. */
  predicate Serves(s: State, id: GetterId) {
    id in s.getters && !s.getters[id].fetching && s.getters[id].flag == s.flag
  }

  /** Some setter that wrote the getter's option, or the release level, has not signalled yet. */
  ghost predicate WriteUnderway(s: State, key: Key) {
    exists setter :: setter in s.pending && (key in s.pending[setter] || s.release in s.pending[setter])
  }

  // ----- cached values are current

  ghost predicate FlagsIssued(s: State) {
    forall id | id in s.getters :: s.getters[id].flag <= s.flag
  }

  ghost predicate CurrentUnlessUnderway(s: State) {
    forall id | Serves(s, id) :: s.getters[id].value == Fresh(s, s.getters[id]) || WriteUnderway(s, s.getters[id].key)
  }

  lemma WriteKeeps(s: State, e: Event, id: GetterId)
    requires e.Write? && Serves(s, id)
    requires s.getters[id].value == Fresh(s, s.getters[id]) || WriteUnderway(s, s.getters[id].key)
    ensures var t := Step(s, e);
      t.getters[id].value == Fresh(t, t.getters[id]) || WriteUnderway(t, t.getters[id].key)
  {
    var t, key := Step(s, e), s.getters[id].key;
    if e.key in s.settings {
      if WriteUnderway(s, key) {
        var setter :| setter in s.pending && (key in s.pending[setter] || s.release in s.pending[setter]);
        assert setter in t.pending && s.pending[setter] <= t.pending[setter];
      } else if e.key == key || e.key == s.release {
        assert e.setter in t.pending && e.key in t.pending[e.setter];
      }
    }
  }

  lemma StepKeeps(s: State, e: Event)
    requires FlagsIssued(s) && CurrentUnlessUnderway(s)
    ensures FlagsIssued(Step(s, e)) && CurrentUnlessUnderway(Step(s, e))
  {
    var t := Step(s, e);
    forall id | Serves(t, id)
      ensures t.getters[id].value == Fresh(t, t.getters[id]) || WriteUnderway(t, t.getters[id].key)
    {
      if e.Write? {
        assert Serves(s, id);
        WriteKeeps(s, e, id);
      } else if !(e.Read? && e.id == id) {
        assert !e.Signal?;
        assert Serves(s, id) && t.getters[id] == s.getters[id];
        assert t.pending == s.pending && t.release == s.release;
        assert WriteUnderway(s, s.getters[id].key) ==> WriteUnderway(t, s.getters[id].key);
      }
    }
  }

  lemma {:induction false} RunKeeps(init: State, h: seq<Event>)
    requires Initial(init)
    ensures FlagsIssued(After(init, h)) && CurrentUnlessUnderway(After(init, h))
  {
    if h != [] {
      RunKeeps(init, h[..|h| - 1]);
      StepKeeps(After(init, h[..|h| - 1]), h[|h| - 1]);
    }
  }

  /** In every interleaving, a getter whose flag is still set caches what a fresh lookup gives,
      unless a setter that wrote its option or the release level has yet to signal. */
  lemma CachedIsFresh(init: State, h: seq<Event>, id: GetterId)
    requires Initial(init)
    requires var s := After(init, h); Serves(s, id) && !WriteUnderway(s, s.getters[id].key)
    ensures var s := After(init, h); s.getters[id].value == Fresh(s, s.getters[id])
  {
    RunKeeps(init, h);
  }

  // ----- cached values are never older than the last signal

  /** The value was looked up after the first n events of the run. */
  ghost predicate ReadAfter(init: State, h: seq<Event>, g: Getter, n: nat) {
    n <= |h| && g.value == Fresh(After(init, h[..n]), g)
  }

  ghost predicate NoSignalSince(h: seq<Event>, n: nat) {
    forall i | n <= i < |h| :: !h[i].Signal?
  }

  /** Whoever is served a cached value is served one read after the last signal, so with everything
      its setter, and all earlier ones, had written. */
  lemma {:induction false} ServedSinceLastSignal(init: State, h: seq<Event>, id: GetterId) returns (n: nat)
    requires Initial(init) && Serves(After(init, h), id)
    ensures ReadAfter(init, h, After(init, h).getters[id], n) && NoSignalSince(h, n)
  {
    if h == [] { return; }
    var before, e := h[..|h| - 1], h[|h| - 1];
    var s := After(init, before);
    RunKeeps(init, before);
    if e.Read? && e.id == id && id in s.getters && s.getters[id].fetching {
      n := |h| - 1;
      assert h[..n] == before;
    } else {
      assert !e.Signal?;
      assert Serves(s, id);
      n := ServedSinceLastSignal(init, before, id);
      assert h[..n] == before[..n];
    }
  }

  /** Setting an option and signalling makes the value visible: afterwards a getter either notices
      that its flag is unset or has read the value since. */
  lemma SignalledIsSeen(init: State, h: seq<Event>, i: nat, id: GetterId) returns (n: nat)
    requires Initial(init) && i < |h| && h[i].Signal? && Serves(After(init, h), id)
    ensures i < n && ReadAfter(init, h, After(init, h).getters[id], n)
  {
    n := ServedSinceLastSignal(init, h, id);
  }

  // ----- from setting to getting

  /** What a single write does to fresh lookups of its option: a permitted active value wins, the
      default counts where there is none, and an option above the release level ignores its active
      value. */
  lemma WrittenIsLookedUp(s: State, e: Event, g: Getter, v: Value)
    requires e.Write? && e.value == Some(v) && e.key == g.key && e.key in s.settings && e.key != s.release
    requires s.settings[e.key].kind == g.kind
    ensures var setting := s.settings[e.key];
      var permitted := setting.releaseLevel <= s.level;
      Fresh(Step(s, e), g) ==
        if e.layer == Active then (if permitted then v else Fresh(s, g))
        else if permitted && setting.active.Some? then Fresh(s, g)
        else v
  {
  }

  /** From event n on, nobody writes the option or the release level. */
  predicate UnwrittenSince(h: seq<Event>, n: nat, key: Key, release: Key) {
    forall i | n <= i < |h| && h[i].Write? :: h[i].key != key && h[i].key != release
  }

  lemma {:induction false} UnwrittenStays(init: State, h: seq<Event>, n: nat, key: Key)
    requires n <= |h| && UnwrittenSince(h, n, key, init.release)
    ensures var s, t := After(init, h[..n]), After(init, h);
      t.release == init.release && t.level == s.level
      && (key in t.settings <==> key in s.settings) && (key in s.settings ==> t.settings[key] == s.settings[key])
  {
    if n == |h| {
      assert h[..n] == h;
      ReleaseStays(init, h);
    } else {
      var before := h[..|h| - 1];
      assert before[..n] == h[..n];
      UnwrittenStays(init, before, n, key);
    }
  }

  lemma {:induction false} ReleaseStays(init: State, h: seq<Event>)
    ensures After(init, h).release == init.release
  {
    if h != [] { ReleaseStays(init, h[..|h| - 1]); }
  }

  /** A value that was set and signalled is what every getter of the option serves from then on,
      until somebody writes the option or the release level again. */
  lemma SetThenGet(init: State, h: seq<Event>, w: nat, n: nat, id: GetterId, v: Value)
    requires Initial(init) && w < n < |h| && Serves(After(init, h), id)
    requires h[w].Write? && h[w].layer == Active && h[w].value == Some(v) && h[n].Signal?
    requires var g := After(init, h).getters[id];
      h[w].key == g.key && g.key != init.release && UnwrittenSince(h, w + 1, g.key, init.release)
    requires var s, g := After(init, h[..w]), After(init, h).getters[id];
      g.key in s.settings && s.settings[g.key].kind == g.kind && s.settings[g.key].releaseLevel <= s.level
    ensures After(init, h).getters[id].value == v
  {
    var g := After(init, h).getters[id];
    var k := SignalledIsSeen(init, h, n, id);
    assert h[..k][..w + 1] == h[..w + 1];
    UnwrittenStays(init, h[..k], w + 1, g.key);
    assert h[..w + 1][..w] == h[..w];
    ReleaseStays(init, h[..w]);
    WrittenIsLookedUp(After(init, h[..w]), h[w], g, v);
  }

  // ----- what was never set

  lemma {:induction false} SettingStays(init: State, h: seq<Event>, key: Key)
    requires forall i | 0 <= i < |h| && h[i].Write? :: h[i].key != key
    ensures var s := After(init, h);
      (key in s.settings <==> key in init.settings) && (key in init.settings ==> s.settings[key] == init.settings[key])
  {
    if h != [] { SettingStays(init, h[..|h| - 1], key); }
  }

  /** Whatever else is written, an option that was never set gives its own fallback, and an option
      that has none, is of another type or does not exist gives the getter's. */
  lemma NeverSetGivesFallback(init: State, h: seq<Event>, id: GetterId)
    requires Initial(init) && Serves(After(init, h), id)
    requires var g := After(init, h).getters[id]; forall i | 0 <= i < |h| && h[i].Write? :: h[i].key != g.key
    requires var g := After(init, h).getters[id];
      g.key in init.settings ==> init.settings[g.key].active.None? && init.settings[g.key].default.None?
    ensures var g := After(init, h).getters[id];
      g.value ==
        if g.key in init.settings && init.settings[g.key].kind == g.kind && init.settings[g.key].fallback.Some?
        then init.settings[g.key].fallback.value
        else g.fallback
  {
    var n := ServedSinceLastSignal(init, h, id);
    SettingStays(init, h[..n], After(init, h).getters[id].key);
  }

  // ----- release levels

  /** The levels by name: all other names stand for stable. A name set as default counts, and one set
      as active value if there is no default. */
  lemma ReleaseLevelSet(s: State, setter: Setter, layer: Layer, name: string)
    requires s.release in s.settings && (layer == Active ==> s.settings[s.release].default.None?)
    ensures var t := Step(s, Write(setter, s.release, layer, Some(Text(name))));
      (t.level == 1 <==> name == "beta") && (t.level == 2 <==> name == "experimental") && t.level <= 2
  {
    Distinguished(name);
  }

  lemma Distinguished(name: string)
    ensures !(name == "beta" && name == "experimental")
  {
    assert "beta"[0] != "experimental"[0];
  }

  /** A default release level shadows any active one, and without either the fallback counts. */
  lemma ReleaseLevelElsewhere(s: State, setter: Setter, value: Option<Value>)
    requires s.release in s.settings
    ensures var setting, t := s.settings[s.release], Step(s, Write(setter, s.release, Active, value));
      && (setting.default.Some? ==> t.level == LevelOf(setting))
      && (setting.default.None? && value.None? ==> t.level == LevelOf(setting.(active := setting.fallback)))
  {
  }

  /** An option above the release level shows its active value as soon as a level is set that allows it. */
  lemma LevelOpensOption(s: State, setter: Setter, g: Getter, v: Value)
    requires s.release in s.settings && g.key in s.settings && g.key != s.release
    requires s.settings[g.key].kind == g.kind && s.settings[g.key].active == Some(v)
    requires s.settings[g.key].releaseLevel == 1
    ensures Fresh(Step(s, Write(setter, s.release, Default, Some(Text("beta")))), g) == v
    ensures s.settings[g.key].default.Some? ==>
      Fresh(Step(s, Write(setter, s.release, Default, Some(Text("stable")))), g) == s.settings[g.key].default.value
  {
    ReleaseLevelSet(s, setter, Default, "beta");
    ReleaseLevelSet(s, setter, Default, "stable");
    assert "stable"[0] != "beta"[0] && "stable"[0] != "experimental"[0];
  }
}
