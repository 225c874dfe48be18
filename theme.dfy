/**
 * The light/dark theme of src/theme/ThemeProvider.tsx: the mode chosen at
 * start-up, the toggle, the mode written back to browser storage under
 * "ui-theme", and the theme configuration each mode selects.
 */
module Theme {
  import opened Wrappers

  datatype Mode = Light | Dark

  const StorageKey := "ui-theme"

  function ModeName(m: Mode): string {
    match m
    case Light => "light"
    case Dark => "dark"
  }

  /**
   * What getInitialMode can see of the browser: its storage, and the answer of
   * the dark-colour-scheme media query (None when matchMedia is unavailable).
   */
  datatype Window = Window(storage: map<string, string>, prefersDark: Option<bool>)

  /** The stored mode, when storage holds exactly "light" or "dark". */
  function StoredMode(storage: map<string, string>): (r: Option<Mode>)
    ensures r.Some? <==> StorageKey in storage && storage[StorageKey] in {"light", "dark"}
    ensures r.Some? ==> ModeName(r.value) == storage[StorageKey]
  {
    if StorageKey in storage && storage[StorageKey] == "light" then Some(Light)
    else if StorageKey in storage && storage[StorageKey] == "dark" then Some(Dark)
    else None
  }

  /** getInitialMode; `None` is the absence of a window (rendering outside a browser). */
  function InitialMode(window: Option<Window>): (r: Mode)
    ensures window.None? ==> r == Dark
    ensures window.Some? && StoredMode(window.value.storage).Some? ==> r == StoredMode(window.value.storage).value
    ensures window.Some? && StoredMode(window.value.storage).None? ==> (r == Dark <==> window.value.prefersDark == Some(true))
  {
    match window
    case None => Dark
    case Some(w) =>
      match StoredMode(w.storage)
      case Some(m) => m
      case None => if w.prefersDark == Some(true) then Dark else Light
  }

  /** toggle: "dark" becomes "light", anything else "dark". */
  function Toggle(m: Mode): (r: Mode)
    ensures r != m
  {
    if m == Dark then Light else Dark
  }

  lemma ToggleInvolution(m: Mode)
    ensures Toggle(Toggle(m)) == m
  {
  }

  /** The storage effect: the current mode is written under "ui-theme" when there is a window. */
  function Persist(window: Option<Window>, m: Mode): (r: Option<Window>)
    ensures r.Some? <==> window.Some?
    ensures r.Some? ==> r.value.prefersDark == window.value.prefersDark
    ensures r.Some? ==> StoredMode(r.value.storage) == Some(m)
    ensures r.Some? ==> r.value.storage.Keys == window.value.storage.Keys + {StorageKey}
    ensures r.Some? ==> forall k :: k in window.value.storage && k != StorageKey ==>
      k in r.value.storage && r.value.storage[k] == window.value.storage[k]
  {
    match window
    case None => None
    case Some(w) => Some(w.(storage := w.storage[StorageKey := ModeName(m)]))
  }

  /** A page loaded after the effect has run starts in the mode that was written. */
  lemma PersistThenReload(window: Option<Window>, m: Mode)
    requires window.Some?
    ensures InitialMode(Persist(window, m)) == m
  {
  }

  /** What the user can do to the mode: toggle it or set it. */
  datatype Change = ToggleMode | SetMode(mode: Mode)

  /** The provider's state: the mode and the browser it has written to. */
  datatype ThemeState = ThemeState(mode: Mode, window: Option<Window>)

  /** Storage agrees with the mode on screen. */
  predicate InStorage(s: ThemeState) {
    s.window.Some? ==> StoredMode(s.window.value.storage) == Some(s.mode)
  }

  /** The provider once mounted: the initial mode, already written back. */
  function Mount(window: Option<Window>): (r: ThemeState)
    ensures r.mode == InitialMode(window)
    ensures InStorage(r) && (r.window.Some? <==> window.Some?)
  {
    var m := InitialMode(window);
    ThemeState(m, Persist(window, m))
  }

  /** One change followed by the storage effect. */
  function Apply(s: ThemeState, c: Change): (r: ThemeState)
    ensures c.ToggleMode? ==> r.mode == Toggle(s.mode)
    ensures c.SetMode? ==> r.mode == c.mode
    ensures InStorage(r) && (r.window.Some? <==> s.window.Some?)
  {
    var m := match c
      case ToggleMode => Toggle(s.mode)
      case SetMode(mode) => mode;
    ThemeState(m, Persist(s.window, m))
  }

  function ApplyAll(s: ThemeState, changes: seq<Change>): ThemeState
    decreases |changes|
  {
    if changes == [] then s else ApplyAll(Apply(s, changes[0]), changes[1..])
  }

  /**
   * Whatever the user does after the provider mounts, storage holds the mode on
   * screen, so a reload in the same browser comes back in that mode.
   */
  lemma {:induction false} ReloadKeepsMode(window: Option<Window>, changes: seq<Change>)
    requires window.Some?
    ensures InStorage(ApplyAll(Mount(window), changes))
    ensures InitialMode(ApplyAll(Mount(window), changes).window) == ApplyAll(Mount(window), changes).mode
  {
    ChangesKeepStorage(Mount(window), changes);
    WindowStays(Mount(window), changes);
  }

  lemma {:induction false} ChangesKeepStorage(s: ThemeState, changes: seq<Change>)
    requires InStorage(s)
    ensures InStorage(ApplyAll(s, changes))
    decreases |changes|
  {
    if changes != [] {
      ChangesKeepStorage(Apply(s, changes[0]), changes[1..]);
    }
  }

  lemma {:induction false} WindowStays(s: ThemeState, changes: seq<Change>)
    ensures ApplyAll(s, changes).window.Some? <==> s.window.Some?
    decreases |changes|
  {
    if changes != [] {
      WindowStays(Apply(s, changes[0]), changes[1..]);
    }
  }

  datatype Algorithm = DarkAlgorithm | DefaultAlgorithm

  datatype Palette = Palette(colorPrimary: string, colorBgBase: string, colorTextBase: string, colorBorder: string)

  datatype ThemeConfig = ThemeConfig(algorithm: Algorithm, token: Palette)

  const DarkPalette := Palette("#6366f1", "#0b1220", "#e2e8f0", "#1f2937")
  const LightPalette := Palette("#4f46e5", "#f8fafc", "#0f172a", "#e2e8f0")

  /** The configuration handed to the component library for a mode. */
  function ConfigFor(m: Mode): (r: ThemeConfig)
    ensures r.algorithm == DarkAlgorithm <==> m == Dark
    ensures r.token == (if m == Dark then DarkPalette else LightPalette)
  {
    if m == Dark then ThemeConfig(DarkAlgorithm, DarkPalette) else ThemeConfig(DefaultAlgorithm, LightPalette)
  }

  /** The configuration tells the modes apart. */
  lemma ConfigDeterminesMode(a: Mode, b: Mode)
    ensures ConfigFor(a) == ConfigFor(b) ==> a == b
  {
  }
}
