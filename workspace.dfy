/**
 * The workspace configuration: grid strings for the window manager, the
 * displays that are available, and layers that own named windows. Output
 * written to the console while configuring is not modelled.
 */
module Workspace {

  import opened Wrappers
  import opened Strings

  // ---------------------------------------------------------------------------
  // Records

  /** A display as reported by the window manager. */
  datatype YabaiDisplay = YabaiDisplay(index: int)

  /** A window as reported by the window manager. */
  datatype YabaiWindow = YabaiWindow(id: int, app: String, title: String, display: int, isMinimized: bool)

  /** A configured display bound to an available one. */
  datatype Display = Display(name: String, index: int, mainLayer: String, yabaiDisplay: YabaiDisplay)

  datatype Layout = Grid | Stack

  /** Why configuring failed; each case is one exception of the source. */
  datatype ConfigError =
    | GridKeyMissing(key: String)
    | GridValueOutOfRange(key: String)
    | GridColumnsExceeded
    | GridRowsExceeded
    | DisplayIndexMissing(display: String)
    | DisplayMainLayerMissing(display: String)
    | LayerWindowsMissing(layer: String)
    | LayerDisplayMissing(layer: String)
    | NoValidDisplay(layer: String)
    | WindowAppAndTitleMissing(window: String)
    | DuplicateWindow(window: String, layer: String)

  // ---------------------------------------------------------------------------
  // Grid strings

  type GridConfig = map<String, int>

  /** The grid used for every window of a stack layout and as the base of a grid layout. */
  const DefaultGrid: GridConfig :=
    map["rows" := 1, "cols" := 1, "offset-x" := 0, "offset-y" := 0, "width" := 1, "height" := 1]

  const GridKeys: seq<String> := ["rows", "cols", "offset-x", "offset-y", "width", "height"]

  /** The conditions under which `buildGrid` returns instead of throwing. */
  predicate GridValid(g: GridConfig) {
    && GridValuesInRange(g)
    && g["width"] + g["offset-x"] <= g["cols"]
    && g["height"] + g["offset-y"] <= g["rows"]
  }

  /** All six values present and each within its own bound. */
  predicate GridValuesInRange(g: GridConfig) {
    && (forall k :: k in GridKeys ==> k in g)
    && g["rows"] >= 1 && g["cols"] >= 1
    && g["offset-x"] >= 0 && g["offset-y"] >= 0
    && g["width"] >= 1 && g["height"] >= 1
  }

  /** `buildGrid`: validate the six values in order and render them as `rows:cols:offset-x:offset-y:width:height`. */
  function BuildGrid(g: GridConfig): (r: Result<String, ConfigError>)
    ensures r.Success? <==> GridValid(g)
    ensures r.Success? ==> r.value == Join(seq(6, i requires 0 <= i < 6 => NatToString(g[GridKeys[i]])), ":")
    // the checks run in the order of the fields, so the first offending field is the one reported
    ensures "rows" !in g ==> r == Failure(GridKeyMissing("rows"))
    ensures "rows" in g && g["rows"] < 1 ==> r == Failure(GridValueOutOfRange("rows"))
    ensures r.Failure? && GridValuesInRange(g) ==> r.error in {GridColumnsExceeded, GridRowsExceeded}
  {
    if "rows" !in g then Failure(GridKeyMissing("rows"))
    else if g["rows"] < 1 then Failure(GridValueOutOfRange("rows"))
    else if "cols" !in g then Failure(GridKeyMissing("cols"))
    else if g["cols"] < 1 then Failure(GridValueOutOfRange("cols"))
    else if "offset-x" !in g then Failure(GridKeyMissing("offset-x"))
    else if g["offset-x"] < 0 then Failure(GridValueOutOfRange("offset-x"))
    else if "offset-y" !in g then Failure(GridKeyMissing("offset-y"))
    else if g["offset-y"] < 0 then Failure(GridValueOutOfRange("offset-y"))
    else if "width" !in g then Failure(GridKeyMissing("width"))
    else if g["width"] < 1 then Failure(GridValueOutOfRange("width"))
    else if "height" !in g then Failure(GridKeyMissing("height"))
    else if g["height"] < 1 then Failure(GridValueOutOfRange("height"))
    else if g["width"] + g["offset-x"] > g["cols"] then Failure(GridColumnsExceeded)
    else if g["height"] + g["offset-y"] > g["rows"] then Failure(GridRowsExceeded)
    else
      var fields := seq(6, i requires 0 <= i < 6 => NatToString(g[GridKeys[i]]));
      assert forall k :: k in GridKeys ==> k in g by {
        assert GridKeys == ["rows", "cols", "offset-x", "offset-y", "width", "height"];
      }
      Success(Join(fields, ":"))
  }

  /** The grid string splits back on `:` into six decimal fields holding the six values in order. */
  lemma GridStringRoundTrip(g: GridConfig)
    requires GridValid(g)
    ensures var fields := Split(BuildGrid(g).value, ':');
      |fields| == 6 && forall i :: 0 <= i < 6 ==> DigitsValue(fields[i]) == g[GridKeys[i]]
  {
    var fields := seq(6, i requires 0 <= i < 6 => NatToString(g[GridKeys[i]]));
    forall i | 0 <= i < 6 ensures ':' !in fields[i] {
      assert forall j :: 0 <= j < |fields[i]| ==> fields[i][j] != ':';
    }
    SplitJoin(fields, ':');
  }

  /** The default grid is valid and renders as `1:1:0:0:1:1`. */
  lemma DefaultGridString()
    ensures BuildGrid(DefaultGrid) == Success("1:1:0:0:1:1")
  {
    DefaultGridValid();
    var fields := DefaultGridFields();
    JoinSix(fields, ":");
    assert Join(fields, ":") == "1:1:0:0:1:1";
  }

  lemma DefaultGridValid()
    ensures GridValid(DefaultGrid)
  {
    assert GridKeys == ["rows", "cols", "offset-x", "offset-y", "width", "height"];
  }

  lemma DefaultGridFields() returns (fields: seq<String>)
    ensures fields == seq(6, i requires 0 <= i < 6 => NatToString(DefaultGrid[GridKeys[i]]))
    ensures fields == ["1", "1", "0", "0", "1", "1"]
  {
    fields := seq(6, i requires 0 <= i < 6 => NatToString(DefaultGrid[GridKeys[i]]));
    assert NatToString(0) == "0" && NatToString(1) == "1";
  }

  /** Six fields joined with `:`, written out. */
  lemma JoinSix(fields: seq<String>, sep: String)
    requires |fields| == 6
    ensures Join(fields, sep) ==
      fields[0] + sep + fields[1] + sep + fields[2] + sep + fields[3] + sep + fields[4] + sep + fields[5]
  {
    var j5 := Join(fields[5..], sep);
    assert j5 == fields[5];
    var j4 := Join(fields[4..], sep);
    assert fields[4..][1..] == fields[5..];
    assert j4 == fields[4] + sep + j5;
    var j3 := Join(fields[3..], sep);
    assert fields[3..][1..] == fields[4..];
    assert j3 == fields[3] + sep + j4;
    var j2 := Join(fields[2..], sep);
    assert fields[2..][1..] == fields[3..];
    assert j2 == fields[2] + sep + j3;
    var j1 := Join(fields[1..], sep);
    assert fields[1..][1..] == fields[2..];
    assert j1 == fields[1] + sep + j2;
    assert Join(fields, sep) == fields[0] + sep + j1;
  }

  // ---------------------------------------------------------------------------
  // Displays

  datatype DisplayConfig = DisplayConfig(index: Option<int>, mainLayer: Option<String>)

  /** `configureDisplay`: `None` when the configured index is not among the available displays. */
  function ConfigureDisplay(name: String, config: DisplayConfig, available: map<int, YabaiDisplay>)
    : (r: Result<Option<Display>, ConfigError>)
    ensures config.index.None? ==> r == Failure(DisplayIndexMissing(name))
    ensures config.index.Some? && config.mainLayer.None? ==> r == Failure(DisplayMainLayerMissing(name))
    ensures r.Success? ==> (r.value.Some? <==> config.index.value in available)
    ensures r.Success? && r.value.Some? ==>
      r.value.value == Display(name, config.index.value, config.mainLayer.value, available[config.index.value])
  {
    if config.index.None? then Failure(DisplayIndexMissing(name))
    else if config.mainLayer.None? then Failure(DisplayMainLayerMissing(name))
    else if config.index.value !in available then Success(None)
    else
      var i := config.index.value;
      Success(Some(Display(name, i, config.mainLayer.value, available[i])))
  }

  predicate DisplayConfigComplete(c: DisplayConfig) { c.index.Some? && c.mainLayer.Some? }

  /** The configured displays whose index is available, in configuration order. */
  function AvailableDisplays(configs: seq<(String, DisplayConfig)>, available: map<int, YabaiDisplay>)
    : seq<(String, Display)>
  {
    if configs == [] then []
    else
      var (name, c) := configs[|configs| - 1];
      AvailableDisplays(configs[..|configs| - 1], available) +
      (if c.index.Some? && c.mainLayer.Some? && c.index.value in available
       then [(name, Display(name, c.index.value, c.mainLayer.value, available[c.index.value]))]
       else [])
  }

  /** `configureDisplays`: configure each display in order, dropping the unavailable ones. */
  method ConfigureDisplays(configs: seq<(String, DisplayConfig)>, available: map<int, YabaiDisplay>)
    returns (r: Result<seq<(String, Display)>, ConfigError>)
    ensures r.Success? <==> forall i :: 0 <= i < |configs| ==> DisplayConfigComplete(configs[i].1)
    ensures r.Success? ==> r.value == AvailableDisplays(configs, available)
    // the error is the one of the first incomplete display
    ensures r.Failure? ==>
      (exists i :: 0 <= i < |configs| && !DisplayConfigComplete(configs[i].1) &&
        (forall j :: 0 <= j < i ==> DisplayConfigComplete(configs[j].1)) &&
        r == Failure(ConfigureDisplay(configs[i].0, configs[i].1, available).error))
  {
    var list := [];
    var i := 0;
    while i < |configs|
      invariant 0 <= i <= |configs|
      invariant forall j :: 0 <= j < i ==> DisplayConfigComplete(configs[j].1)
      invariant list == AvailableDisplays(configs[..i], available)
    {
      var (name, c) := configs[i];
      var d := ConfigureDisplay(name, c, available);
      if d.Failure? {
        return Failure(d.error);
      }
      if d.value.Some? {
        list := list + [(name, d.value.value)];
      }
      assert configs[..i + 1][..i] == configs[..i];
      i := i + 1;
    }
    assert configs[..i] == configs;
    r := Success(list);
  }

  /** Every display kept by `configureDisplays` is bound to the available display of its index. */
  lemma {:induction false} AvailableDisplaysBound(configs: seq<(String, DisplayConfig)>, available: map<int, YabaiDisplay>)
    ensures forall e :: e in AvailableDisplays(configs, available) ==>
      e.1.index in available && e.1.yabaiDisplay == available[e.1.index] && e.0 == e.1.name
    ensures |AvailableDisplays(configs, available)| <= |configs|
  {
    if configs != [] {
      AvailableDisplaysBound(configs[..|configs| - 1], available);
    }
  }

  // ---------------------------------------------------------------------------
  // Windows and layers

  /** A window of a layer; it matches running windows by application or by title. */
  class Window {
    const name: String
    const app: Option<String>
    const title: Option<String>
    const yabaiGrid: String
    var yabaiWindow: Option<YabaiWindow>
    /** The layer owning the window; `null` until the window is added to one. */
    var layer: Layer?

    /** Only reached through `NewWindow`, which performs the constructor's check. */
    constructor(name: String, app: Option<String>, title: Option<String>, yabaiGrid: String)
      requires app.Some? || title.Some?
      ensures this.name == name && this.app == app && this.title == title && this.yabaiGrid == yabaiGrid
      ensures yabaiWindow == None && layer == null
    {
      this.name := name;
      this.app := app;
      this.title := title;
      this.yabaiGrid := yabaiGrid;
      yabaiWindow := None;
      layer := null;
    }

    /** `matches`: the application or the title equals that of the running window. */
    function Matches(w: YabaiWindow): (r: bool)
      ensures app.Some? && app.value == w.app ==> r
      ensures title.Some? && title.value == w.title ==> r
      ensures r ==> (app.Some? && app.value == w.app) || (title.Some? && title.value == w.title)
    {
      (app.Some? && app.value == w.app) || (title.Some? && title.value == w.title)
    }

    method SetLayer(l: Layer)
      modifies this`layer
      ensures layer == l
    {
      layer := l;
    }
  }

  /** The window constructor: an application or a title is required. */
  method NewWindow(name: String, app: Option<String>, title: Option<String>, yabaiGrid: String)
    returns (r: Result<Window, ConfigError>)
    ensures r.Failure? <==> app.None? && title.None?
    ensures r.Failure? ==> r.error == WindowAppAndTitleMissing(name)
    ensures r.Success? ==>
      (fresh(r.value) && Plan(r.value) == WindowPlan(name, app, title, yabaiGrid) &&
       r.value.yabaiWindow == None && r.value.layer == null)
  {
    if app.None? && title.None? {
      return Failure(WindowAppAndTitleMissing(name));
    }
    var w := new Window(name, app, title, yabaiGrid);
    r := Success(w);
  }

  /** The constant part of a window: what configuring a layer decides about it. */
  datatype WindowPlan = WindowPlan(name: String, app: Option<String>, title: Option<String>, grid: String)

  function Plan(w: Window): WindowPlan {
    WindowPlan(w.name, w.app, w.title, w.yabaiGrid)
  }

  function Plans(ws: seq<Window>): (r: seq<WindowPlan>)
    ensures |r| == |ws| && forall i :: 0 <= i < |ws| ==> r[i] == Plan(ws[i])
  {
    seq(|ws|, i requires 0 <= i < |ws| => Plan(ws[i]))
  }

  /** The window of a list stored under `n`, if any. */
  function Lookup(ws: seq<Window>, n: String): (r: Option<Window>)
    ensures r.None? <==> forall i :: 0 <= i < |ws| ==> ws[i].name != n
    ensures r.Some? ==> r.value in ws && r.value.name == n
  {
    if ws == [] then None
    else if ws[0].name == n then Some(ws[0])
    else Lookup(ws[1..], n)
  }

  predicate NamesDistinct(ws: seq<WindowPlan>) {
    forall i, j :: 0 <= i < j < |ws| ==> ws[i].name != ws[j].name
  }

  /** A set of windows keyed by name, in insertion order, shown on one display. */
  class Layer {
    const name: String
    const layout: Layout
    const display: Display
    var windows: seq<Window>

    /** Window names are keys: no two windows share one. */
    predicate Valid()
      reads this
    {
      NamesDistinct(Plans(windows))
    }

    constructor(name: String, layout: Layout, display: Display)
      ensures this.name == name && this.layout == layout && this.display == display
      ensures windows == [] && Valid()
    {
      this.name := name;
      this.layout := layout;
      this.display := display;
      windows := [];
    }

    /**
     * `addWindow`: a window whose name is taken is refused; otherwise it is
     * appended, can be found under its name, and belongs to this layer.
     */
    method AddWindow(w: Window) returns (r: Result<(), ConfigError>)
      requires Valid()
      modifies this, w
      ensures Valid()
      ensures Lookup(old(windows), w.name).Some? ==>
        r == Failure(DuplicateWindow(w.name, name)) && windows == old(windows) && w.layer == old(w.layer)
      ensures Lookup(old(windows), w.name).None? ==>
        r.Success? && windows == old(windows) + [w] && w.layer == this &&
        w !in old(windows) && Lookup(windows, w.name) == Some(w)
      ensures w.yabaiWindow == old(w.yabaiWindow)
    {
      if Lookup(windows, w.name).Some? {
        return Failure(DuplicateWindow(w.name, name));
      }
      LookupAppend(windows, w);
      windows := windows + [w];
      w.layer := this;
      r := Success(());
    }

    /** `getWindows`: the windows in insertion order. */
    function GetWindows(): (r: seq<Window>)
      reads this
      requires Valid()
      ensures NamesDistinct(Plans(r))
      ensures forall w :: w in r ==> Lookup(r, w.name) == Some(w)
    {
      LookupDistinct(windows);
      windows
    }
  }

  lemma {:induction false} LookupAppend(ws: seq<Window>, w: Window)
    requires Lookup(ws, w.name).None?
    ensures Lookup(ws + [w], w.name) == Some(w)
  {
    if ws != [] {
      assert (ws + [w])[1..] == ws[1..] + [w];
      LookupAppend(ws[1..], w);
    }
  }

  /** With distinct names, every window is the one stored under its name. */
  lemma {:induction false} LookupDistinct(ws: seq<Window>)
    requires NamesDistinct(Plans(ws))
    ensures forall w :: w in ws ==> Lookup(ws, w.name) == Some(w)
  {
    if ws != [] {
      assert Plans(ws[1..]) == Plans(ws)[1..];
      LookupDistinct(ws[1..]);
      forall w | w in ws ensures Lookup(ws, w.name) == Some(w) {
        if w != ws[0] {
          var k :| 0 <= k < |ws| && ws[k] == w;
          assert Plans(ws)[0].name != Plans(ws)[k].name;
        }
      }
    }
  }

  // ---------------------------------------------------------------------------
  // Layer configuration

  datatype WindowConfig = WindowConfig(app: Option<String>, title: Option<String>, grid: Option<GridConfig>)

  /** The `display` entry of a layer: one display name, or a list of them in order of preference. */
  datatype DisplayPreference = OneDisplay(display: String) | DisplayList(displays: seq<String>)

  datatype LayerConfig = LayerConfig(
    windows: Option<seq<(String, WindowConfig)>>,
    display: Option<DisplayPreference>,
    layout: Option<String>,
    grid: Option<GridConfig>)

  /** `Layout::tryFrom`. */
  function LayoutFrom(s: String): Option<Layout> {
    if s == "grid" then Some(Grid) else if s == "stack" then Some(Stack) else None
  }

  /** An unknown or missing layout is a stack. */
  function LayerLayout(c: LayerConfig): (r: Layout)
    ensures r == Grid <==> c.layout == Some("grid")
  {
    LayoutFrom(c.layout.GetOr("")).GetOr(Stack)
  }

  function Preferences(p: DisplayPreference): (r: seq<String>)
    ensures p.OneDisplay? ==> r == [p.display]
  {
    match p
    case OneDisplay(d) => [d]
    case DisplayList(ds) => ds
  }

  /** The first preferred display that is available. */
  function SelectDisplay(prefs: seq<String>, displays: map<String, Display>): (r: Option<Display>)
    ensures r.None? <==> forall i :: 0 <= i < |prefs| ==> prefs[i] !in displays
    ensures r.Some? ==>
      (exists i :: 0 <= i < |prefs| && prefs[i] in displays && r.value == displays[prefs[i]] &&
        forall j :: 0 <= j < i ==> prefs[j] !in displays)
  {
    if prefs == [] then None
    else if prefs[0] in displays then Some(displays[prefs[0]])
    else
      SelectDisplay(prefs[1..], displays)
  }

  /** The grid of a window of a grid layout: the default, overridden by the layer's, overridden by the window's. */
  function MergeGrid(layerGrid: Option<GridConfig>, windowGrid: Option<GridConfig>): (r: GridConfig)
    ensures forall k :: k in r <==>
      (k in DefaultGrid || (layerGrid.Some? && k in layerGrid.value) || (windowGrid.Some? && k in windowGrid.value))
    ensures forall k :: windowGrid.Some? && k in windowGrid.value ==> r[k] == windowGrid.value[k]
    ensures forall k :: layerGrid.Some? && k in layerGrid.value && !(windowGrid.Some? && k in windowGrid.value) ==>
      r[k] == layerGrid.value[k]
  {
    DefaultGrid + layerGrid.GetOr(map[]) + windowGrid.GetOr(map[])
  }

  /** The grid string of one window: the default grid for a stack, the merged grid for a grid layout. */
  function WindowGrid(layout: Layout, layerGrid: Option<GridConfig>, windowGrid: Option<GridConfig>)
    : (r: Result<String, ConfigError>)
    ensures layout == Stack ==> r == Success("1:1:0:0:1:1")
    ensures layout == Grid ==> r == BuildGrid(MergeGrid(layerGrid, windowGrid))
  {
    DefaultGridString();
    match layout
    case Grid => BuildGrid(MergeGrid(layerGrid, windowGrid))
    case Stack => BuildGrid(DefaultGrid)
  }

  /** The grid string, or the grid error, of every window entry of a layer, in order. */
  function WindowGrids(entries: seq<(String, WindowConfig)>, layout: Layout, layerGrid: Option<GridConfig>)
    : seq<Result<String, ConfigError>>
  {
    seq(|entries|, i requires 0 <= i < |entries| => WindowGrid(layout, layerGrid, entries[i].1.grid))
  }

  /**
   * One window of the loop, given the outcome of building its grid: the grid error comes first,
   * then the window's own check, then the duplicate-name check.
   */
  function PlanWindow(entry: (String, WindowConfig), grid: Result<String, ConfigError>, layerName: String,
                      earlier: seq<WindowPlan>): Result<WindowPlan, ConfigError>
  {
    var (wname, wc) := entry;
    match grid
    case Failure(e) => Failure(e)
    case Success(g) =>
      if wc.app.None? && wc.title.None? then Failure(WindowAppAndTitleMissing(wname))
      else if NameTaken(earlier, wname) then Failure(DuplicateWindow(wname, layerName))
      else Success(WindowPlan(wname, wc.app, wc.title, g))
  }

  predicate NameTaken(ps: seq<WindowPlan>, n: String) {
    exists k :: 0 <= k < |ps| && ps[k].name == n
  }

  /** The windows configured by the first `n` entries, or the first error among them. */
  function PlanWindows(entries: seq<(String, WindowConfig)>, grids: seq<Result<String, ConfigError>>,
                       layerName: String, n: nat): Result<seq<WindowPlan>, ConfigError>
    requires n <= |entries| && n <= |grids|
  {
    if n == 0 then Success([])
    else
      match PlanWindows(entries, grids, layerName, n - 1)
      case Failure(e) => Failure(e)
      case Success(ps) =>
        match PlanWindow(entries[n - 1], grids[n - 1], layerName, ps)
        case Failure(e) => Failure(e)
        case Success(p) => Success(ps + [p])
  }

  datatype LayerPlan = LayerPlan(layout: Layout, display: Display, windows: seq<WindowPlan>)

  /** Everything `configureLayer` decides, with its exceptions as errors in the order they are raised. */
  function PlanLayer(name: String, config: LayerConfig, displays: map<String, Display>): (r: Result<LayerPlan, ConfigError>)
    ensures config.windows.None? ==> r == Failure(LayerWindowsMissing(name))
    ensures config.windows.Some? && config.display.None? ==> r == Failure(LayerDisplayMissing(name))
    ensures (config.windows.Some? && config.display.Some? &&
             SelectDisplay(Preferences(config.display.value), displays).None?) ==> r == Failure(NoValidDisplay(name))
    ensures r.Success? ==>
      (r.value.layout == LayerLayout(config) &&
       Some(r.value.display) == SelectDisplay(Preferences(config.display.value), displays))
  {
    if config.windows.None? then Failure(LayerWindowsMissing(name))
    else if config.display.None? then Failure(LayerDisplayMissing(name))
    else
      var layout := LayerLayout(config);
      match SelectDisplay(Preferences(config.display.value), displays)
      case None => Failure(NoValidDisplay(name))
      case Some(d) =>
        var entries := config.windows.value;
        match PlanWindows(entries, WindowGrids(entries, layout, config.grid), name, |entries|)
        case Failure(e) => Failure(e)
        case Success(ws) => Success(LayerPlan(layout, d, ws))
  }

  /** Once an entry fails, the rest of the loop is never reached: the error stays. */
  lemma {:induction false} PlanWindowsFailureStays(entries: seq<(String, WindowConfig)>,
                                                   grids: seq<Result<String, ConfigError>>, layerName: String,
                                                   n: nat, m: nat)
    requires n <= m <= |entries| && m <= |grids|
    requires PlanWindows(entries, grids, layerName, n).Failure?
    ensures PlanWindows(entries, grids, layerName, m) == PlanWindows(entries, grids, layerName, n)
    decreases m - n
  {
    if n < m {
      PlanWindowsFailureStays(entries, grids, layerName, n, m - 1);
    }
  }

  /** The plan `p` is what the configuration `entry` asks for, with the grid built for it. */
  predicate PlanMatches(p: WindowPlan, entry: (String, WindowConfig), grid: Result<String, ConfigError>) {
    p.name == entry.0 && p.app == entry.1.app && p.title == entry.1.title &&
    (p.app.Some? || p.title.Some?) && Success(p.grid) == grid
  }

  /** A configured layer has one window per entry, and no two of its windows share a name. */
  lemma {:induction false} PlanWindowsDistinct(entries: seq<(String, WindowConfig)>,
                                               grids: seq<Result<String, ConfigError>>, layerName: String, n: nat)
    requires n <= |entries| && n <= |grids|
    requires PlanWindows(entries, grids, layerName, n).Success?
    ensures var ps := PlanWindows(entries, grids, layerName, n).value;
      |ps| == n && NamesDistinct(ps)
  {
    if n > 0 {
      var prev, p := PlanWindowsStep(entries, grids, layerName, n);
      PlanWindowsDistinct(entries, grids, layerName, n - 1);
      AppendDistinct(prev, p);
    }
  }

  /**
   * Window `i` of a configured layer is entry `i`: named by its key, with its app and title
   * (at least one of them given), and with the grid built for it.
   */
  lemma {:induction false} PlanWindowsMatch(entries: seq<(String, WindowConfig)>,
                                            grids: seq<Result<String, ConfigError>>, layerName: String, n: nat)
    requires n <= |entries| && n <= |grids|
    requires PlanWindows(entries, grids, layerName, n).Success?
    ensures var ps := PlanWindows(entries, grids, layerName, n).value;
      |ps| == n && forall i :: 0 <= i < n ==> PlanMatches(ps[i], entries[i], grids[i])
  {
    if n > 0 {
      var prev, p := PlanWindowsStep(entries, grids, layerName, n);
      PlanWindowsMatch(entries, grids, layerName, n - 1);
      AppendMatches(prev, p, entries, grids, n);
    }
  }

  /** The last step of a successful `PlanWindows`: the earlier plans and the one appended. */
  lemma PlanWindowsStep(entries: seq<(String, WindowConfig)>, grids: seq<Result<String, ConfigError>>,
                        layerName: String, n: nat)
    returns (prev: seq<WindowPlan>, p: WindowPlan)
    requires 0 < n <= |entries| && n <= |grids|
    requires PlanWindows(entries, grids, layerName, n).Success?
    ensures PlanWindows(entries, grids, layerName, n - 1) == Success(prev)
    ensures PlanWindows(entries, grids, layerName, n).value == prev + [p]
    ensures !NameTaken(prev, p.name) && PlanMatches(p, entries[n - 1], grids[n - 1])
  {
    prev := PlanWindows(entries, grids, layerName, n - 1).value;
    p := PlanWindow(entries[n - 1], grids[n - 1], layerName, prev).value;
  }

  /** Appending the plan of entry `n - 1` to the plans of the entries before it. */
  lemma AppendMatches(prev: seq<WindowPlan>, p: WindowPlan, entries: seq<(String, WindowConfig)>,
                      grids: seq<Result<String, ConfigError>>, n: nat)
    requires 0 < n <= |entries| && n <= |grids| && |prev| == n - 1
    requires forall i :: 0 <= i < n - 1 ==> PlanMatches(prev[i], entries[i], grids[i])
    requires PlanMatches(p, entries[n - 1], grids[n - 1])
    ensures forall i :: 0 <= i < n ==> PlanMatches((prev + [p])[i], entries[i], grids[i])
  {
    var ps := prev + [p];
    forall i | 0 <= i < n ensures PlanMatches(ps[i], entries[i], grids[i]) {
      if i < n - 1 {
        assert ps[i] == prev[i];
      }
    }
  }

  /** Appending a window whose name is not taken keeps the names distinct. */
  lemma AppendDistinct(prev: seq<WindowPlan>, p: WindowPlan)
    requires NamesDistinct(prev) && !NameTaken(prev, p.name)
    ensures NamesDistinct(prev + [p])
  {
    var ps := prev + [p];
    forall i, j | 0 <= i < j < |ps| ensures ps[i].name != ps[j].name {
      if j == |prev| {
        assert ps[i] == prev[i];
      }
    }
  }

  /** In a stack layout every window gets the default grid `1:1:0:0:1:1`. */
  lemma StackLayerUsesDefaultGrid(name: String, config: LayerConfig, displays: map<String, Display>)
    requires PlanLayer(name, config, displays).Success?
    requires LayerLayout(config) == Stack
    ensures forall p :: p in PlanLayer(name, config, displays).value.windows ==> p.grid == "1:1:0:0:1:1"
  {
    var entries := config.windows.value;
    var grids := WindowGrids(entries, Stack, config.grid);
    PlanWindowsMatch(entries, grids, name, |entries|);
    forall i | 0 <= i < |entries| ensures grids[i] == Success("1:1:0:0:1:1") {
      assert grids[i] == WindowGrid(Stack, config.grid, entries[i].1.grid);
    }
  }

  /** One more step of `PlanWindows` from a successful prefix. */
  lemma PlanWindowsNext(entries: seq<(String, WindowConfig)>, grids: seq<Result<String, ConfigError>>,
                        layerName: String, i: nat, ps: seq<WindowPlan>)
    requires i < |entries| && i < |grids|
    requires PlanWindows(entries, grids, layerName, i) == Success(ps)
    ensures PlanWindow(entries[i], grids[i], layerName, ps).Failure? ==>
      PlanWindows(entries, grids, layerName, i + 1) == Failure(PlanWindow(entries[i], grids[i], layerName, ps).error)
    ensures PlanWindow(entries[i], grids[i], layerName, ps).Success? ==>
      PlanWindows(entries, grids, layerName, i + 1) == Success(ps + [PlanWindow(entries[i], grids[i], layerName, ps).value])
  {
  }

  /** A name is taken among the plans of a window list exactly when the list has a window under it. */
  lemma TakenIffFound(ws: seq<Window>, n: String)
    ensures NameTaken(Plans(ws), n) <==> Lookup(ws, n).Some?
  {
    if Lookup(ws, n).Some? {
      var k :| 0 <= k < |ws| && ws[k] == Lookup(ws, n).value;
      assert Plans(ws)[k].name == n;
    }
  }

  /** The display-preference loop of `configureLayer`: the first preferred display that is available. */
  method ChooseDisplay(prefs: seq<String>, displays: map<String, Display>) returns (display: Option<Display>)
    ensures display == SelectDisplay(prefs, displays)
  {
    display := None;
    var k := 0;
    while k < |prefs|
      invariant 0 <= k <= |prefs|
      invariant display.None? ==> forall j :: 0 <= j < k ==> prefs[j] !in displays
      invariant display.Some? ==> display == SelectDisplay(prefs, displays)
    {
      if prefs[k] !in displays {
        k := k + 1;
        continue;
      }
      display := Some(displays[prefs[k]]);
      break;
    }
  }

  /** `configureLayer`: the layer is built as `PlanLayer` describes, with every window owned by it. */
  method ConfigureLayer(name: String, config: LayerConfig, displays: map<String, Display>)
    returns (r: Result<Layer, ConfigError>)
    ensures r.Failure? <==> PlanLayer(name, config, displays).Failure?
    ensures r.Failure? ==> r.error == PlanLayer(name, config, displays).error
    ensures r.Success? ==>
      (fresh(r.value) && r.value.Valid() &&
       var plan := PlanLayer(name, config, displays).value;
       r.value.name == name && r.value.layout == plan.layout && r.value.display == plan.display &&
       Plans(r.value.windows) == plan.windows &&
       forall w :: w in r.value.windows ==> fresh(w) && w.layer == r.value && w.yabaiWindow == None)
  {
    if config.windows.None? {
      return Failure(LayerWindowsMissing(name));
    }
    if config.display.None? {
      return Failure(LayerDisplayMissing(name));
    }
    var layout := LayerLayout(config);
    var display := ChooseDisplay(Preferences(config.display.value), displays);
    if display.None? {
      return Failure(NoValidDisplay(name));
    }
    var layer := new Layer(name, layout, display.value);
    var added := AddWindows(layer, config.windows.value, config.grid);
    if added.Failure? {
      return Failure(added.error);
    }
    r := Success(layer);
  }

  /**
   * The window loop of `configureLayer`: for each entry in order, build its grid, create the
   * window and add it to the new layer, stopping at the first error.
   */
  method AddWindows(layer: Layer, entries: seq<(String, WindowConfig)>, layerGrid: Option<GridConfig>)
    returns (r: Result<(), ConfigError>)
    requires layer.windows == []
    modifies layer
    ensures var planned := PlanWindows(entries, WindowGrids(entries, layer.layout, layerGrid), layer.name, |entries|);
      && (r.Failure? <==> planned.Failure?)
      && (r.Failure? ==> r.error == planned.error)
      && (r.Success? ==>
           layer.Valid() && Plans(layer.windows) == planned.value &&
           forall w :: w in layer.windows ==> fresh(w) && w.layer == layer && w.yabaiWindow == None)
  {
    ghost var grids := WindowGrids(entries, layer.layout, layerGrid);
    var i := 0;
    while i < |entries|
      invariant 0 <= i <= |entries|
      invariant layer.Valid()
      invariant PlanWindows(entries, grids, layer.name, i) == Success(Plans(layer.windows))
      invariant forall w :: w in layer.windows ==> fresh(w) && w.layer == layer && w.yabaiWindow == None
    {
      PlanWindowsNext(entries, grids, layer.name, i, Plans(layer.windows));
      assert grids[i] == WindowGrid(layer.layout, layerGrid, entries[i].1.grid);
      ghost var windowsBefore := layer.windows;
      var added := AddEntry(layer, entries[i], layerGrid);
      if added.Failure? {
        PlanWindowsFailureStays(entries, grids, layer.name, i + 1, |entries|);
        return added;
      }
      forall v | v in layer.windows ensures fresh(v) && v.layer == layer && v.yabaiWindow == None {
        var k :| 0 <= k < |layer.windows| && layer.windows[k] == v;
        if k < |windowsBefore| {
          assert v == windowsBefore[k] && v in windowsBefore;
        }
      }
      i := i + 1;
    }
    r := Success(());
  }

  /** One pass of the window loop: build the entry's grid, create its window, add it to the layer. */
  method AddEntry(layer: Layer, entry: (String, WindowConfig), layerGrid: Option<GridConfig>)
    returns (r: Result<(), ConfigError>)
    requires layer.Valid()
    modifies layer
    ensures var planned := PlanWindow(entry, WindowGrid(layer.layout, layerGrid, entry.1.grid), layer.name,
                                      old(Plans(layer.windows)));
      && (r.Failure? <==> planned.Failure?)
      && (r.Failure? ==> r.error == planned.error)
      && (r.Success? ==>
           layer.Valid() && Plans(layer.windows) == old(Plans(layer.windows)) + [planned.value] &&
           |layer.windows| == |old(layer.windows)| + 1 && layer.windows[..|old(layer.windows)|] == old(layer.windows) &&
           var w := layer.windows[|old(layer.windows)|]; fresh(w) && w.layer == layer && w.yabaiWindow == None)
  {
    var (wname, wc) := entry;
    ghost var before := Plans(layer.windows);
    var grid := WindowGrid(layer.layout, layerGrid, wc.grid);
    if grid.Failure? {
      return Failure(grid.error);
    }
    var w := NewWindow(wname, wc.app, wc.title, grid.value);
    if w.Failure? {
      return Failure(w.error);
    }
    TakenIffFound(layer.windows, wname);
    var added := layer.AddWindow(w.value);
    if added.Failure? {
      return Failure(added.error);
    }
    assert Plans(layer.windows) == before + [Plan(w.value)];
    r := Success(());
  }

  /** The layer described by `plan`, with every window owned by it. */
  ghost predicate BuiltAs(l: Layer, name: String, plan: LayerPlan)
    reads l, l.windows
  {
    l.Valid() && l.name == name && l.layout == plan.layout && l.display == plan.display &&
    Plans(l.windows) == plan.windows && forall w :: w in l.windows ==> w.layer == l
  }

  /** Entry `j` of `list` is layer `j` of `configs`, built as planned. */
  ghost predicate LayerBuilt(list: seq<(String, Layer)>, configs: seq<(String, LayerConfig)>,
                             displays: map<String, Display>, j: nat)
    requires j < |list| && j < |configs|
    reads list[j].1, list[j].1.windows
  {
    && list[j].0 == configs[j].0
    && PlanLayer(configs[j].0, configs[j].1, displays).Success?
    && BuiltAs(list[j].1, configs[j].0, PlanLayer(configs[j].0, configs[j].1, displays).value)
  }

  /** `configureLayers`: configure every layer in order; the first failing layer's error is raised. */
  method ConfigureLayers(configs: seq<(String, LayerConfig)>, displays: map<String, Display>)
    returns (r: Result<seq<(String, Layer)>, ConfigError>)
    ensures r.Success? <==> forall i :: 0 <= i < |configs| ==> PlanLayer(configs[i].0, configs[i].1, displays).Success?
    ensures r.Failure? ==>
      (exists i :: 0 <= i < |configs| && PlanLayer(configs[i].0, configs[i].1, displays).Failure? &&
        r.error == PlanLayer(configs[i].0, configs[i].1, displays).error &&
        forall j :: 0 <= j < i ==> PlanLayer(configs[j].0, configs[j].1, displays).Success?)
    ensures r.Success? ==>
      (|r.value| == |configs| &&
       forall i :: 0 <= i < |configs| ==> fresh(r.value[i].1) && LayerBuilt(r.value, configs, displays, i))
  {
    var list: seq<(String, Layer)> := [];
    var i := 0;
    while i < |configs|
      invariant 0 <= i <= |configs|
      invariant |list| == i
      invariant forall j :: 0 <= j < i ==> fresh(list[j].1) && LayerBuilt(list, configs, displays, j)
    {
      var (name, config) := configs[i];
      var layer := ConfigureLayer(name, config, displays);
      if layer.Failure? {
        forall j | 0 <= j < i ensures PlanLayer(configs[j].0, configs[j].1, displays).Success? {
          assert LayerBuilt(list, configs, displays, j);
        }
        return Failure(layer.error);
      }
      ghost var before := list;
      list := list + [(name, layer.value)];
      forall j | 0 <= j < i + 1 ensures fresh(list[j].1) && LayerBuilt(list, configs, displays, j) {
        if j < i {
          assert list[j] == before[j];
          assert LayerBuilt(before, configs, displays, j);
        }
      }
      i := i + 1;
    }
    forall j | 0 <= j < i ensures PlanLayer(configs[j].0, configs[j].1, displays).Success? {
      assert LayerBuilt(list, configs, displays, j);
    }
    r := Success(list);
  }
}
