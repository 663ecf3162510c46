/**
 * The dock: each configured entry's effective app id, whether it is
 * running, its tooltip (wloverview.py only), and what a click does.
 */
module Dock {
  import opened Optional
  import opened Windows
  import opened Actions
  import opened Identity

  /** One element of the dock configuration list; each field is `e.get(key)`. */
  datatype DockEntry = DockEntry(
    title: Option<string>, icon: Option<string>, exec: Option<string>, appId: Option<string>)

  /** `e.get("app_id") or e.get("icon")`. */
  function EffectiveAppId(e: DockEntry): (r: Option<string>)
    ensures r == if Truthy(e.appId) then e.appId else e.icon
  {
    Or(e.appId, e.icon)
  }

  /** `is_running`: wloverview.py also demands `bool(app_id)`; wlroverview.py only membership. */
  predicate IsRunning(v: Variant, e: DockEntry, running: set<string>) {
    var id := EffectiveAppId(e);
    match v
    case WlOverview => Truthy(id) && id.value in running
    case WlrOverview => id.Some? && id.value in running
  }

  /** `e.get("title") or e.get("app_id") or e.get("icon")`; wlroverview.py sets no tooltip. */
  function Tooltip(v: Variant, e: DockEntry): (r: Option<string>)
    ensures v == WlrOverview ==> r == None
    ensures v == WlOverview && Truthy(e.title) ==> r == e.title
    ensures v == WlOverview && !Truthy(e.title) && Truthy(e.appId) ==> r == e.appId
    ensures v == WlOverview && !Truthy(e.title) && !Truthy(e.appId) ==> r == e.icon
  {
    if v == WlOverview then Or(e.title, Or(e.appId, e.icon)) else None
  }

  /** What the dock shows for an entry: its icon name, tooltip and running dot. */
  datatype DockButton = DockButton(entry: DockEntry, tooltip: Option<string>, running: bool)

  function ButtonFor(v: Variant, e: DockEntry, running: set<string>): DockButton {
    DockButton(e, Tooltip(v, e), IsRunning(v, e, running))
  }

  /** `build_dock`: no dock for an empty configuration, otherwise one button per entry, in order. */
  method BuildDock(v: Variant, cfg: seq<DockEntry>, wins: seq<Window>) returns (dock: Option<seq<DockButton>>)
    ensures dock.None? <==> cfg == []
    ensures dock.Some? ==> (|dock.value| == |cfg| &&
      forall i :: 0 <= i < |cfg| ==> dock.value[i] == ButtonFor(v, cfg[i], RunningAppIds(wins)))
  {
    if cfg == [] {
      return None;
    }
    var running := RunningAppIds(wins);
    var buttons: seq<DockButton> := [];
    var i := 0;
    while i < |cfg|
      invariant 0 <= i <= |cfg|
      invariant |buttons| == i
      invariant forall j :: 0 <= j < i ==> buttons[j] == ButtonFor(v, cfg[j], running)
    {
      var e := cfg[i];
      var id := Or(e.appId, e.icon);
      var isRunning := if v == WlOverview then Truthy(id) && id.value in running
                       else id.Some? && id.value in running;
      buttons := buttons + [DockButton(e, Tooltip(v, e), isRunning)];
      i := i + 1;
    }
    return Some(buttons);
  }

  /** An entry is running exactly when some live window carries its effective app id (non-empty, in wloverview.py). */
  lemma IsRunningIff(v: Variant, e: DockEntry, wins: seq<Window>)
    ensures IsRunning(v, e, RunningAppIds(wins)) <==>
      var id := EffectiveAppId(e);
      id.Some? && (v == WlOverview ==> id.value != "") &&
      exists i :: 0 <= i < |wins| && wins[i].appId == id.value
  {
  }

  /** The two programs disagree only for an entry whose effective id is `""` while some window reports an empty app id. */
  lemma RunningVariantsDiffer(e: DockEntry, running: set<string>)
    ensures IsRunning(WlOverview, e, running) ==> IsRunning(WlrOverview, e, running)
    ensures IsRunning(WlOverview, e, running) != IsRunning(WlrOverview, e, running) <==>
      EffectiveAppId(e) == Some("") && "" in running
  {
  }

  /** What a press with mouse `button` on entry `e` does. */
  function DockClickEvents(v: Variant, button: int, e: DockEntry, running: set<string>,
                           tokenize: string -> seq<string>): seq<Event>
  {
    match v
    case WlOverview => LaunchEvents(e.exec, tokenize)
    case WlrOverview =>
      if button == 2 then LaunchEvents(e.exec, tokenize)
      else if button == 1 then
        if IsRunning(v, e, running) then [Run(FocusCmd([MatchSpec("app_id", EffectiveAppId(e).value)])), CloseWindow]
        else LaunchEvents(e.exec, tokenize)
      else []
  }

  /** The `on_click` handler of a dock button. */
  method DockClick(ex: Executor, v: Variant, button: int, e: DockEntry, running: set<string>,
                   tokenize: string -> seq<string>)
    modifies ex
    ensures ex.log == old(ex.log) + DockClickEvents(v, button, e, running, tokenize)
  {
    if v == WlOverview {
      ex.Launch(e.exec, tokenize);
    } else if button == 2 {
      ex.Launch(e.exec, tokenize);
    } else if button == 1 {
      var id := Or(e.appId, e.icon);
      if id.Some? && id.value in running {
        ex.RunAndWait(FocusCmd([MatchSpec("app_id", id.value)]));
        ex.CloseOverlay();
      } else {
        ex.Launch(e.exec, tokenize);
      }
    }
  }

  /** In wloverview.py a dock click launches whatever the button and whether or not the app runs. */
  lemma WlClickIgnoresRunning(b1: int, b2: int, e: DockEntry, r1: set<string>, r2: set<string>,
                              tokenize: string -> seq<string>)
    ensures DockClickEvents(WlOverview, b1, e, r1, tokenize) == DockClickEvents(WlOverview, b2, e, r2, tokenize)
    ensures DockClickEvents(WlOverview, b1, e, r1, tokenize) == LaunchEvents(e.exec, tokenize)
  {
  }

  /**
   * In wlroverview.py: a middle click always launches; a left click focuses a
   * running app and never starts a process, or else launches; other buttons do
   * nothing. Every click that does something closes the overview last, and at
   * most one process is started.
   */
  lemma WlrClickPolicy(button: int, e: DockEntry, running: set<string>, tokenize: string -> seq<string>)
    ensures var es := DockClickEvents(WlrOverview, button, e, running, tokenize);
      (button == 2 ==> es == LaunchEvents(e.exec, tokenize)) &&
      (button == 1 && IsRunning(WlrOverview, e, running) ==>
        Processes(es) == 1 && es[0].Run? && es[0].argv == ["wlrctl", "toplevel", "focus", "app_id:" + EffectiveAppId(e).value] &&
        EffectiveAppId(e).value in running && (forall k :: 0 <= k < |es| ==> !es[k].Spawn?)) &&
      (button == 1 && !IsRunning(WlrOverview, e, running) ==> es == LaunchEvents(e.exec, tokenize)) &&
      (button != 1 && button != 2 ==> es == []) &&
      (es != [] ==> es[|es| - 1] == CloseWindow) &&
      Processes(es) <= 1
  {
    var es := DockClickEvents(WlrOverview, button, e, running, tokenize);
    LaunchShape(e.exec, tokenize);
    if button == 1 && IsRunning(WlrOverview, e, running) {
      MatchSpecSpelled(EffectiveAppId(e).value);
      assert es == [Run(FocusCmd(["app_id:" + EffectiveAppId(e).value])), CloseWindow];
      assert es == [Run(FocusCmd(["app_id:" + EffectiveAppId(e).value]))] + [CloseWindow];
      ProcessesAppend([Run(FocusCmd(["app_id:" + EffectiveAppId(e).value]))], [CloseWindow]);
    }
  }

  /** A dock entry `{app_id: "org.app"}`: running while `org.app` is live, when a left click focuses it; otherwise a left click launches. */
  lemma DockExample(title: Option<string>, icon: Option<string>, exec: Option<string>, tokenize: string -> seq<string>)
    ensures var e := DockEntry(title, icon, exec, Some("org.app"));
      IsRunning(WlrOverview, e, {"org.app"}) && IsRunning(WlOverview, e, {"org.app"}) &&
      !IsRunning(WlrOverview, e, {}) && !IsRunning(WlOverview, e, {}) &&
      DockClickEvents(WlrOverview, 1, e, {"org.app"}, tokenize) ==
        [Run(["wlrctl", "toplevel", "focus", "app_id:org.app"]), CloseWindow] &&
      DockClickEvents(WlrOverview, 1, e, {}, tokenize) == LaunchEvents(exec, tokenize)
  {
    var e := DockEntry(title, icon, exec, Some("org.app"));
    assert EffectiveAppId(e) == Some("org.app");
    assert IsRunning(WlrOverview, e, {"org.app"});
    MatchSpecSpelled("org.app");
    assert "app_id:" + "org.app" == "app_id:org.app";
    assert DockClickEvents(WlrOverview, 1, e, {"org.app"}, tokenize) ==
      [Run(FocusCmd(["app_id:org.app"])), CloseWindow];
    assert FocusCmd(["app_id:org.app"]) == ["wlrctl", "toplevel", "focus", "app_id:org.app"];
  }

  /**
   * The button a `Gtk.GestureClick` listens to when `set_button` is never
   * called: GTK's default for a single-button gesture is the primary button,
   * so `on_click` sees no other.
   */
  const GestureButton := 1

  /** A press of `button` as the dock's gesture delivers it: a press of any other button never reaches `on_click`. */
  function PressEvents(v: Variant, button: int, e: DockEntry, running: set<string>,
                       tokenize: string -> seq<string>): seq<Event>
  {
    if button == GestureButton then DockClickEvents(v, button, e, running, tokenize) else []
  }

  /**
   * With the gesture as created in wlroverview.py, a middle click on an entry
   * with a launchable command does nothing, although the handler would start
   * a new instance for it; and from the dock an app that is running can never
   * be started again.
   */
  lemma MiddleClickIgnored(e: DockEntry, running: set<string>, tokenize: string -> seq<string>)
    requires Truthy(e.exec) && tokenize(e.exec.value) != []
    ensures PressEvents(WlrOverview, 2, e, running, tokenize) == []
    ensures Processes(DockClickEvents(WlrOverview, 2, e, running, tokenize)) == 1
    ensures IsRunning(WlrOverview, e, running) ==>
      forall b, k :: 0 <= k < |PressEvents(WlrOverview, b, e, running, tokenize)| ==>
        !PressEvents(WlrOverview, b, e, running, tokenize)[k].Spawn?
  {
    LaunchShape(e.exec, tokenize);
    WlrClickPolicy(GestureButton, e, running, tokenize);
  }
}
