/**
 * The window-identity cascade: the ordered `wlrctl toplevel focus` match
 * specs each program issues for one window, and the close command.
 * wloverview.py fires every attempt (the tool gives no success signal);
 * wlroverview.py's `focus_window` returns after its first attempt.
 */
module Identity {
  import opened Optional
  import opened Text
  import opened Windows
  import opened Actions

  /** The two spellings of the app-id key that wlroots tools accept. */
  const KeyVariants: seq<string> := ["app_id", "app-id"]

  /** `f"{key}:{value}"`. */
  function MatchSpec(key: string, value: string): string {
    key + ":" + value
  }

  /** The match specs spelled out for the three keys in use. */
  lemma MatchSpecSpelled(v: string)
    ensures MatchSpec("app_id", v) == "app_id:" + v
    ensures MatchSpec("app-id", v) == "app-id:" + v
    ensures MatchSpec("title", v) == "title:" + v
  {
    assert "app_id" + ":" == "app_id:";
    assert "app-id" + ":" == "app-id:";
    assert "title" + ":" == "title:";
  }

  /** `["wlrctl", "toplevel", "focus", *matches]`. */
  function FocusCmd(matches: seq<string>): seq<string> {
    ["wlrctl", "toplevel", "focus"] + matches
  }

  /** `["wlrctl", "toplevel", "close", f"app_id:{appid}", f"title:{title}"]`. */
  function CloseCmd(appId: string, title: string): seq<string> {
    ["wlrctl", "toplevel", "close", MatchSpec("app_id", appId), MatchSpec("title", title)]
  }

  /** `expand_tilde_variants(title)`, with the home directory as a parameter. */
  function ExpandTildeVariants(title: string, home: string): (r: seq<string>)
    ensures 1 <= |r| <= 2 && r[0] == title
    ensures |r| == 2 <==> '~' in title
    ensures |r| == 2 ==>
      var k := IndexOf(title, '~');
      r[1] == title[..k] + home + title[k + 1..] && '~' !in title[..k]
  {
    if '~' !in title then [title] else [title, ReplaceFirst(title, '~', home)]
  }

  /** The inner loop over the tilde variants for one key. */
  function TriesFor(key: string, appId: string, variants: seq<string>): (r: seq<seq<string>>)
    ensures |r| == |variants|
    ensures forall j :: 0 <= j < |variants| ==>
      r[j] == FocusCmd([MatchSpec(key, appId), MatchSpec("title", variants[j])])
  {
    seq(|variants|, j requires 0 <= j < |variants| =>
      FocusCmd([MatchSpec(key, appId), MatchSpec("title", variants[j])]))
  }

  /** The nested loop over `keys` and then the variants. */
  function KeyedTries(keys: seq<string>, appId: string, variants: seq<string>): seq<seq<string>>
  {
    if keys == [] then []
    else KeyedTries(keys[..|keys| - 1], appId, variants) + TriesFor(keys[|keys| - 1], appId, variants)
  }

  /** The list `tries` that `_wlrctl_focus_try(appid, title)` builds, in order. */
  function FocusTries(appId: string, title: Option<string>, home: string): seq<seq<string>>
  {
    (if appId != "" && Truthy(title)
     then KeyedTries(KeyVariants, appId, ExpandTildeVariants(title.value, home)) else []) +
    (if Truthy(title) then [FocusCmd([MatchSpec("title", title.value)])] else []) +
    (if appId != "" then KeyOnly(appId) else [])
  }

  /** The app-id-only attempts, one per key spelling. */
  function KeyOnly(appId: string): (r: seq<seq<string>>)
    ensures r == [FocusCmd([MatchSpec("app_id", appId)]), FocusCmd([MatchSpec("app-id", appId)])]
  {
    seq(|KeyVariants|, i requires 0 <= i < |KeyVariants| => FocusCmd([MatchSpec(KeyVariants[i], appId)]))
  }

  /** One `subprocess.run` per command, in order. */
  function Runs(cmds: seq<seq<string>>): (es: seq<Event>)
    ensures |es| == |cmds|
    ensures forall i :: 0 <= i < |cmds| ==> es[i] == Run(cmds[i])
  {
    seq(|cmds|, i requires 0 <= i < |cmds| => Run(cmds[i]))
  }

  lemma RunsAppend(a: seq<seq<string>>, b: seq<seq<string>>)
    ensures Runs(a + b) == Runs(a) + Runs(b)
  {
  }

  /** Over the two key spellings, the keyed attempts are all `app_id` pairs, then all `app-id` pairs. */
  lemma KeyedTriesBoth(appId: string, variants: seq<string>)
    ensures KeyedTries(KeyVariants, appId, variants) ==
      TriesFor("app_id", appId, variants) + TriesFor("app-id", appId, variants)
  {
    assert KeyVariants[..1] == ["app_id"];
    assert KeyVariants[..1][..0] == [];
    assert KeyedTries(KeyVariants[..1], appId, variants) == TriesFor("app_id", appId, variants);
  }

  /** One more key adds that key's attempts at the end. */
  lemma KeyedTriesStep(keys: seq<string>, k: nat, appId: string, variants: seq<string>)
    requires k < |keys|
    ensures KeyedTries(keys[..k + 1], appId, variants) ==
      KeyedTries(keys[..k], appId, variants) + TriesFor(keys[k], appId, variants)
  {
    assert keys[..k + 1][..k] == keys[..k];
  }

  /** The nested loop of `_wlrctl_focus_try` over the key spellings and then the tilde variants. */
  method KeyedLoop(appId: string, variants: seq<string>) returns (tries: seq<seq<string>>)
    ensures tries == KeyedTries(KeyVariants, appId, variants)
  {
    tries := [];
    var k := 0;
    while k < |KeyVariants|
      invariant 0 <= k <= |KeyVariants|
      invariant tries == KeyedTries(KeyVariants[..k], appId, variants)
    {
      var key := KeyVariants[k];
      ghost var before := tries;
      var j := 0;
      while j < |variants|
        invariant 0 <= j <= |variants|
        invariant tries == before + TriesFor(key, appId, variants)[..j]
      {
        tries := tries + [FocusCmd([MatchSpec(key, appId), MatchSpec("title", variants[j])])];
        assert TriesFor(key, appId, variants)[..j + 1] == TriesFor(key, appId, variants)[..j] + [TriesFor(key, appId, variants)[j]];
        j := j + 1;
      }
      assert TriesFor(key, appId, variants)[..j] == TriesFor(key, appId, variants);
      KeyedTriesStep(KeyVariants, k, appId, variants);
      k := k + 1;
    }
    assert KeyVariants[..k] == KeyVariants;
  }

  /** The list-building half of `_wlrctl_focus_try`: the three guarded blocks of appends. */
  method BuildFocusTries(appId: string, title: Option<string>, home: string) returns (tries: seq<seq<string>>)
    ensures tries == FocusTries(appId, title, home)
  {
    tries := [];
    if appId != "" && Truthy(title) {
      tries := KeyedLoop(appId, ExpandTildeVariants(title.value, home));
    }
    if Truthy(title) {
      tries := tries + [FocusCmd([MatchSpec("title", title.value)])];
    }
    ghost var titled := tries;
    if appId != "" {
      var k := 0;
      while k < |KeyVariants|
        invariant 0 <= k <= |KeyVariants|
        invariant tries == titled + KeyOnly(appId)[..k]
      {
        tries := tries + [FocusCmd([MatchSpec(KeyVariants[k], appId)])];
        assert KeyOnly(appId)[..k + 1] == KeyOnly(appId)[..k] + [KeyOnly(appId)[k]];
        k := k + 1;
      }
      assert KeyOnly(appId)[..k] == KeyOnly(appId);
    }
  }

  /** The running half: one blocking `subprocess.run` per command, in list order. */
  method RunEach(ex: Executor, cmds: seq<seq<string>>)
    modifies ex
    ensures ex.log == old(ex.log) + Runs(cmds)
  {
    var i := 0;
    while i < |cmds|
      invariant 0 <= i <= |cmds|
      invariant ex.log == old(ex.log) + Runs(cmds[..i])
    {
      assert cmds[..i + 1] == cmds[..i] + [cmds[i]];
      RunsAppend(cmds[..i], [cmds[i]]);
      ex.RunAndWait(cmds[i]);
      i := i + 1;
    }
    assert cmds[..i] == cmds;
  }

  /** `_wlrctl_focus_try(appid, title)`: build the list of attempts, then run each. */
  method FocusTry(ex: Executor, appId: string, title: Option<string>, home: string)
    modifies ex
    ensures ex.log == old(ex.log) + Runs(FocusTries(appId, title, home))
  {
    var tries := BuildFocusTries(appId, title, home);
    RunEach(ex, tries);
  }

  /** Every attempt is a `wlrctl toplevel focus` command. */
  lemma FocusTriesAreFocus(appId: string, title: Option<string>, home: string)
    ensures forall c :: c in FocusTries(appId, title, home) ==> |c| >= 4 && c[..3] == ["wlrctl", "toplevel", "focus"]
  {
    if appId != "" && Truthy(title) {
      KeyedTriesBoth(appId, ExpandTildeVariants(title.value, home));
    }
  }

  /** A title without `~`: both keyed pairs, then the title alone, then each key alone. */
  lemma FocusTriesPlainTitle(appId: string, t: string, home: string)
    requires appId != "" && t != "" && '~' !in t
    ensures FocusTries(appId, Some(t), home) == [
      FocusCmd(["app_id:" + appId, "title:" + t]),
      FocusCmd(["app-id:" + appId, "title:" + t]),
      FocusCmd(["title:" + t]),
      FocusCmd(["app_id:" + appId]),
      FocusCmd(["app-id:" + appId])]
  {
    KeyedTriesBoth(appId, ExpandTildeVariants(t, home));
    MatchSpecSpelled(appId);
    MatchSpecSpelled(t);
    MatchSpecSpelled(ReplaceFirst(t, '~', home));
  }

  /** A title with `~`: for each key, the raw title then the home-expanded one; then title alone; then each key alone. */
  lemma FocusTriesTildeTitle(appId: string, t: string, home: string)
    requires appId != "" && '~' in t
    ensures var t' := ReplaceFirst(t, '~', home);
      FocusTries(appId, Some(t), home) == [
        FocusCmd(["app_id:" + appId, "title:" + t]),
        FocusCmd(["app_id:" + appId, "title:" + t']),
        FocusCmd(["app-id:" + appId, "title:" + t]),
        FocusCmd(["app-id:" + appId, "title:" + t']),
        FocusCmd(["title:" + t]),
        FocusCmd(["app_id:" + appId]),
        FocusCmd(["app-id:" + appId])]
  {
    KeyedTriesBoth(appId, ExpandTildeVariants(t, home));
    MatchSpecSpelled(appId);
    MatchSpecSpelled(t);
    MatchSpecSpelled(ReplaceFirst(t, '~', home));
  }

  /** With no title (`None` or empty), only the two app-id-only attempts remain, and none without an app id. */
  lemma FocusTriesNoTitle(appId: string, title: Option<string>, home: string)
    requires !Truthy(title)
    ensures FocusTries(appId, title, home) ==
      if appId != "" then [FocusCmd(["app_id:" + appId]), FocusCmd(["app-id:" + appId])] else []
  {
    MatchSpecSpelled(appId);
  }

  /** `focus_window(appid, title_raw, title_norm)` in wloverview.py. */
  function FocusWindowEvents(appId: string, raw: string, norm: string, home: string): seq<Event>
  {
    Runs(FocusTries(appId, Some(raw), home)) +
    (if norm != "" && norm != raw then Runs(FocusTries(appId, Some(norm), home)) else [])
  }

  method FocusWindow(ex: Executor, appId: string, raw: string, norm: string, home: string)
    modifies ex
    ensures ex.log == old(ex.log) + FocusWindowEvents(appId, raw, norm, home)
  {
    FocusTry(ex, appId, Some(raw), home);
    if norm != "" && norm != raw {
      FocusTry(ex, appId, Some(norm), home);
    }
  }

  /** The second cascade, for the normalised title, comes after the first exactly when that title is non-empty and differs. */
  lemma FocusWindowCascades(appId: string, raw: string, norm: string, home: string)
    ensures var es := FocusWindowEvents(appId, raw, norm, home);
      var first := Runs(FocusTries(appId, Some(raw), home));
      es[..|first|] == first &&
      (norm != "" && norm != raw ==> es[|first|..] == Runs(FocusTries(appId, Some(norm), home))) &&
      (norm == "" || norm == raw ==> es == first)
  {
  }

  /** `[w for w in wins if w.appId == appid]`. */
  function WithAppId(wins: seq<Window>, appId: string): (r: seq<Window>)
    ensures forall w :: w in r ==> w in wins && w.appId == appId
    ensures r == [] <==> forall i :: 0 <= i < |wins| ==> wins[i].appId != appId
  {
    if wins == [] then []
    else if wins[0].appId == appId then [wins[0]] + WithAppId(wins[1..], appId)
    else
      assert forall i :: 1 <= i < |wins| ==> wins[i] == wins[1..][i - 1];
      WithAppId(wins[1..], appId)
  }

  /** The first candidate is the first window, in enumeration order, with that app id. */
  lemma {:induction false} WithAppIdHead(wins: seq<Window>, appId: string)
    requires WithAppId(wins, appId) != []
    ensures exists i :: (0 <= i < |wins| && wins[i] == WithAppId(wins, appId)[0] &&
      wins[i].appId == appId && forall j :: 0 <= j < i ==> wins[j].appId != appId)
  {
    if wins[0].appId != appId {
      WithAppIdHead(wins[1..], appId);
      var i :| 0 <= i < |wins[1..]| && wins[1..][i] == WithAppId(wins[1..], appId)[0] &&
        wins[1..][i].appId == appId && forall j :: 0 <= j < i ==> wins[1..][j].appId != appId;
      assert wins[i + 1] == wins[1..][i];
      assert forall j :: 1 <= j < i + 1 ==> wins[j] == wins[1..][j - 1];
    } else {
      assert wins[0] == WithAppId(wins, appId)[0];
    }
  }

  /** `focus_appid_best(appid)`: focus the first window with that app id, else only the app-id fallbacks. */
  function FocusAppIdBestEvents(wins: seq<Window>, appId: string, home: string): seq<Event>
  {
    var candidates := WithAppId(wins, appId);
    if candidates != [] then
      FocusWindowEvents(candidates[0].appId, candidates[0].rawTitle, candidates[0].normTitle, home)
    else Runs(FocusTries(appId, None, home))
  }

  method FocusAppIdBest(ex: Executor, wins: seq<Window>, appId: string, home: string)
    modifies ex
    ensures ex.log == old(ex.log) + FocusAppIdBestEvents(wins, appId, home)
  {
    var candidates := WithAppId(wins, appId);
    if candidates != [] {
      var w := candidates[0];
      FocusWindow(ex, w.appId, w.rawTitle, w.normTitle, home);
    } else {
      FocusTry(ex, appId, None, home);
    }
  }

  /** Without a matching window, only `focus app_id:<id>` and `focus app-id:<id>` are issued (nothing for an empty id). */
  lemma FocusAppIdBestFallback(wins: seq<Window>, appId: string, home: string)
    requires forall i :: 0 <= i < |wins| ==> wins[i].appId != appId
    ensures FocusAppIdBestEvents(wins, appId, home) ==
      if appId != "" then [Run(FocusCmd(["app_id:" + appId])), Run(FocusCmd(["app-id:" + appId]))] else []
  {
    FocusTriesNoTitle(appId, None, home);
  }

  /** A tile's close button in both programs: one detached `close` for the app id and the normalised title. */
  method CloseTile(ex: Executor, w: Window)
    modifies ex
    ensures ex.log == old(ex.log) + [Spawn(CloseCmd(w.appId, w.normTitle))]
  {
    ex.SpawnDetached(CloseCmd(w.appId, w.normTitle));
  }

  /** Clicking a tile in wloverview.py: the focus cascade, then close the overview. */
  method ClickTile(ex: Executor, w: Window, home: string)
    modifies ex
    ensures ex.log == old(ex.log) + FocusWindowEvents(w.appId, w.rawTitle, w.normTitle, home) + [CloseWindow]
  {
    FocusWindow(ex, w.appId, w.rawTitle, w.normTitle, home);
    ex.CloseOverlay();
  }

  /** The five attempts wlroverview.py's `focus_window` lists. */
  function WlrFocusTries(appId: string, raw: string, norm: string): seq<seq<string>>
  {
    [FocusCmd([MatchSpec("app_id", appId), MatchSpec("title", raw)]),
     FocusCmd([MatchSpec("app_id", appId), MatchSpec("title", norm)]),
     FocusCmd([MatchSpec("title", raw)]),
     FocusCmd([MatchSpec("title", norm)]),
     FocusCmd([MatchSpec("app_id", appId)])]
  }

  /** wlroverview.py's `focus_window`: the `return` inside the loop stops after the first attempt, so only that one is issued. */
  method WlrFocusWindow(ex: Executor, appId: string, raw: string, norm: string)
    modifies ex
    ensures ex.log == old(ex.log) + [Run(FocusCmd(["app_id:" + appId, "title:" + raw]))]
    ensures ex.log == old(ex.log) + [Run(WlrFocusTries(appId, raw, norm)[0])]
  {
    var tries := WlrFocusTries(appId, raw, norm);
    MatchSpecSpelled(appId);
    MatchSpecSpelled(raw);
    // The loop's body ends in `return`, so it runs at most once: on the first command.
    if |tries| > 0 {
      ex.RunAndWait(tries[0]);
    }
  }

  /** Clicking a tile in wlroverview.py: the single focus attempt, then close. */
  method WlrClickTile(ex: Executor, w: Window)
    modifies ex
    ensures ex.log == old(ex.log) + [Run(FocusCmd(["app_id:" + w.appId, "title:" + w.rawTitle])), CloseWindow]
  {
    WlrFocusWindow(ex, w.appId, w.rawTitle, w.normTitle);
    ex.CloseOverlay();
  }
}
