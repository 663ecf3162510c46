# wloverview in Dafny

A model of the core of *wloverview*, a window overview for wlroots Wayland
compositors, and of its dock-configuration editor. Two versions of the overview
program are modelled side by side:

- `wloverview.py`, the `WlOverview` variant;
- `wlroverview.py`, the `WlrOverview` variant.

They differ in:

- the title filter of the window list;
- the share of the screen the tile grid may use;
- the icon rules;
- how a tile click focuses a window;
- how a dock click behaves.

The editor is `helpers/dock-edit.py`.

Modules, leaves first:

- `Optional`: `Option`, and Python's truthiness and `a or b` on optional
  strings.
- `Text`: Python's `str.strip`, `str.split()` and `" ".join(...)` (whitespace as
  `str.isspace` defines it), first-occurrence search and replace, ASCII
  lower-casing, and decimal rendering of naturals.
- `Titles`: `normalize_title`. The NFKC step is a function parameter. Zero-width
  removal, dash translation and whitespace collapsing are modelled exactly.
- `Windows`: the parse loop of `get_windows` over the lines `wlrctl toplevel
  list` prints, and `get_running_app_ids`.
- `Icons`: `pick_icon_name`, the tile icon choice and size ladder, and the
  battery-percentage icon ladder.
- `Layout`: the column search of `populate`, the derived rows and tile size,
  the row-by-row tile placement, and properties of the resulting grid.
- `Actions`: an `Executor` object. Its `log` records every command the program
  would start:
  - `Run` is `subprocess.run`, waited on;
  - `Spawn` is `subprocess.Popen`, detached;
  - `CloseWindow` is closing the overview.

  `launch` is modelled here.
- `Identity`: focus and close commands. This covers `expand_tilde_variants`,
  the `_wlrctl_focus_try` cascade, both versions' `focus_window`, and
  `focus_appid_best`.
- `Dock`: `build_dock`, the effective app id, the running state, the tooltip and
  the click dispatch of each variant.
- `DockEdit`:
  - the JSON configuration as values;
  - `safe_str`;
  - `AppRow` and `to_dict`;
  - the backend (`WlOverviewBackend`) as a class whose `apps` list its methods
    update;
  - the editor window (`MainWindow`) as a class holding the list store, the
    selection and the status line.

Several operations are written as functions that define them, with the
properties proved in lemmas and methods named in the table below:

- `normalize_title` is `Titles.NormalizeTitle`;
- one line of `get_windows` is `Windows.ParseLine`, and the loop's result is
  `Windows.Parse`;
- the tile icon size and the battery icon ladder are `Icons.IconSize` and
  `Icons.BatteryIcon`;
- the tile width tried for a column count in `populate` is `Layout.Candidate`;
- what `launch` does is `Actions.LaunchEvents`;
- the `_wlrctl_focus_try` cascade and `focus_window` are `Identity.FocusTries`
  and `Identity.FocusWindowEvents`;
- the running test and the dock click of each variant are `Dock.IsRunning` and
  `Dock.DockClickEvents`;
- the editor's status line is `DockEdit.StatusText`.

## Model

| member | source | states |
|---|---|---|
| Optional.Or | wloverview.py:693 | `a or b` on optional strings: `a` when it is non-empty, `b` otherwise; the result is truthy exactly when one of them is |
| Text.Strip | wloverview.py:173-174 | `str.strip()`: the result has no `isspace` character at either end, is no longer than the input, and uses only the input's characters; an already-trimmed string is returned unchanged |
| Text.StripIsSlice | wloverview.py:173-174 | `str.strip()` returns a contiguous slice `s[a..b]` of its input, and everything cut off before `a` and after `b` is blank, so together with `Text.Strip` the result is fixed |
| Text.CollapseWellSpaced | wloverview.py:123 | `" ".join(s.split())` has no leading, trailing or doubled space |
| Text.CollapseIdempotent | wloverview.py:123 | collapsing whitespace twice is the same as once |
| Text.WordsOfJoin | wloverview.py:123 | splitting a join of non-empty space-free words gives those words back |
| Text.CollapseChars | wloverview.py:123 | whitespace collapsing adds no character other than the separating space |
| Text.ReplaceFirst | wloverview.py:153 | `str.replace(target, replacement, 1)`: unchanged without the target, otherwise only the first occurrence is replaced |
| Text.LowerAscii | wlroverview.py:148 | `title.lower()`, character by character, for the comparison with `wloverview` |
| Text.NatStrRoundTrip | helpers/dock-edit.py:349 | the decimal text of a count reads back as that count |
| Titles.RemoveZeroWidthChars | wloverview.py:115-121 | after `_ZERO_WIDTH_RE.sub`, a character is present exactly when it was present and is not U+200B–U+200D or U+FEFF |
| Titles.TranslateDashes | wloverview.py:106-122 | `_DASH_TRANSLATION` maps exactly the seven dash code points to `-` and keeps every other character in place |
| Titles.CleanIsClean | wloverview.py:121-123 | the steps after NFKC leave no zero-width character and none of the seven dashes |
| Titles.CleanWellSpaced | wloverview.py:121-123 | the steps after NFKC leave no leading, trailing or doubled space |
| Titles.CleanIdempotent | wloverview.py:121-123 | applying the steps after NFKC twice equals applying them once |
| Titles.NormalizeTitleShape | wloverview.py:117-123 | `normalize_title("")` is `""`; every result is free of zero-width characters and the listed dashes, and is trimmed with single spaces. The same holds for `wlroverview.py:120-126` |
| Titles.NormalizeTitleIdempotent | wloverview.py:117-123 | normalising a normalised title changes nothing when NFKC leaves that title alone |
| Titles.NormalizeFirefoxExample | wloverview.py:117-123 | `Firefox—Private` followed by a zero-width space normalises to `Firefox-Private` |
| Windows.SplitFirstColon | wloverview.py:169-172 | no split exactly when the line has no `:`; otherwise the head has no `:` and head, `:` and tail rebuild the line |
| Windows.GetWindows | wloverview.py:157-182 | a failed `wlrctl` yields `[]`; otherwise the loop's output equals `Parse` of the output lines |
| Windows.ParseLineExact | wlroverview.py:140-151 | a line yields a window exactly when it has a colon and its stripped app id and title are not excluded; the window is the stripped halves around the first colon, plus the normalised title |
| Windows.ParseWellFormed | wloverview.py:167-182 | every kept window has a colon-free, trimmed app id other than `org.broomlabs.wloverview`, a trimmed title, and third component `normalize_title(title)`; in `wlroverview.py` also a title that does not lower-case to `wloverview` |
| Windows.ParseAppend | wloverview.py:168-182 | the parse of concatenated lines is the concatenation of the parses, so input order is kept |
| Windows.ParseLength | wloverview.py:168-182 | at most one window per line |
| Windows.RunningAppIds | wlroverview.py:166-168 | an id is in the set exactly when some window has it as its app id |
| Icons.Dashify | wloverview.py:208 | same length; `.` and `_` become `-`, every other character is kept |
| Icons.PickIconName | wloverview.py:197-212 | the exact app id if the theme has it, else the dashified id if non-empty and known, else `applications-system`; the result is always the fallback or a known icon |
| Icons.TileIcon | wlroverview.py:398 | the exact app id exactly when the theme has it (or it is the fallback name); always the fallback or a known icon |
| Icons.IconSizeLadder | wloverview.py:599-606 | the icon size is one of 96/80/64/48, at thresholds 260, 200 and 160, and never shrinks as the tile widens |
| Icons.BatteryIconLadder | wloverview.py:482-491 | full/good/medium/low/caution at 90/60/30/10, and more charge never shows an emptier battery |
| Layout.CeilDivIsCeiling | wloverview.py:574 | `ceil(count / cols)` covers `count` and is the least such row count |
| Layout.CeilDivMonotone | wloverview.py:574 | more windows never need fewer rows |
| Layout.Best | wloverview.py:573-579 | the incumbent width after the first `k` columns counts is non-negative and at least every candidate among them |
| Layout.SearchStep | wloverview.py:577-579 | one iteration of the search keeps the loop's invariant: strict `>` replaces the incumbent, ties keep the smaller column count |
| Layout.SolveColumns | wloverview.py:569-580 | `1 <= best_cols <= count` and `best_w >= 0`; `best_w` is the maximum of the candidates; when positive, it is reached at `best_cols` and at no smaller column count; with no positive candidate `best_cols` stays 1. The same loop is `wlroverview.py:370-381` with fractions 0.85/0.6 |
| Layout.AtCellIsDivMod | wloverview.py:586-588 | tile `i` lies at row `i div cols` and column `i mod cols` |
| Layout.PlaceTiles | wloverview.py:585-655 | the nested loop attaches exactly one tile per window, tile `i` showing window `i` at its cell, with the variant's icon and icon size |
| Layout.Populate | wloverview.py:557-583 | nothing is laid out without windows or below 200×200 pixels; otherwise the solved columns, `rows = ceil(count / cols)`, `tile_w = int(best_w)`, `tile_h = int(tile_w * 0.75)`, and all tiles placed as above |
| Layout.MaxWidthMonotone | wloverview.py:575 | more columns never give a wider per-column share |
| Layout.MaxHeightMonotone | wloverview.py:576 | more rows never give a taller per-row share |
| Layout.CandidateMoreWindows | wloverview.py:573-577 | for a fixed column count, one more window never widens the candidate tile |
| Layout.TileWidthMonotone | wloverview.py:569-582 | for a fixed window size, more windows never give wider tiles |
| Layout.GridFitsWidth | wloverview.py:575-582 | with a positive width, the chosen tiles and the gaps between them fit the usable width |
| Layout.GridFitsHeight | wloverview.py:576-583 | with a positive width, the rows of `int(tile_w * 0.75)` tiles and their gaps fit the usable height |
| Layout.ExampleColumns3 | wloverview.py:573-579 | five windows on 1000×700 give the candidate 856/3 at three columns; the neighbouring lemmas show every other column count is smaller |
| Actions.Executor.Launch | wloverview.py:724-730 | the log grows by exactly `LaunchEvents(cmd)`: the overview closes without a spawn for an empty or missing command; a non-empty command that tokenises to nothing makes `Popen([])` raise, so nothing is logged and the overview stays open; otherwise the tokenised command is spawned once and the overview closes. `wlroverview.py:527-533` is identical |
| Actions.LaunchShape | wlroverview.py:527-533 | a launch does nothing exactly when a non-empty command tokenises to nothing; otherwise it ends with closing the overview; it starts exactly one process, the non-empty tokenised command, when there is one and none otherwise, and never waits on a process |
| Identity.ExpandTildeVariants | wloverview.py:146-154 | `[title]` without `~`; otherwise `[title, title with its first ~ replaced by home]` |
| Identity.TriesFor | wloverview.py:510-511 | one `key:appid title:t` command per tilde variant, in order |
| Identity.KeyOnly | wloverview.py:514-516 | the app-id-only commands `app_id:appid` then `app-id:appid` |
| Identity.KeyedLoop | wloverview.py:508-511 | the nested key/variant loop builds the commands for `app_id` and then `app-id`, each over all tilde variants |
| Identity.BuildFocusTries | wloverview.py:505-516 | the loops of `_wlrctl_focus_try` build exactly `FocusTries` |
| Identity.RunEach | wloverview.py:518-519 | each command in the list is run once, in order |
| Identity.FocusTry | wloverview.py:500-519 | `_wlrctl_focus_try` runs exactly the `FocusTries` commands, in order |
| Identity.FocusTriesAreFocus | wloverview.py:505-516 | every attempt is a `wlrctl toplevel focus` command with at least one match spec |
| Identity.FocusTriesPlainTitle | wloverview.py:505-516 | with app id and a title without `~`, the cascade is exactly `app_id:+title`, `app-id:+title`, `title:`, `app_id:`, `app-id:` |
| Identity.FocusTriesTildeTitle | wloverview.py:505-516 | with a `~` in the title, each key is tried with the raw title and then the home-expanded one, before the title-only and app-id-only commands |
| Identity.FocusTriesNoTitle | wloverview.py:512-516 | with an empty or missing title, only the two app-id-only commands are tried |
| Identity.FocusWindow | wloverview.py:521-525 | the log grows by exactly `FocusWindowEvents` |
| Identity.FocusWindowCascades | wloverview.py:521-525 | the raw-title cascade comes first; the normalised-title cascade follows exactly when that title is non-empty and differs from the raw one |
| Identity.WithAppId | wloverview.py:532 | the candidates are windows of the list with that app id, and there are none exactly when no window has it |
| Identity.WithAppIdHead | wloverview.py:532-535 | the first candidate is the first window in the list with that app id |
| Identity.FocusAppIdBest | wloverview.py:527-539 | the log grows by exactly `FocusAppIdBestEvents`: focus the first matching window, else the fallback cascade |
| Identity.FocusAppIdBestFallback | wloverview.py:537-539 | with no matching window only the two app-id-only commands are run |
| Identity.CloseTile | wloverview.py:633-637 | the close button spawns `wlrctl toplevel close app_id:<id> title:<normalised title>` and nothing else |
| Identity.ClickTile | wloverview.py:648-651 | a tile click runs the focus cascades for its window and then closes the overview |
| Identity.WlrFocusWindow | wlroverview.py:335-345 | only the first command, `focus app_id:<id> title:<raw title>`, is run, because the loop returns after one iteration |
| Identity.WlrClickTile | wlroverview.py:440-444 | a tile click runs that single focus command and closes the overview |
| Dock.EffectiveAppId | wloverview.py:693 | `app_id or icon` |
| Dock.Tooltip | wloverview.py:686 | `title or app_id or icon` in `wloverview.py`; `wlroverview.py` sets none |
| Dock.BuildDock | wloverview.py:659-719 | no dock for an empty or missing configuration; otherwise one button per entry, in order, each with its tooltip and running state against the live app ids |
| Dock.IsRunningIff | wloverview.py:671-695 | running exactly when the effective app id is non-empty (required in `wloverview.py` only) and some live window has it |
| Dock.RunningVariantsDiffer | wlroverview.py:477-479 | an entry running in `wloverview.py` is running in `wlroverview.py`; the two differ exactly for an empty effective id that is also a live app id |
| Dock.DockClick | wlroverview.py:494-516 | the log grows by exactly `DockClickEvents` for the pressed button |
| Dock.WlClickIgnoresRunning | wloverview.py:712-714 | in `wloverview.py` every press launches the entry's command, whatever the button or running state |
| Dock.WlrClickPolicy | wlroverview.py:498-516 | button 2 launches; button 1 on a running entry runs `focus app_id:<id>` and closes without spawning; button 1 otherwise launches; other buttons do nothing |
| Dock.MiddleClickIgnored | wlroverview.py:491-502 | the click gesture is created without `set_button`, so it keeps GTK's default button 1: a middle press yields no events, although the handler would launch for button 2; on a running entry no press spawns anything |
| Dock.DockExample | wlroverview.py:477-514 | an entry with app id `org.app` is running while `org.app` is live, and a left click then focuses it; otherwise a left click launches |
| DockEdit.Get | helpers/dock-edit.py:160 | `d.get(key)`: a value exactly when the key is present, and then that key's value |
| DockEdit.Dicts | helpers/dock-edit.py:110 | the filter keeps only objects of the list, and no more entries than there were |
| DockEdit.DictsAppend | helpers/dock-edit.py:110 | the filter keeps the list's order |
| DockEdit.DictsOfObjects | helpers/dock-edit.py:110 | a list made only of objects passes the filter unchanged |
| DockEdit.LoadedApps | helpers/dock-edit.py:95-111 | no file or non-list data gives `[]`; a list gives its objects |
| DockEdit.SafeStr | helpers/dock-edit.py:82-83 | `None` and JSON `null` give `""`; a string is itself; booleans give `True`/`False`; integers give their decimal text |
| DockEdit.RowOf | helpers/dock-edit.py:158-163 | a row's title and exec come from those keys, empty when missing |
| DockEdit.ToDict | helpers/dock-edit.py:165-171 | `title` and `exec` are always present; `icon` and `app_id` only when non-blank, and then stripped; no other key |
| DockEdit.RowRoundTrip | helpers/dock-edit.py:158-171 | reading a row's dictionary back gives the row with icon and app id stripped, and that canonical form is a fixed point |
| DockEdit.RemoveContents | helpers/dock-edit.py:128 | `pop(i)` keeps the items before `i` and shifts those after it down by one |
| DockEdit.InsertContents | helpers/dock-edit.py:137 | `insert(i, x)` puts `x` at `i`, keeps the items before and shifts the rest up by one |
| DockEdit.ReplaceAt | helpers/dock-edit.py:499-500 | removing and inserting at the same index replaces that item in place |
| DockEdit.MovedProps | helpers/dock-edit.py:136-137 | a move keeps the length and the multiset of items, puts the moved item at its target, keeps the others in relative order, and moving back restores the list |
| DockEdit.MovedAdjacent | helpers/dock-edit.py:460-462 | a move to a neighbouring index swaps the two items |
| DockEdit.MoveUpThenDown | helpers/dock-edit.py:456-479 | moving an item up and then down restores the list |
| DockEdit.Backend.constructor | helpers/dock-edit.py:90-93 | the backend starts with the loaded apps and nothing saved |
| DockEdit.Backend.Load | helpers/dock-edit.py:95-111 | `apps` becomes the loaded list, which is returned; nothing is saved |
| DockEdit.Backend.Save | helpers/dock-edit.py:113-116 | one save; `apps` unchanged |
| DockEdit.Backend.GetApps | helpers/dock-edit.py:118-119 | a copy of `apps` |
| DockEdit.Backend.AddApp | helpers/dock-edit.py:121-123 | the item is appended and saved once |
| DockEdit.Backend.RemoveApp | helpers/dock-edit.py:125-129 | in range: the item is removed and saved once; out of range: nothing changes and nothing is saved |
| DockEdit.Backend.MoveApp | helpers/dock-edit.py:131-138 | both in range: the item moves and the list is saved once; otherwise nothing changes |
| DockEdit.Backend.UpdateApp | helpers/dock-edit.py:140-144 | in range: only that index is replaced, and saved once; otherwise nothing changes |
| DockEdit.ToDicts | helpers/dock-edit.py:360-364 | one dictionary per row, in order |
| DockEdit.RowsOf | helpers/dock-edit.py:356-357 | one row per loaded item, in order |
| DockEdit.SaveLoadRoundTrip | helpers/dock-edit.py:353-366 | saving the store and loading it back gives the same rows up to stripping icon and app id |
| DockEdit.StatusShowsCount | helpers/dock-edit.py:345-351 | the status line starts with the item count, in decimal |
| DockEdit.StatusShowsSelection | helpers/dock-edit.py:348-351 | with a selection at `k` the line shows `Selected: #k+1`, and it differs from the line without a selection |
| DockEdit.Editor.constructor | helpers/dock-edit.py:261-338 | the window loads the backend, fills the store with its rows, and shows the status |
| DockEdit.Editor.LoadIntoStore | helpers/dock-edit.py:353-358 | the store holds one row per loaded app; the backend is reloaded, not saved; the status is updated |
| DockEdit.Editor.GetSelectedIndex | helpers/dock-edit.py:415-417 | `-1` without a selection, else the selected position |
| DockEdit.Editor.UpdateStatus | helpers/dock-edit.py:345-351 | the status line reflects the store size and the selection; nothing else changes |
| DockEdit.Editor.SaveFromStore | helpers/dock-edit.py:360-366 | the backend's `apps` become the store's dictionaries, saved once |
| DockEdit.Editor.OnRemove | helpers/dock-edit.py:445-454 | without a selection nothing changes; otherwise the selected row is removed, the list saved, and the selection stays at the same position (or the new last row) |
| DockEdit.Editor.RemoveRow | helpers/dock-edit.py:451-454 | removing an in-range row: the store loses exactly that row, the backend holds the new store's dictionaries after one more save, the selection moves to the same position or the new last row, and the status text is recomputed |
| DockEdit.Editor.OnMoveUp | helpers/dock-edit.py:456-466 | a no-op at index 0 or with no selection; otherwise the row moves up one, stays selected, and the list is saved |
| DockEdit.Editor.OnMoveDown | helpers/dock-edit.py:468-479 | a no-op with no selection or on the last row; otherwise the row moves down one, stays selected, and the list is saved |
| DockEdit.Editor.FinishAdd | helpers/dock-edit.py:432-443 | a cancelled or incomplete result (blank title or exec) changes nothing; otherwise the row is appended and the list saved |
| DockEdit.Editor.FinishEdit | helpers/dock-edit.py:493-505 | a cancelled or incomplete result changes nothing; otherwise the row at the index is replaced in place, selected, and the list saved |

## Left out

- Unicode NFKC normalisation is a function parameter `nfkc`, because it is a
  Unicode table outside the model. Idempotence of `normalize_title` is
  therefore stated only for titles NFKC leaves alone.
- These are parameters too, because they are library and environment calls:
  - `shlex.split` plus `expand_tokens` is `tokenize`, and the `ValueError` that
    `shlex.split` raises on unbalanced quotes is not modelled;
  - `os.path.expanduser("~")` is `home`;
  - `Gtk.IconTheme.has_icon` is `hasIcon`.
- Running processes (`wlrctl`, `upower` and the rest) is out of scope. The model
  records the argument vectors in `Executor.log`. `wlrctl toplevel list` enters
  as its lines, or as `None` when it fails; `splitlines` is not modelled.
- Other I/O is not modelled:
  - file existence checks;
  - JSON parsing and serialisation, `atomic_write_text` and the reload of the
    overview (`save` is a counter);
  - `load_dock_config` (the configuration enters as a list of entries).
- JSON numbers are integers. Floats, and `str()` of lists and objects, are
  left out: `SafeStr` takes the text of those as the parameter `repr`.
- GTK and Adwaita are left out: widget construction, CSS, running dots,
  toasts, `EditDialog`, icon loading for rows, the background-click walk, and
  the clock, volume and battery timers.
- For `get_battery_info`, only the integer percentage to icon ladder is
  modelled. The `upower` text scraping and the tooltip text are left out, and
  so is `get_volume_icon`, which parses floats.
- Layout.SolveColumns: pixel widths are exact reals, with 0.9, 0.8, 0.85, 0.6
  and 4/3 exact, whereas the programs compute in IEEE doubles; a tie the
  doubles break differently is not modelled.
- Text.LowerAscii: `str.lower()` is modelled for ASCII only. That is exact for
  the one comparison it serves (`== "wloverview"`), since no other character
  lower-cases to a single one of those ASCII letters.
- Actions.Executor.Launch: `Popen` of a program that cannot be found raises
  `FileNotFoundError` before the overview is closed. The model assumes every
  non-empty argument vector starts, because whether a program exists on `PATH`
  is outside the model. The same holds for spawns in `Identity.CloseTile`.
- Identity.RunEach: a missing `wlrctl` makes the first `subprocess.run` raise
  `FileNotFoundError` and ends the loop. The model runs every command, because
  it has no process table. `Identity.FocusWindow` and `Identity.WlrFocusWindow`
  inherit this.
- Dock.DockClick: the handler is modelled for every button, as written. The
  gesture it is attached to only delivers primary presses (see
  `Dock.PressEvents` and the finding below), so its middle-click and
  other-button branches cannot be reached in the running program.
- DockEdit.Editor.OnRemove: the selection after a removal follows
  `Gtk.SingleSelection` with autoselect. The model selects the same position or
  the new last row, and nothing once the store is empty; other selection
  changes made by the list view are left out.
- DockEdit.Editor.FinishEdit requires the index to be in range. Its only
  caller, `on_activate_row` (helpers/dock-edit.py:481-483), returns before
  opening the dialog otherwise.
- `on_reload`, `on_add` and `on_activate_row` only open dialogs or call modelled
  members, so they have no member of their own.
- `focus_appid_best` is modelled, although nothing in `wloverview.py` calls it.
  The dock click of that file always launches.

## Findings

| source | as written | input that shows it | evidently intended | confidence | as-written member | corrected member |
|---|---|---|---|---|---|---|
| wlroverview.py:491-502 | the dock button's `Gtk.GestureClick()` is never given `set_button(0)`, so it keeps GTK's default button 1 and the `button == 2` branch of `on_click` is never reached | a middle click (button 2) on a dock entry whose application is running | the comment above the branch: a middle click always launches a new instance | not executed; relies on GTK's documented default button 1 for single-button gestures | Dock.MiddleClickIgnored | Dock.WlrClickPolicy |
