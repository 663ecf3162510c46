/**
 * The icon decisions of wloverview.py: `pick_icon_name`'s fallback chain,
 * the tile icon-size ladder in `populate`, and the battery-percentage ladder
 * of `get_battery_info`; plus wlroverview.py's simpler tile icon rule.
 * The icon theme's `has_icon` enters as the parameter `hasIcon`.
 */
module Icons {
  import opened Windows

  const Fallback := "applications-system"

  /** `appid.replace(".", "-").replace("_", "-")`. */
  function Dashify(s: string): (r: string)
    ensures |r| == |s|
    ensures forall i :: 0 <= i < |s| ==> r[i] == (if s[i] == '.' || s[i] == '_' then '-' else s[i])
  {
    seq(|s|, i requires 0 <= i < |s| => if s[i] == '.' || s[i] == '_' then '-' else s[i])
  }

  /** `pick_icon_name(icon_theme, appid)`. */
  function PickIconName(hasIcon: string -> bool, appId: string): (r: string)
    // the exact id wins when the theme has it
    ensures appId != "" && hasIcon(appId) ==> r == appId
    // otherwise the dashified id, when non-empty and known
    ensures !(appId != "" && hasIcon(appId)) && Dashify(appId) != "" && hasIcon(Dashify(appId)) ==>
      r == Dashify(appId)
    // otherwise the generic icon
    ensures !(appId != "" && hasIcon(appId)) && !(Dashify(appId) != "" && hasIcon(Dashify(appId))) ==>
      r == Fallback
    // whatever is chosen is either the generic icon or one the theme has
    ensures r == Fallback || (r != "" && hasIcon(r))
  {
    if appId != "" && hasIcon(appId) then appId
    else
      var dashified := Dashify(appId);
      if dashified != "" && hasIcon(dashified) then dashified else Fallback
  }

  /** The icon a tile shows: wloverview.py uses `pick_icon_name`, wlroverview.py only the exact id. */
  function TileIcon(v: Variant, hasIcon: string -> bool, appId: string): (r: string)
    ensures v == WlrOverview ==> (r == appId <==> hasIcon(appId) || appId == Fallback)
    ensures r == Fallback || hasIcon(r)
  {
    if v == WlOverview then PickIconName(hasIcon, appId)
    else if hasIcon(appId) then appId else Fallback
  }

  /** The pixel size of a tile icon for tile width `tileW` in wloverview.py. */
  function IconSize(tileW: int): int
  {
    if tileW >= 260 then 96
    else if tileW >= 200 then 80
    else if tileW >= 160 then 64
    else 48
  }

  /** wlroverview.py draws every tile icon at 96 pixels. */
  function TileIconSize(v: Variant, tileW: int): int
  {
    if v == WlOverview then IconSize(tileW) else 96
  }

  /** The ladder has exactly four rungs at 260, 200 and 160, and a wider tile never gets a smaller icon. */
  lemma IconSizeLadder(a: int, b: int)
    ensures IconSize(a) in {96, 80, 64, 48}
    ensures IconSize(a) == 96 <==> a >= 260
    ensures IconSize(a) == 48 <==> a < 160
    ensures IconSize(a) == 80 <==> 200 <= a < 260
    ensures a <= b ==> IconSize(a) <= IconSize(b)
  {
  }

  /** The battery icon for an integer percentage, as `get_battery_info` picks it. */
  function BatteryIcon(percentage: int): string
  {
    if percentage >= 90 then "battery-full-symbolic"
    else if percentage >= 60 then "battery-good-symbolic"
    else if percentage >= 30 then "battery-medium-symbolic"
    else if percentage >= 10 then "battery-low-symbolic"
    else "battery-caution-symbolic"
  }

  /** How full an icon name says the battery is, 0 (caution) to 4 (full). */
  function BatteryRank(icon: string): int
  {
    if icon == "battery-full-symbolic" then 4
    else if icon == "battery-good-symbolic" then 3
    else if icon == "battery-medium-symbolic" then 2
    else if icon == "battery-low-symbolic" then 1
    else 0
  }

  /** The icon changes only at 90, 60, 30 and 10, and more charge never shows an emptier battery. */
  lemma BatteryIconLadder(p: int, q: int)
    ensures BatteryRank(BatteryIcon(p)) == (if p >= 90 then 4 else if p >= 60 then 3 else if p >= 30 then 2 else if p >= 10 then 1 else 0)
    ensures p <= q ==> BatteryRank(BatteryIcon(p)) <= BatteryRank(BatteryIcon(q))
  {
  }
}
