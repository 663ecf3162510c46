/**
 * The window enumerator `get_windows`: it parses the lines `wlrctl toplevel
 * list` prints, each `appid:title`, into (app id, raw title, normalised
 * title) triples, and `get_running_app_ids` collects the app ids.
 * Running `wlrctl` is outside the model: its output arrives as `None`
 * (the command failed) or as the sequence of its lines.
 */
module Windows {
  import opened Optional
  import opened Text
  import opened Titles

  /** The two programs: wloverview.py and wlroverview.py. */
  datatype Variant = WlOverview | WlrOverview

  /** One open window; the tuple `(appid, title_raw, title_norm)`. */
  datatype Window = Window(appId: string, rawTitle: string, normTitle: string)

  /** The overview's own application id. */
  const OwnAppId := "org.broomlabs.wloverview"

  /** `line.split(":", 1)`, or `None` for a line the loop skips because it has no colon. */
  function SplitFirstColon(line: string): (r: Option<(string, string)>)
    ensures r.None? <==> ':' !in line
    ensures r.Some? ==> ':' !in r.value.0 && line == r.value.0 + ":" + r.value.1
  {
    var k := IndexOf(line, ':');
    if k == |line| then None
    else
      assert line == line[..k] + ":" + line[k + 1..];
      Some((line[..k], line[k + 1..]))
  }

  /** The entries each program drops: its own window, and in wlroverview.py also a title that lower-cases to `wloverview`. */
  predicate Excluded(v: Variant, appId: string, title: string) {
    appId == OwnAppId || (v == WlrOverview && LowerAscii(title) == "wloverview")
  }

  /** What one iteration of the parse loop contributes to `out`. */
  function ParseLine(v: Variant, nfkc: string -> string, line: string): Option<Window>
  {
    match SplitFirstColon(line)
    case None => None
    case Some((a, t)) =>
      var appId, title := Strip(a), Strip(t);
      if Excluded(v, appId, title) then None
      else Some(Window(appId, title, NormalizeTitle(nfkc, title)))
  }

  function AsSeq(o: Option<Window>): seq<Window> {
    if o.Some? then [o.value] else []
  }

  /** The windows `get_windows` returns for these lines, processed in order. */
  function Parse(v: Variant, nfkc: string -> string, lines: seq<string>): seq<Window>
  {
    if lines == [] then []
    else Parse(v, nfkc, lines[..|lines| - 1]) + AsSeq(ParseLine(v, nfkc, lines[|lines| - 1]))
  }

  /** `get_windows()`: the parse loop over the lines, or `[]` when `wlrctl` failed. */
  method GetWindows(v: Variant, nfkc: string -> string, output: Option<seq<string>>) returns (out: seq<Window>)
    ensures output.None? ==> out == []
    ensures output.Some? ==> out == Parse(v, nfkc, output.value)
  {
    if output.None? {
      return [];
    }
    var lines := output.value;
    out := [];
    var i := 0;
    while i < |lines|
      invariant 0 <= i <= |lines|
      invariant out == Parse(v, nfkc, lines[..i])
    {
      var line := lines[i];
      ParseStep(v, nfkc, lines, i);
      var parts := SplitFirstColon(line);
      if parts.None? {
        assert ParseLine(v, nfkc, line) == None;
        i := i + 1;
        continue;
      }
      var appId, title := Strip(parts.value.0), Strip(parts.value.1);
      if Excluded(v, appId, title) {
        assert ParseLine(v, nfkc, line) == None;
        i := i + 1;
        continue;
      }
      assert ParseLine(v, nfkc, line) == Some(Window(appId, title, NormalizeTitle(nfkc, title)));
      out := out + [Window(appId, title, NormalizeTitle(nfkc, title))];
      i := i + 1;
    }
    assert lines[..i] == lines;
  }

  lemma ParseStep(v: Variant, nfkc: string -> string, lines: seq<string>, i: nat)
    requires i < |lines|
    ensures Parse(v, nfkc, lines[..i + 1]) == Parse(v, nfkc, lines[..i]) + AsSeq(ParseLine(v, nfkc, lines[i]))
  {
    var pre := lines[..i + 1];
    assert pre[..|pre| - 1] == lines[..i];
    assert pre[|pre| - 1] == lines[i];
  }

  /** A line yields a window exactly when it has a colon and is not one of the excluded entries; then the window is the stripped halves around the first colon. */
  lemma ParseLineExact(v: Variant, nfkc: string -> string, line: string)
    ensures ParseLine(v, nfkc, line).Some? <==>
      ':' in line &&
      !Excluded(v, Strip(line[..IndexOf(line, ':')]), Strip(line[IndexOf(line, ':') + 1..]))
    ensures ParseLine(v, nfkc, line).Some? ==>
      var k := IndexOf(line, ':');
      ParseLine(v, nfkc, line).value ==
        Window(Strip(line[..k]), Strip(line[k + 1..]), NormalizeTitle(nfkc, Strip(line[k + 1..])))
  {
  }

  /** Each window the parser keeps: an app id with no colon and no blank at either end that is not the overview's own, a stripped title, and the title normalised. */
  predicate WellFormed(v: Variant, nfkc: string -> string, w: Window) {
    ':' !in w.appId && Trimmed(w.appId) && Trimmed(w.rawTitle) &&
    !Excluded(v, w.appId, w.rawTitle) && w.normTitle == NormalizeTitle(nfkc, w.rawTitle)
  }

  lemma {:induction false} ParseWellFormed(v: Variant, nfkc: string -> string, lines: seq<string>)
    ensures forall w :: w in Parse(v, nfkc, lines) ==> WellFormed(v, nfkc, w)
  {
    if lines != [] {
      ParseWellFormed(v, nfkc, lines[..|lines| - 1]);
    }
  }

  /** The parse of a concatenation is the concatenation of the parses: input order is kept. */
  lemma {:induction false} ParseAppend(v: Variant, nfkc: string -> string, a: seq<string>, b: seq<string>)
    ensures Parse(v, nfkc, a + b) == Parse(v, nfkc, a) + Parse(v, nfkc, b)
    decreases |b|
  {
    if b == [] {
      assert a + b == a;
    } else {
      var b' := b[..|b| - 1];
      assert (a + b)[..|a + b| - 1] == a + b';
      assert (a + b)[|a + b| - 1] == b[|b| - 1];
      ParseAppend(v, nfkc, a, b');
    }
  }

  /** The parse loop keeps at most one window per line. */
  lemma {:induction false} ParseLength(v: Variant, nfkc: string -> string, lines: seq<string>)
    ensures |Parse(v, nfkc, lines)| <= |lines|
  {
    if lines != [] {
      ParseLength(v, nfkc, lines[..|lines| - 1]);
    }
  }

  /** `get_running_app_ids()`: `{appid for appid, *_ in wins}`. */
  function RunningAppIds(wins: seq<Window>): (ids: set<string>)
    ensures forall id :: id in ids <==> exists i :: 0 <= i < |wins| && wins[i].appId == id
  {
    set i | 0 <= i < |wins| :: wins[i].appId
  }
}
