/**
 * The title normaliser `normalize_title`, identical in wloverview.py and
 * wlroverview.py: NFKC, then delete zero-width characters, then map seven
 * dash code points to ASCII `-`, then `" ".join(s.split())`.
 * NFKC is a foreign Unicode table and enters as the parameter `nfkc`.
 */
module Titles {
  import opened Text

  /** The regex class of `_ZERO_WIDTH_RE`: U+200B to U+200D and U+FEFF. */
  predicate IsZeroWidth(c: char) {
    ('\U{200B}' <= c <= '\U{200D}') || c == '\U{FEFF}'
  }

  /** The keys of the dash translation table. */
  predicate IsDash(c: char) {
    c == '\U{2010}' || c == '\U{2011}' || c == '\U{2012}' || c == '\U{2013}' ||
    c == '\U{2014}' || c == '\U{2212}' || c == '\U{2043}'
  }

  /** Neither a zero-width character nor a non-ASCII dash. */
  predicate CleanChar(c: char) {
    !IsZeroWidth(c) && !IsDash(c)
  }

  predicate AllClean(s: string) {
    forall c :: c in s ==> CleanChar(c)
  }

  /** `_ZERO_WIDTH_RE.sub("", s)`. */
  function RemoveZeroWidth(s: string): (r: string)
    ensures |r| <= |s|
  {
    if s == [] then []
    else if IsZeroWidth(s[0]) then RemoveZeroWidth(s[1..])
    else [s[0]] + RemoveZeroWidth(s[1..])
  }

  /** `s.translate(_DASH_TRANSLATION)`. */
  function TranslateDashes(s: string): (r: string)
    ensures |r| == |s|
    ensures forall i :: 0 <= i < |s| ==> r[i] == (if IsDash(s[i]) then '-' else s[i])
  {
    seq(|s|, i requires 0 <= i < |s| => if IsDash(s[i]) then '-' else s[i])
  }

  /** Everything `normalize_title` does after NFKC. */
  function Clean(s: string): string
  {
    Collapse(TranslateDashes(RemoveZeroWidth(s)))
  }

  /** `normalize_title(s)`; callers pass `str`, and the falsy `""` short-circuits. */
  function NormalizeTitle(nfkc: string -> string, s: string): string
  {
    if s == "" then "" else Clean(nfkc(s))
  }

  /** Exactly the characters that are not zero-width survive. */
  lemma {:induction false} RemoveZeroWidthChars(s: string)
    ensures forall c :: c in RemoveZeroWidth(s) <==> c in s && !IsZeroWidth(c)
  {
    if s != [] {
      RemoveZeroWidthChars(s[1..]);
      assert forall c :: c in s <==> c == s[0] || c in s[1..];
    }
  }

  lemma {:induction false} RemoveZeroWidthOfClean(s: string)
    requires forall c :: c in s ==> !IsZeroWidth(c)
    ensures RemoveZeroWidth(s) == s
  {
    if s != [] {
      assert s[0] in s;
      assert forall c :: c in s[1..] ==> c in s;
      RemoveZeroWidthOfClean(s[1..]);
    }
  }

  lemma {:induction false} RemoveZeroWidthAppend(a: string, b: string)
    ensures RemoveZeroWidth(a + b) == RemoveZeroWidth(a) + RemoveZeroWidth(b)
  {
    if a != [] {
      assert (a + b)[1..] == a[1..] + b;
      RemoveZeroWidthAppend(a[1..], b);
    } else {
      assert a + b == b;
    }
  }

  lemma TranslateDashesOfClean(s: string)
    requires forall c :: c in s ==> !IsDash(c)
    ensures TranslateDashes(s) == s
  {
    assert forall i :: 0 <= i < |s| ==> s[i] in s;
  }

  /** The post-NFKC pipeline leaves no zero-width character and no non-ASCII dash. */
  lemma CleanIsClean(s: string)
    ensures AllClean(Clean(s))
  {
    var t := TranslateDashes(RemoveZeroWidth(s));
    RemoveZeroWidthChars(s);
    forall c | c in t ensures CleanChar(c) {
      var i :| 0 <= i < |t| && t[i] == c;
    }
    CollapseChars(t);
  }

  /** The post-NFKC pipeline trims both ends and leaves only single ASCII spaces between words. */
  lemma CleanWellSpaced(s: string)
    ensures WellSpaced(Clean(s)) && Trimmed(Clean(s))
  {
    CollapseWellSpaced(TranslateDashes(RemoveZeroWidth(s)));
  }

  /** Strip, translate and collapse applied twice equal applying them once. */
  lemma CleanIdempotent(s: string)
    ensures Clean(Clean(s)) == Clean(s)
  {
    var c := Clean(s);
    CleanIsClean(s);
    RemoveZeroWidthOfClean(c);
    TranslateDashesOfClean(c);
    CollapseIdempotent(TranslateDashes(RemoveZeroWidth(s)));
  }

  /** What `normalize_title` promises of every output, whatever NFKC does. */
  lemma NormalizeTitleShape(nfkc: string -> string, s: string)
    ensures s == "" ==> NormalizeTitle(nfkc, s) == ""
    ensures AllClean(NormalizeTitle(nfkc, s))
    ensures WellSpaced(NormalizeTitle(nfkc, s)) && Trimmed(NormalizeTitle(nfkc, s))
  {
    if s != "" {
      CleanIsClean(nfkc(s));
      CleanWellSpaced(nfkc(s));
    }
  }

  /**
   * Normalising a normalised title changes nothing, provided NFKC leaves the
   * normalised title as it is (which this model does not assume of NFKC).
   */
  lemma NormalizeTitleIdempotent(nfkc: string -> string, s: string)
    requires nfkc(NormalizeTitle(nfkc, s)) == NormalizeTitle(nfkc, s)
    ensures NormalizeTitle(nfkc, NormalizeTitle(nfkc, s)) == NormalizeTitle(nfkc, s)
  {
    if s != "" && NormalizeTitle(nfkc, s) != "" {
      CleanIdempotent(nfkc(s));
    }
  }

  lemma ExampleZeroWidth()
    ensures RemoveZeroWidth("Firefox\U{2014}Private\U{200B}") == "Firefox\U{2014}Private"
  {
    var d := "Firefox\U{2014}Private";
    assert "Firefox\U{2014}Private\U{200B}" == d + "\U{200B}";
    RemoveZeroWidthAppend(d, "\U{200B}");
    assert forall i :: 0 <= i < |d| ==> !IsZeroWidth(d[i]);
    RemoveZeroWidthOfClean(d);
  }

  lemma ExampleDash()
    ensures TranslateDashes("Firefox\U{2014}Private") == "Firefox-Private"
  {
    var a, b := "Firefox", "Private";
    assert forall i :: 0 <= i < |a| ==> !IsDash(a[i]);
    assert forall i :: 0 <= i < |b| ==> !IsDash(b[i]);
    assert "Firefox\U{2014}Private" == a + "\U{2014}" + b;
    assert "Firefox-Private" == a + "-" + b;
  }

  lemma ExampleCollapse()
    ensures Collapse("Firefox-Private") == "Firefox-Private"
  {
    VisibleAsciiNoSpace("Firefox-Private");
    CollapseOfWord("Firefox-Private");
  }

  /** An em dash between two words and a trailing zero-width space. */
  lemma NormalizeFirefoxExample(nfkc: string -> string)
    requires nfkc("Firefox\U{2014}Private\U{200B}") == "Firefox\U{2014}Private\U{200B}"
    ensures NormalizeTitle(nfkc, "Firefox\U{2014}Private\U{200B}") == "Firefox-Private"
  {
    ExampleZeroWidth();
    ExampleDash();
    ExampleCollapse();
  }
}
