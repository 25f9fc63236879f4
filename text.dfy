/** `normalizar` of processar_com_bairro.py: `""` for a falsy input, otherwise `txt.strip().upper()`. */
module Text {
  import opened Wrappers

  /** The characters for which Python's `str.isspace()` holds; `str.strip()` removes exactly these. */
  predicate IsSpace(c: char) {
    || ('\t' <= c <= '\r')
    || ('\U{1C}' <= c <= '\U{1F}')
    || c == ' ' || c == '\U{85}' || c == '\U{A0}' || c == '\U{1680}'
    || ('\U{2000}' <= c <= '\U{200A}')
    || c == '\U{2028}' || c == '\U{2029}' || c == '\U{202F}' || c == '\U{205F}' || c == '\U{3000}'
  }

  /** Removes leading whitespace: what is dropped is whitespace, what is kept starts with a non-space. */
  function StripLeft(s: string): (r: string)
    ensures |r| <= |s| && r == s[|s| - |r|..]
    ensures forall i :: 0 <= i < |s| - |r| ==> IsSpace(s[i])
    ensures r == [] || !IsSpace(r[0])
  {
    if s != [] && IsSpace(s[0]) then
      var r := StripLeft(s[1..]);
      assert s[1..][|s| - 1 - |r|..] == s[|s| - |r|..];
      r
    else s
  }

  /** Removes trailing whitespace: what is dropped is whitespace, what is kept ends with a non-space. */
  function StripRight(s: string): (r: string)
    ensures |r| <= |s| && r == s[..|r|]
    ensures forall i :: |r| <= i < |s| ==> IsSpace(s[i])
    ensures r == [] || !IsSpace(r[|r| - 1])
  {
    if s != [] && IsSpace(s[|s| - 1]) then
      var r := StripRight(s[..|s| - 1]);
      assert s[..|s| - 1][..|r|] == s[..|r|];
      r
    else s
  }

  /** `r` is the slice of `s` that starts at `i` and everything around that slice is whitespace. */
  ghost predicate SliceBetweenSpaces(s: string, r: string, i: int) {
    && 0 <= i <= |s| - |r| && r == s[i..i + |r|]
    && (forall k :: 0 <= k < i ==> IsSpace(s[k]))
    && (forall k :: i + |r| <= k < |s| ==> IsSpace(s[k]))
  }

  /** Cutting leading whitespace, then trailing whitespace, leaves a slice with only whitespace around it. */
  lemma {:induction false} TwoCutsSlice(s: string, left: string, r: string)
    requires |left| <= |s| && left == s[|s| - |left|..]
    requires forall k :: 0 <= k < |s| - |left| ==> IsSpace(s[k])
    requires |r| <= |left| && r == left[..|r|]
    requires forall k :: |r| <= k < |left| ==> IsSpace(left[k])
    ensures SliceBetweenSpaces(s, r, |s| - |left|)
  {
    var i := |s| - |left|;
    forall k | i + |r| <= k < |s| ensures IsSpace(s[k]) {
      assert s[k] == left[k - i];
    }
  }

  /** Python's `str.strip()`: the slice of `s` between its leading and trailing whitespace. */
  function Strip(s: string): (r: string)
    ensures exists i :: SliceBetweenSpaces(s, r, i)
    ensures r == [] || (!IsSpace(r[0]) && !IsSpace(r[|r| - 1]))
  {
    var left := StripLeft(s);
    TwoCutsSlice(s, left, StripRight(left));
    StripRight(left)
  }

  /** Python's `str.upper()` on one character, for ASCII and Latin-1 (the encoding the CSV files are read in). */
  function UpperChar(c: char): (r: string)
    ensures |r| >= 1
  {
    if 'a' <= c <= 'z' || ('\U{E0}' <= c <= '\U{FE}' && c != '\U{F7}') then [(c as int - 32) as char]
    else if c == '\U{FF}' then ['\U{178}']   // LATIN SMALL LETTER Y WITH DIAERESIS
    else if c == '\U{B5}' then ['\U{39C}']   // MICRO SIGN becomes GREEK CAPITAL LETTER MU
    else if c == '\U{DF}' then "SS"          // SHARP S has no one-character upper case
    else [c]
  }

  /** A character that `str.upper()` leaves as it is: none of those `UpperChar` maps elsewhere. */
  predicate IsUpper(c: char) {
    && !('a' <= c <= 'z')
    && !('\U{E0}' <= c <= '\U{FF}' && c != '\U{F7}')
    && c != '\U{B5}' && c != '\U{DF}'
  }

  /** Upper-casing yields only characters that upper-casing leaves alone, and keeps a non-space a non-space. */
  lemma {:induction false} UpperCharIsUpper(c: char)
    ensures IsUpper(c) <==> UpperChar(c) == [c]
    ensures forall i :: 0 <= i < |UpperChar(c)| ==> IsUpper(UpperChar(c)[i])
    ensures !IsSpace(c) ==> forall i :: 0 <= i < |UpperChar(c)| ==> !IsSpace(UpperChar(c)[i])
  {
  }

  /** Python's `str.upper()`, character by character. */
  function Upper(s: string): (r: string)
    ensures |r| >= |s|
    ensures forall i :: 0 <= i < |r| ==> IsUpper(r[i])
  {
    if s == [] then [] else UpperCharIsUpper(s[0]); UpperChar(s[0]) + Upper(s[1..])
  }

  lemma {:induction false} UpperAppend(a: string, b: string)
    ensures Upper(a + b) == Upper(a) + Upper(b)
  {
    if a != [] {
      assert (a + b)[1..] == a[1..] + b;
      UpperAppend(a[1..], b);
    } else {
      assert a + b == b;
    }
  }

  /** A text without surrounding whitespace keeps none after upper-casing. */
  lemma {:induction false} UpperKeepsEnds(s: string)
    requires s == [] || (!IsSpace(s[0]) && !IsSpace(s[|s| - 1]))
    ensures Upper(s) == [] || (!IsSpace(Upper(s)[0]) && !IsSpace(Upper(s)[|Upper(s)| - 1]))
  {
    if s != [] {
      var n := |s|;
      UpperCharIsUpper(s[0]);
      UpperCharIsUpper(s[n - 1]);
      assert s == s[..n - 1] + [s[n - 1]];
      UpperAppend(s[..n - 1], [s[n - 1]]);
      assert Upper([s[n - 1]]) == UpperChar(s[n - 1]);
    }
  }

  /** Upper-casing a text that is already upper case changes nothing. */
  lemma {:induction false} UpperOfUpper(s: string)
    requires forall i :: 0 <= i < |s| ==> IsUpper(s[i])
    ensures Upper(s) == s
  {
    if s != [] {
      UpperOfUpper(s[1..]);
    }
  }

  /** Stripping a text without surrounding whitespace changes nothing. */
  lemma {:induction false} StripOfStripped(s: string)
    requires s == [] || (!IsSpace(s[0]) && !IsSpace(s[|s| - 1]))
    ensures Strip(s) == s
  {
    var r := Strip(s);
    var i :| SliceBetweenSpaces(s, r, i);
    if s != [] {
      assert i == 0;
      assert !IsSpace(s[|s| - 1]);
    }
  }

  /** `normalizar` (processar_com_bairro.py:14-17): an absent or empty text gives `""`; any other text
      loses its surrounding whitespace and is upper-cased. */
  function Normalize(txt: Option<string>): (r: string)
    ensures txt == None || txt == Some("") ==> r == ""
    ensures r == [] || (!IsSpace(r[0]) && !IsSpace(r[|r| - 1]))
    ensures forall i :: 0 <= i < |r| ==> IsUpper(r[i])
  {
    if txt.None? || txt.value == "" then ""
    else
      var s := Strip(txt.value);
      UpperKeepsEnds(s);
      Upper(s)
  }

  /** A text without surrounding whitespace and without lower-case letters is its own normal form. */
  lemma {:induction false} NormalizeFixed(s: string)
    requires s == [] || (!IsSpace(s[0]) && !IsSpace(s[|s| - 1]))
    requires forall i :: 0 <= i < |s| ==> IsUpper(s[i])
    ensures Normalize(Some(s)) == s
  {
    if s != [] {
      StripOfStripped(s);
      UpperOfUpper(s);
    }
  }

  /** Normalising an already normalised text gives it back unchanged. */
  lemma {:induction false} NormalizeIdempotent(txt: Option<string>)
    ensures Normalize(Some(Normalize(txt))) == Normalize(txt)
  {
    NormalizeFixed(Normalize(txt));
  }
}
