/**
 * Column-header normalisation of `clean_data`: every header becomes
 * `name.strip().lower().replace(' ', '_')`, with Python's string semantics.
 */
module Headers {

  /** Python's `str.isspace`: the characters `strip()` removes when given no argument. */
  predicate IsWhitespace(c: char): (b: bool)
    ensures c == ' ' || c == '\t' || c == '\n' ==> b
    ensures b ==> !IsUpper(c) && c != '_'
  {
    || '\t' <= c <= '\r'
    || '\U{1C}' <= c <= ' '
    || c == '\U{85}' || c == '\U{A0}' || c == '\U{1680}'
    || '\U{2000}' <= c <= '\U{200A}'
    || c == '\U{2028}' || c == '\U{2029}' || c == '\U{202F}' || c == '\U{205F}' || c == '\U{3000}'
  }

  /** Upper-case letters of ASCII and Latin-1 (U+00D7, the multiplication sign, is not a letter). */
  predicate IsUpper(c: char): (b: bool)
    ensures b ==> 'A' <= c <= '\U{DE}' && c != '_'
  {
    'A' <= c <= 'Z' || ('\U{C0}' <= c <= '\U{DE}' && c != '\U{D7}')
  }

  /** Neither the first nor the last character is whitespace. */
  predicate Trimmed(s: string) {
    s == [] || (!IsWhitespace(s[0]) && !IsWhitespace(s[|s| - 1]))
  }

  /** No character is an upper-case letter. */
  predicate NoUpper(s: string) {
    forall i :: 0 <= i < |s| ==> !IsUpper(s[i])
  }

  /** A header as `clean_data` leaves it: trimmed, lower-case, no space character. */
  predicate IsNormalized(h: string) {
    ' ' !in h && NoUpper(h) && Trimmed(h)
  }

  /** The leading-whitespace half of `strip()`. */
  function TrimStart(s: string): (r: string)
    ensures |r| <= |s| && r == s[|s| - |r|..]
    ensures forall i :: 0 <= i < |s| - |r| ==> IsWhitespace(s[i])
    ensures r == [] || !IsWhitespace(r[0])
  {
    if s != [] && IsWhitespace(s[0]) then TrimStart(s[1..]) else s
  }

  /** The trailing-whitespace half of `strip()`. */
  function TrimEnd(s: string): (r: string)
    ensures |r| <= |s| && r == s[..|r|]
    ensures forall i :: |r| <= i < |s| ==> IsWhitespace(s[i])
    ensures r == [] || !IsWhitespace(r[|r| - 1])
  {
    if s != [] && IsWhitespace(s[|s| - 1]) then TrimEnd(s[..|s| - 1]) else s
  }

  /** Trimming the end of a string that does not start with whitespace keeps that start. */
  lemma TrimEndKeepsStart(s: string)
    requires s == [] || !IsWhitespace(s[0])
    ensures Trimmed(TrimEnd(s))
  {
    var r := TrimEnd(s);
    if r != [] {
      assert r[0] == s[0];
    }
  }

  /** `str.strip()`: the result neither starts nor ends with whitespace. */
  function Strip(s: string): (r: string)
    ensures |r| <= |s|
    ensures Trimmed(r)
  {
    TrimEndKeepsStart(TrimStart(s));
    TrimEnd(TrimStart(s))
  }

  /** Lower-case letters of ASCII and Latin-1 that have a single-character upper-case form here. */
  predicate IsLowerLetter(c: char) {
    'a' <= c <= 'z' || ('\U{E0}' <= c <= '\U{FE}' && c != '\U{F7}')
  }

  /** `str.upper()` on the letters `IsLowerLetter` admits: the partner `LowerChar` undoes. */
  function UpperChar(c: char): (u: char)
    ensures IsLowerLetter(c) ==> IsUpper(u) && u as int == c as int - 32
    ensures !IsLowerLetter(c) ==> u == c
  {
    if IsLowerLetter(c) then (c as int - 32) as char else c
  }

  /** `str.lower()` on one character. */
  function LowerChar(c: char): (d: char)
    ensures !IsUpper(d)
    ensures !IsUpper(c) ==> d == c
    ensures IsUpper(c) ==> IsLowerLetter(d) && d as int == c as int + 32 && UpperChar(d) == c
    ensures IsWhitespace(d) == IsWhitespace(c)
  {
    if IsUpper(c) then (c as int + 32) as char else c
  }

  /** Lower-casing and upper-casing are inverse on the letters they map. */
  lemma CaseRoundTrip(c: char)
    ensures IsUpper(c) ==> UpperChar(LowerChar(c)) == c
    ensures IsLowerLetter(c) ==> LowerChar(UpperChar(c)) == c
  {
  }

  /** `str.lower()`: no upper-case letter is left, everything else is kept in place. */
  function Lower(s: string): (r: string)
    ensures |r| == |s|
    ensures NoUpper(r)
    ensures forall i :: 0 <= i < |s| && !IsUpper(s[i]) ==> r[i] == s[i]
    ensures forall i :: 0 <= i < |s| && IsUpper(s[i]) ==> IsLowerLetter(r[i]) && UpperChar(r[i]) == s[i]
    ensures Trimmed(s) ==> Trimmed(r)
  {
    var r := seq(|s|, i requires 0 <= i < |s| => LowerChar(s[i]));
    assert r != [] ==> r[0] == LowerChar(s[0]) && r[|r| - 1] == LowerChar(s[|s| - 1]);
    r
  }

  /** `str.replace(' ', '_')`: only U+0020 is replaced; tabs and other whitespace stay. */
  function ReplaceSpaces(s: string): (r: string)
    ensures |r| == |s|
    ensures ' ' !in r
    ensures forall i :: 0 <= i < |s| && s[i] != ' ' ==> r[i] == s[i]
    ensures forall i :: 0 <= i < |s| && s[i] == ' ' ==> r[i] == '_'
    ensures NoUpper(s) ==> NoUpper(r)
    ensures Trimmed(s) ==> Trimmed(r)
  {
    seq(|s|, i requires 0 <= i < |s| => if s[i] == ' ' then '_' else s[i])
  }

  /** `col.strip().lower().replace(' ', '_')`. */
  function Normalize(h: string): (r: string)
    ensures IsNormalized(r)
    ensures |r| <= |h|
  {
    ReplaceSpaces(Lower(Strip(h)))
  }

  /** The list comprehension that rewrites every header. */
  function NormalizeAll(cols: seq<string>): (r: seq<string>)
    ensures |r| == |cols|
    ensures forall i :: 0 <= i < |r| ==> IsNormalized(r[i])
  {
    seq(|cols|, i requires 0 <= i < |cols| => Normalize(cols[i]))
  }

  /** `s` is `r` with only whitespace before position `lo` and after `r`. */
  predicate WhitespaceAround(s: string, lo: int, r: string) {
    && 0 <= lo <= |s| - |r|
    && r == s[lo..lo + |r|]
    && (forall i :: 0 <= i < lo ==> IsWhitespace(s[i]))
    && (forall i :: lo + |r| <= i < |s| ==> IsWhitespace(s[i]))
  }

  /** Cutting whitespace off the front and then off the back leaves an infix with whitespace around it. */
  lemma WhitespaceAroundParts(s: string, t: string, r: string)
    requires |t| <= |s| && t == s[|s| - |t|..] && |r| <= |t| && r == t[..|r|]
    requires forall i :: 0 <= i < |s| - |t| ==> IsWhitespace(s[i])
    requires forall i :: |r| <= i < |t| ==> IsWhitespace(t[i])
    ensures WhitespaceAround(s, |s| - |t|, r)
  {
    var lo := |s| - |t|;
    assert s[lo..][..|r|] == s[lo..lo + |r|];
    forall i | lo + |r| <= i < |s| ensures IsWhitespace(s[i]) {
      assert s[i] == t[i - lo];
    }
  }

  /** `strip()` returns an infix of its argument, removing only whitespace on either side. */
  lemma StripIsInfix(s: string)
    ensures exists lo :: WhitespaceAround(s, lo, Strip(s))
  {
    var t := TrimStart(s);
    WhitespaceAroundParts(s, t, TrimEnd(t));
    assert WhitespaceAround(s, |s| - |t|, Strip(s));
  }

  /** `strip()` leaves a string alone when it neither starts nor ends with whitespace. */
  lemma StripTrimmed(s: string)
    requires Trimmed(s)
    ensures Strip(s) == s
  {
    assert TrimStart(s) == s;
  }

  /** `lower()` is the identity on a string with no upper-case letter. */
  lemma LowerFixed(s: string)
    requires NoUpper(s)
    ensures Lower(s) == s
  {
    var r := Lower(s);
    forall i | 0 <= i < |s| ensures r[i] == s[i] {
    }
  }

  /** `replace(' ', '_')` is the identity on a string with no space. */
  lemma ReplaceSpacesFixed(s: string)
    requires ' ' !in s
    ensures ReplaceSpaces(s) == s
  {
    var r := ReplaceSpaces(s);
    forall i | 0 <= i < |s| ensures r[i] == s[i] {
      assert s[i] != ' ';
    }
  }

  /** Normalising an already normalised header changes nothing. */
  lemma NormalizedFixed(h: string)
    requires IsNormalized(h)
    ensures Normalize(h) == h
  {
    StripTrimmed(h);
    LowerFixed(h);
    ReplaceSpacesFixed(h);
  }

  /** A trailing space is all that separates `h + " "` from the normalised header `h`. */
  lemma TrailingSpaceRemoved(h: string)
    requires IsNormalized(h)
    ensures Normalize(h + " ") == h
  {
    var s := h + " ";
    if h == [] {
      assert TrimStart(s) == [];
    } else {
      assert TrimStart(s) == s;
      assert s[..|s| - 1] == h;
      assert TrimEnd(s) == TrimEnd(h);
      StripTrimmed(h);
    }
    NormalizedFixed(h);
  }

  /** Header normalisation is idempotent. */
  lemma NormalizeIdempotent(h: string)
    ensures Normalize(Normalize(h)) == Normalize(h)
  {
    NormalizedFixed(Normalize(h));
  }

  /** Normalising a whole header list is idempotent. */
  lemma NormalizeAllIdempotent(cols: seq<string>)
    ensures NormalizeAll(NormalizeAll(cols)) == NormalizeAll(cols)
  {
    var n := NormalizeAll(cols);
    forall i | 0 <= i < |n| ensures NormalizeAll(n)[i] == n[i] {
      NormalizedFixed(n[i]);
    }
  }

  /** A header is normalised exactly when normalising it changes nothing. */
  lemma NormalizedIffFixed(h: string)
    ensures IsNormalized(h) <==> Normalize(h) == h
  {
    if IsNormalized(h) {
      NormalizedFixed(h);
    }
  }

  /** Only U+0020 becomes '_': an interior tab survives normalisation. */
  lemma InteriorTabKept()
    ensures Normalize("a\tb") == "a\tb"
  {
    assert IsNormalized("a\tb");
    NormalizedFixed("a\tb");
  }

  /** `lower()` turns only the `C` of `"2020 Census"` into `c`. */
  lemma LowerCensusHeader()
    ensures Lower("2020 Census") == "2020 census"
  {
    var s, want := "2020 Census", "2020 census";
    var l := Lower(s);
    assert IsUpper(s[5]);
    assert l[5] as int == s[5] as int + 32;
    forall i | 0 <= i < 11 && i != 5 ensures l[i] == want[i] {
      assert !IsUpper(s[i]);
    }
    assert l == want;
  }

  /** `replace(' ', '_')` turns `"2020 census"` into `"2020_census"`. */
  lemma ReplaceCensusHeader()
    ensures ReplaceSpaces("2020 census") == "2020_census"
  {
    var s, want := "2020 census", "2020_census";
    var r := ReplaceSpaces(s);
    assert r[4] == '_';
    forall i | 0 <= i < 11 && i != 4 ensures r[i] == want[i] {
      assert s[i] != ' ';
    }
    assert r == want;
  }

  /** `"2020 Census"` normalises to `"2020_census"`, one step of the pipeline at a time. */
  lemma NormalizeSpacedCensus()
    ensures Normalize("2020 Census") == "2020_census"
  {
    assert Trimmed("2020 Census");
    StripTrimmed("2020 Census");
    LowerCensusHeader();
    ReplaceCensusHeader();
  }

  /** Two distinct headers can normalise to the same name. */
  lemma CensusHeadersCollide()
    ensures Normalize("2020 Census") == Normalize("2020_census") == "2020_census"
  {
    assert IsNormalized("2020_census");
    NormalizedFixed("2020_census");
    NormalizeSpacedCensus();
  }
}
