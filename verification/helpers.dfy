/** `norm_str` (helpers.py): the normalisation applied to every code and
    location column before the pipeline sees it. The pandas version works on a
    whole column; this model works on one cell, which is what the column
    operation does elementwise. */
module Helpers {
  import opened Common

  /** The characters Python's `str.isspace` accepts, i.e. the ones a bare
      `str.strip()` removes. */
  predicate IsSpace(c: char)
  {
    || c == ' '
    || '\t' <= c <= '\r'
    || '\U{1c}' <= c <= '\U{1f}'
    || c == '\U{85}' || c == '\U{a0}' || c == '\U{1680}'
    || '\U{2000}' <= c <= '\U{200a}'
    || c == '\U{2028}' || c == '\U{2029}' || c == '\U{202f}' || c == '\U{205f}' || c == '\U{3000}'
  }

  predicate IsLowerAscii(c: char)
  {
    'a' <= c <= 'z'
  }

  function UpperChar(c: char): (u: char)
    ensures !IsLowerAscii(u)
    ensures IsSpace(u) == IsSpace(c)
    ensures !IsLowerAscii(c) ==> u == c
  {
    if IsLowerAscii(c) then (c as int - 32) as char else c
  }

  /** `str.upper`, restricted to the ASCII letters: every other character,
      accented and other non-ASCII letters included, is kept as it is. */
  function Upper(s: string): (r: string)
    ensures |r| == |s|
    ensures forall i :: 0 <= i < |r| ==> !IsLowerAscii(r[i])
    ensures forall i :: 0 <= i < |r| ==> IsSpace(r[i]) == IsSpace(s[i])
  {
    seq(|s|, i requires 0 <= i < |s| => UpperChar(s[i]))
  }

  /** The first index at or after `i` that holds no whitespace (`|s|` when
      there is none): where a left strip stops. */
  function TrimStart(s: string, i: nat): (lo: nat)
    requires i <= |s|
    ensures i <= lo <= |s|
    ensures forall k :: i <= k < lo ==> IsSpace(s[k])
    ensures lo == |s| || !IsSpace(s[lo])
    decreases |s| - i
  {
    if i < |s| && IsSpace(s[i]) then TrimStart(s, i + 1) else i
  }

  /** The end of the slice `s[lo..j]` once its trailing whitespace is cut off:
      where a right strip stops. */
  function TrimEnd(s: string, lo: nat, j: nat): (hi: nat)
    requires lo <= j <= |s|
    ensures lo <= hi <= j
    ensures forall k :: hi <= k < j ==> IsSpace(s[k])
    ensures hi == lo || !IsSpace(s[hi - 1])
  {
    if lo < j && IsSpace(s[j - 1]) then TrimEnd(s, lo, j - 1) else j
  }

  /** `str.strip()`: leading whitespace is removed first, then trailing
      whitespace from what is left, so an all-whitespace string becomes "". */
  function Strip(s: string): string
  {
    var lo := TrimStart(s, 0);
    s[lo..TrimEnd(s, lo, |s|)]
  }

  /** The stripped string is a slice `s[lo..hi]` and every character outside
      that slice is whitespace; the slice itself neither starts nor ends with
      whitespace. */
  lemma StripIsTrimmedSlice(s: string)
    ensures exists lo, hi :: 0 <= lo <= hi <= |s| && IsTrimmedTo(s, lo, hi) && Strip(s) == s[lo..hi]
    ensures var r := Strip(s); |r| == 0 || (!IsSpace(r[0]) && !IsSpace(r[|r| - 1]))
  {
    var lo := TrimStart(s, 0);
    var hi := TrimEnd(s, lo, |s|);
    assert IsTrimmedTo(s, lo, hi);
  }

  /** `norm_str` on one cell; a missing cell stays missing. */
  function NormStr(cell: Text): (r: Text)
    ensures r.None? <==> cell.None?
    ensures r.Some? ==> |r.value| <= |cell.value|
    ensures r.Some? ==> forall i :: 0 <= i < |r.value| ==> !IsLowerAscii(r.value[i])
    ensures r.Some? && |r.value| > 0 ==> !IsSpace(r.value[0]) && !IsSpace(r.value[|r.value| - 1])
    ensures r.Some? ==> IsTrimmedUpper(cell.value, r.value)
  {
    match cell
    case None => None
    case Some(s) =>
      StripIsTrimmedSlice(s);
      StripUpperIsTrimmedUpper(s);
      Some(Upper(Strip(s)))
  }

  /** `r` is a slice of `s` with only whitespace cut off on either side,
      upper-cased. */
  ghost predicate IsTrimmedUpper(s: string, r: string)
  {
    exists lo, hi :: 0 <= lo <= hi <= |s| && IsTrimmedTo(s, lo, hi) && r == Upper(s[lo..hi])
  }

  lemma StripUpperIsTrimmedUpper(s: string)
    ensures IsTrimmedUpper(s, Upper(Strip(s)))
  {
    var lo := TrimStart(s, 0);
    var hi := TrimEnd(s, lo, |s|);
    assert IsTrimmedTo(s, lo, hi) && Upper(Strip(s)) == Upper(s[lo..hi]);
  }

  /** Everything of `s` outside the slice `s[lo..hi]` is whitespace. */
  ghost predicate IsTrimmedTo(s: string, lo: nat, hi: nat)
    requires lo <= hi <= |s|
  {
    && (forall k :: 0 <= k < lo ==> IsSpace(s[k]))
    && (forall k :: hi <= k < |s| ==> IsSpace(s[k]))
  }

  lemma UpperIdempotent(s: string)
    ensures Upper(Upper(s)) == Upper(s)
  {
  }

  /** Stripping a string that has no surrounding whitespace changes nothing. */
  lemma StripTrimmed(t: string)
    requires |t| == 0 || (!IsSpace(t[0]) && !IsSpace(t[|t| - 1]))
    ensures Strip(t) == t
  {
    assert TrimStart(t, 0) == 0;
    assert TrimEnd(t, 0, |t|) == |t|;
  }

  /** Stripping and upper-casing a string a second time changes nothing. */
  lemma StripUpperIdempotent(s: string)
    ensures Upper(Strip(Upper(Strip(s)))) == Upper(Strip(s))
  {
    var t := Strip(s);
    var u := Upper(t);
    StripIsTrimmedSlice(s);
    assert |u| == 0 || (!IsSpace(u[0]) && !IsSpace(u[|u| - 1]));
    StripTrimmed(u);
    UpperIdempotent(t);
  }

  /** Normalising twice is the same as normalising once. */
  lemma NormStrIdempotent(cell: Text)
    ensures NormStr(NormStr(cell)) == NormStr(cell)
  {
    if cell.Some? {
      StripUpperIdempotent(cell.value);
    }
  }
}
