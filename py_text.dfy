/**
 * The two Python string operations the text store relies on: slicing with integer
 * offsets (`s[start:end]`) and `str.strip()`.
 */
module PyText {

  /** Python's `str.isspace()` for one character. */
  predicate IsSpace(c: char) {
    c == ' ' || ('\t' <= c <= '\r') || ('\U{1C}' <= c <= '\U{1F}')
    || c == '\U{85}' || c == '\U{A0}' || c == '\U{1680}' || ('\U{2000}' <= c <= '\U{200A}')
    || c == '\U{2028}' || c == '\U{2029}' || c == '\U{202F}' || c == '\U{205F}' || c == '\U{3000}'
  }

  predicate AllSpace(s: string) {
    forall k :: 0 <= k < |s| ==> IsSpace(s[k])
  }

  /** How Python adjusts one slice bound against a length n: a negative bound counts
      from the end, and the result is clamped to [0, n]. */
  function SliceBound(i: int, n: nat): (k: nat)
    ensures k <= n
    ensures 0 <= i <= n ==> k == i
    ensures i > n ==> k == n
    ensures i < 0 <= i + n ==> k == n + i
    ensures i + n < 0 ==> k == 0
  {
    if i < 0 then (if i + n < 0 then 0 else i + n) else if i > n then n else i
  }

  /** `s[start:end]`: never out of range; empty when the adjusted bounds are out of order. */
  function Slice(s: string, start: int, end: int): (r: string)
    ensures 0 <= start <= end <= |s| ==> r == s[start..end]
    ensures 0 <= end <= start ==> r == []
    ensures exists i, j :: 0 <= i <= j <= |s| && r == s[i..j]
    ensures var i, j := SliceBound(start, |s|), SliceBound(end, |s|);
            (i <= j ==> r == s[i..j]) && (j <= i ==> r == [])
  {
    var i, j := SliceBound(start, |s|), SliceBound(end, |s|);
    if i < j then s[i..j] else s[0..0]
  }

  function TrimStart(s: string): (r: string)
    ensures |r| <= |s| && r == s[|s| - |r|..]
    ensures AllSpace(s[..|s| - |r|])
    ensures r == [] || !IsSpace(r[0])
  {
    if s != [] && IsSpace(s[0]) then
      var r := TrimStart(s[1..]);
      assert s[..|s| - |r|] == [s[0]] + s[1..][..|s| - 1 - |r|];
      r
    else s
  }

  function TrimEnd(s: string): (r: string)
    ensures |r| <= |s| && r == s[..|r|]
    ensures AllSpace(s[|r|..])
    ensures r == [] || !IsSpace(r[|r| - 1])
  {
    if s != [] && IsSpace(s[|s| - 1]) then
      var r := TrimEnd(s[..|s| - 1]);
      assert s[|r|..] == s[..|s| - 1][|r|..] + [s[|s| - 1]];
      r
    else s
  }

  /** `str.strip()`: drops the whitespace run at each end and keeps the rest as it was. */
  function Strip(s: string): (r: string)
    ensures exists i, j :: 0 <= i <= j <= |s| && r == s[i..j] && AllSpace(s[..i]) && AllSpace(s[j..])
    ensures r == [] || (!IsSpace(r[0]) && !IsSpace(r[|r| - 1]))
  {
    var t := TrimStart(s);
    var r := TrimEnd(t);
    var i := |s| - |t|;
    assert r == s[i..i + |r|];
    assert s[i + |r|..] == t[|r|..];
    r
  }

  /** Stripping a stretch of a longer text cuts only whitespace from that stretch. */
  lemma StripOfRange(s: string, lo: int, hi: int)
    requires 0 <= lo <= hi <= |s|
    ensures exists i, j :: lo <= i <= j <= hi && Strip(s[lo..hi]) == s[i..j]
                           && AllSpace(s[lo..i]) && AllSpace(s[j..hi])
  {
    var i, j := StripBounds(s[lo..hi]);
    ShiftedSlices(s, lo, hi, i, j);
  }

  /** Where the kept part of `Strip(s)` begins and ends in `s`. */
  lemma StripBounds(s: string) returns (i: nat, j: nat)
    ensures i <= j <= |s| && Strip(s) == s[i..j] && AllSpace(s[..i]) && AllSpace(s[j..])
  {
    var t := TrimStart(s);
    i := |s| - |t|;
    j := i + |TrimEnd(t)|;
    assert t[|TrimEnd(t)|..] == s[j..];
  }

  lemma ShiftedSlices(s: string, lo: int, hi: int, i: nat, j: nat)
    requires 0 <= lo <= hi <= |s| && i <= j <= hi - lo
    ensures s[lo..hi][i..j] == s[lo + i..lo + j]
    ensures s[lo..hi][..i] == s[lo..lo + i]
    ensures s[lo..hi][j..] == s[lo + j..hi]
  {
    var piece := s[lo..hi];
    assert forall k :: 0 <= k < j - i ==> piece[i..j][k] == piece[i + k] == s[lo + i + k];
  }

  /** Text that has no whitespace at either end is left as it is. */
  lemma StripKeepsTrimmed(s: string)
    requires s == [] || (!IsSpace(s[0]) && !IsSpace(s[|s| - 1]))
    ensures Strip(s) == s
  {
  }

  lemma StripIdempotent(s: string)
    ensures Strip(Strip(s)) == Strip(s)
  {
    StripKeepsTrimmed(Strip(s));
  }

  /** Stripping peels off exactly the surrounding whitespace and nothing else. */
  lemma {:induction false} StripSurrounded(lead: string, core: string, trail: string)
    requires AllSpace(lead) && AllSpace(trail)
    requires core == [] || (!IsSpace(core[0]) && !IsSpace(core[|core| - 1]))
    ensures Strip(lead + core + trail) == core
  {
    var whole := lead + core + trail;
    if core == [] {
      assert whole == lead + trail;
      assert AllSpace(whole) by {
        forall k | 0 <= k < |whole| ensures IsSpace(whole[k]) {
          if k < |lead| { assert whole[k] == lead[k]; } else { assert whole[k] == trail[k - |lead|]; }
        }
      }
      AllSpaceStrip(whole);
    } else {
      assert whole == lead + (core + trail);
      TrimStartPrefix(lead, core + trail);
      TrimEndSuffix(core, trail);
      assert Strip(whole) == TrimEnd(TrimStart(whole));
    }
  }

  lemma AllSpaceStrip(s: string)
    requires AllSpace(s)
    ensures Strip(s) == []
  {
  }

  lemma {:induction false} TrimStartPrefix(lead: string, rest: string)
    requires AllSpace(lead)
    requires rest != [] && !IsSpace(rest[0])
    ensures TrimStart(lead + rest) == rest
  {
    if lead != [] {
      assert (lead + rest)[1..] == lead[1..] + rest;
      TrimStartPrefix(lead[1..], rest);
    }
  }

  lemma {:induction false} TrimEndSuffix(core: string, trail: string)
    requires AllSpace(trail)
    requires core != [] && !IsSpace(core[|core| - 1])
    ensures TrimEnd(core + trail) == core
  {
    if trail != [] {
      assert (core + trail)[..|core + trail| - 1] == core + trail[..|trail| - 1];
      TrimEndSuffix(core, trail[..|trail| - 1]);
    }
  }
}
