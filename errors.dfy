/**
 * The errors the text store and the registry raise, and the message an
 * `InvalidVerseError` carries when it is built from a bare verse id.
 */
module Errors {
  import opened Wrappers
  import opened Versions

  datatype Error =
    | InvalidVerse(verseId: int)          // the id fails the validator
    | VersionMissingVerse(verseId: int)   // the translation has no offset for the id
    | MissingVerseFile(version: Version)  // no registered Bible and no files to load

  const InvalidVerseSuffix: string := " is not a valid verse."

  /** Message of `InvalidVerseError(verse_id=id)`: the id as Python's `str(int)` writes it,
      then " is not a valid verse." */
  function InvalidVerseMessage(id: int): (msg: string)
    ensures |msg| > |InvalidVerseSuffix| && msg[|msg| - |InvalidVerseSuffix|..] == InvalidVerseSuffix
    ensures ParseInt(msg[..|msg| - |InvalidVerseSuffix|]) == Some(id)
    ensures var d := msg[..|msg| - |InvalidVerseSuffix|];
            |d| > 1 ==> d[0] != '0' && (d[0] == '-' ==> d[1] != '0')
  {
    IntRoundTrip(id);
    NoLeadingZero(if id < 0 then -id else id);
    var digits := IntToString(id);
    assert (digits + InvalidVerseSuffix)[..|digits|] == digits;
    digits + InvalidVerseSuffix
  }

  function DigitChar(d: int): (c: char)
    requires 0 <= d < 10
    ensures IsDigit(c) && DigitValue(c) == d
  {
    "0123456789"[d]
  }

  predicate IsDigit(c: char) {
    '0' <= c <= '9'
  }

  function DigitValue(c: char): int
    requires IsDigit(c)
  {
    c as int - '0' as int
  }

  /** Decimal digits of a natural number, most significant first, without leading zeros. */
  function NatToString(n: nat): (s: string)
    ensures |s| >= 1 && (forall k :: 0 <= k < |s| ==> IsDigit(s[k]))
    ensures |s| > 1 ==> s[0] != '0'
  {
    if n < 10 then [DigitChar(n)] else NatToString(n / 10) + [DigitChar(n % 10)]
  }

  /** The digits of a positive number never start with '0'. */
  lemma NoLeadingZero(n: nat)
    ensures n >= 1 ==> NatToString(n)[0] != '0'
  {
    if 1 <= n < 10 {
      assert DigitValue(DigitChar(n)) == n;
    }
  }

  /** Python's `str(n)` for an int: a minus sign before the digits of a negative number. */
  function IntToString(n: int): string {
    if n < 0 then "-" + NatToString(-n) else NatToString(n)
  }

  /** Value of a non-empty run of decimal digits. */
  function ParseNat(s: string): Option<nat> {
    if |s| == 0 || !IsDigit(s[|s| - 1]) then None
    else if |s| == 1 then Some(DigitValue(s[0]))
    else match ParseNat(s[..|s| - 1])
      case None => None
      case Some(h) => Some(h * 10 + DigitValue(s[|s| - 1]))
  }

  function ParseInt(s: string): Option<int> {
    if |s| > 0 && s[0] == '-' then
      match ParseNat(s[1..])
      case None => None
      case Some(n) => Some(0 - n as int)
    else
      match ParseNat(s)
      case None => None
      case Some(n) => Some(n)
  }

  lemma {:induction false} NatRoundTrip(n: nat)
    ensures ParseNat(NatToString(n)) == Some(n)
  {
    if n >= 10 {
      var s := NatToString(n);
      NatRoundTrip(n / 10);
      assert s[..|s| - 1] == NatToString(n / 10);
    }
  }

  /** Reading the rendered number back gives the number: the message identifies the id. */
  lemma IntRoundTrip(n: int)
    ensures ParseInt(IntToString(n)) == Some(n)
  {
    var s := IntToString(n);
    if n < 0 {
      NatRoundTrip(-n);
      assert s == "-" + NatToString(-n);
      assert s[1..] == NatToString(-n);
      assert ParseNat(s[1..]) == Some(-n);
    } else {
      NatRoundTrip(n);
      var digits := NatToString(n);
      assert s == digits;
      assert digits[0] != '-' by {
        assert IsDigit(digits[0]);
      }
    }
  }

  lemma GenesisOneOneMessage()
    ensures InvalidVerseMessage(1001001) == "1001001" + InvalidVerseSuffix
  {
    assert NatToString(1) == "1";
    assert NatToString(10) == "10";
    assert NatToString(100) == "100";
    assert NatToString(1001) == "1001";
    assert NatToString(10010) == "10010";
    assert NatToString(100100) == "100100";
    assert NatToString(1001001) == "1001001";
    assert IntToString(1001001) == "1001001";
  }
}
