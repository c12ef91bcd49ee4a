/**
 * The few pieces of Python's `str` behaviour the alert script relies on: `strip()` with no
 * argument, `upper()` and `lower()` on airline and environment codes, the code-point order
 * that `sorted` uses on strings, `", ".join` and `str(n)` for a natural number.
 */
module Text {

  /** The characters for which Python's `str.isspace()` holds, i.e. what `strip()` removes. */
  predicate IsSpace(c: char)
  {
    || c == ' '
    || ('\t' <= c <= '\r')                   // tab, line feed, vertical tab, form feed, return
    || ('\U{1C}' <= c <= '\U{1F}')           // file, group, record and unit separators
    || c == '\U{85}' || c == '\U{A0}' || c == '\U{1680}'
    || ('\U{2000}' <= c <= '\U{200A}')
    || c == '\U{2028}' || c == '\U{2029}' || c == '\U{202F}' || c == '\U{205F}' || c == '\U{3000}'
  }

  /** Neither the first nor the last character is white space. */
  predicate IsStripped(s: string)
  {
    s == [] || (!IsSpace(s[0]) && !IsSpace(s[|s| - 1]))
  }

  /** Some character of `s` is not white space. */
  predicate HasNonSpace(s: string)
  {
    exists i :: 0 <= i < |s| && !IsSpace(s[i])
  }

  /** `s.strip()`: drops the leading and the trailing run of white space. */
  function Strip(s: string): string
  {
    if s != [] && IsSpace(s[0]) then Strip(s[1..])
    else if s != [] && IsSpace(s[|s| - 1]) then Strip(s[..|s| - 1])
    else s
  }

  /** `s[..i]` and `s[j..]` are all white space. */
  predicate TrimmedAt(s: string, i: int, j: int)
  {
    && 0 <= i <= j <= |s|
    && (forall k :: 0 <= k < i ==> IsSpace(s[k]))
    && (forall k :: j <= k < |s| ==> IsSpace(s[k]))
  }

  /** What `strip()` leaves is the input with a run of white space cut off each end. */
  lemma {:induction false} StripTrims(s: string)
    ensures exists i, j :: TrimmedAt(s, i, j) && Strip(s) == s[i..j]
  {
    if s != [] && IsSpace(s[0]) {
      var t := s[1..];
      StripTrims(t);
      var i, j :| TrimmedAt(t, i, j) && Strip(t) == t[i..j];
      assert t[i..j] == s[i + 1..j + 1];
      forall k | 0 <= k < i + 1
        ensures IsSpace(s[k])
      {
        if k > 0 {
          assert s[k] == t[k - 1];
        }
      }
      forall k | j + 1 <= k < |s|
        ensures IsSpace(s[k])
      {
        assert s[k] == t[k - 1];
      }
      assert TrimmedAt(s, i + 1, j + 1);
    } else if s != [] && IsSpace(s[|s| - 1]) {
      var t := s[..|s| - 1];
      StripTrims(t);
      var i, j :| TrimmedAt(t, i, j) && Strip(t) == t[i..j];
      assert t[i..j] == s[i..j];
      assert t[0] == s[0] && !IsSpace(t[0]);
      assert i == 0;
      forall k | j <= k < |s|
        ensures IsSpace(s[k])
      {
        if k < |s| - 1 {
          assert s[k] == t[k];
        }
      }
      assert TrimmedAt(s, i, j);
    } else {
      assert TrimmedAt(s, 0, |s|) && s == s[0..|s|];
    }
  }

  /**
   * What `strip()` leaves is the input with a run of white space cut off each end; it starts
   * and ends with a non-space, and is empty exactly when the whole string was white space.
   */
  lemma {:induction false} StripSpec(s: string)
    ensures exists i, j :: TrimmedAt(s, i, j) && Strip(s) == s[i..j]
    ensures IsStripped(Strip(s)) && |Strip(s)| <= |s|
    ensures Strip(s) != [] <==> HasNonSpace(s)
  {
    StripTrims(s);
    if s != [] && IsSpace(s[0]) {
      StripSpec(s[1..]);
      assert forall i :: 1 <= i < |s| ==> s[i] == s[1..][i - 1];
      if HasNonSpace(s[1..]) {
        var i :| 0 <= i < |s[1..]| && !IsSpace(s[1..][i]);
        assert s[i + 1] == s[1..][i];
      }
    } else if s != [] && IsSpace(s[|s| - 1]) {
      StripSpec(s[..|s| - 1]);
      assert forall i :: 0 <= i < |s| - 1 ==> s[i] == s[..|s| - 1][i];
    } else if s != [] {
      assert !IsSpace(s[0]);
    }
  }

  /** Stripping a string that is already stripped changes nothing. */
  lemma StripStripped(s: string)
    requires IsStripped(s)
    ensures Strip(s) == s
  {
  }

  function UpperChar(c: char): char
  {
    if 'a' <= c <= 'z' then (c as int - 'a' as int + 'A' as int) as char else c
  }

  function LowerChar(c: char): char
  {
    if 'A' <= c <= 'Z' then (c as int - 'A' as int + 'a' as int) as char else c
  }

  /** No ASCII lower-case letter occurs in `s`. */
  predicate HasNoLower(s: string)
  {
    forall i :: 0 <= i < |s| ==> !('a' <= s[i] <= 'z')
  }

  /** `s.upper()` on the ASCII letters; every other character is kept. */
  function Upper(s: string): string
  {
    seq(|s|, i requires 0 <= i < |s| => UpperChar(s[i]))
  }

  /**
   * Upper-casing keeps the length and the white space, leaves no lower-case letter, and
   * changes nothing in a string that has none.
   */
  lemma UpperSpec(s: string)
    ensures |Upper(s)| == |s| && HasNoLower(Upper(s))
    ensures IsStripped(s) ==> IsStripped(Upper(s))
    ensures HasNoLower(s) ==> Upper(s) == s
  {
  }

  /** `s.lower()` on the ASCII letters; every other character is kept. */
  function Lower(s: string): string
  {
    seq(|s|, i requires 0 <= i < |s| => LowerChar(s[i]))
  }

  /** The form every airline code is brought to before use: stripped and upper-case. */
  predicate IsNormalized(s: string)
  {
    IsStripped(s) && HasNoLower(s)
  }

  /** `(s or "").strip().upper()`. */
  function NormalizeCode(s: string): string
  {
    Upper(Strip(s))
  }

  /**
   * A normalised code is the upper-cased input with a run of white space cut off each end;
   * it is stripped and upper-case, and empty exactly when `s` was all white space.
   */
  lemma NormalizeSpec(s: string)
    ensures exists i, j :: TrimmedAt(s, i, j) && NormalizeCode(s) == Upper(s[i..j])
    ensures IsNormalized(NormalizeCode(s))
    ensures NormalizeCode(s) != [] <==> HasNonSpace(s)
  {
    StripSpec(s);
    UpperSpec(Strip(s));
    var i, j :| TrimmedAt(s, i, j) && Strip(s) == s[i..j];
    assert NormalizeCode(s) == Upper(s[i..j]);
  }

  /** Normalising a code twice is normalising it once. */
  lemma NormalizeIdempotent(s: string)
    requires IsNormalized(s)
    ensures NormalizeCode(s) == s
  {
    StripStripped(s);
    UpperSpec(s);
  }

  /**
   * Python's `<` on strings: code point by code point, a proper prefix first.
   */
  predicate Less(a: string, b: string)
  {
    if a == [] then b != []
    else b != [] && (a[0] < b[0] || (a[0] == b[0] && Less(a[1..], b[1..])))
  }

  lemma {:induction false} LessIrreflexive(a: string)
    ensures !Less(a, a)
  {
    if a != [] {
      LessIrreflexive(a[1..]);
    }
  }

  lemma {:induction false} LessTransitive(a: string, b: string, c: string)
    requires Less(a, b) && Less(b, c)
    ensures Less(a, c)
  {
    if a != [] && a[0] == b[0] && b[0] == c[0] {
      LessTransitive(a[1..], b[1..], c[1..]);
    }
  }

  lemma {:induction false} LessTotal(a: string, b: string)
    ensures a == b || Less(a, b) || Less(b, a)
  {
    if a != [] && b != [] && a[0] == b[0] {
      LessTotal(a[1..], b[1..]);
      if a[1..] == b[1..] {
        assert a == [a[0]] + a[1..] && b == [b[0]] + b[1..];
      }
    }
  }

  /** Two strings are never each below the other. */
  lemma LessAsymmetric()
    ensures forall a, b :: !(Less(a, b) && Less(b, a))
  {
    forall a, b | Less(a, b) && Less(b, a)
      ensures false
    {
      LessTransitive(a, b, a);
      LessIrreflexive(a);
    }
  }

  /** `sep.join(parts)`. */
  function Join(parts: seq<string>, sep: string): string
  {
    if parts == [] then ""
    else if |parts| == 1 then parts[0]
    else parts[0] + sep + Join(parts[1..], sep)
  }

  function DigitChar(d: nat): char
    requires d < 10
  {
    ('0' as int + d) as char
  }

  /** The number a string of decimal digits denotes. */
  function DigitsValue(s: string): int
  {
    if s == [] then 0 else DigitsValue(s[..|s| - 1]) * 10 + (s[|s| - 1] as int - '0' as int)
  }

  /** `str(n)` for a natural number: decimal digits that denote `n`, with no leading zero. */
  function NatToString(n: nat): (r: string)
    ensures r != []
    ensures forall i :: 0 <= i < |r| ==> '0' <= r[i] <= '9'
    ensures DigitsValue(r) == n
    ensures n == 0 <==> r == "0"
    ensures n > 0 ==> r[0] != '0'
  {
    if n < 10 then
      assert [DigitChar(n)][..0] == [];
      [DigitChar(n)]
    else
      var init := NatToString(n / 10);
      assert (init + [DigitChar(n % 10)])[..|init|] == init;
      init + [DigitChar(n % 10)]
  }
}
