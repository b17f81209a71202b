/** The two pieces of Python string behaviour the downloader relies on:
    `str.strip()` with no argument, and `str(n)` for the non-negative
    integers that f-strings interpolate into log lines. */
module PyStr {

  /** The characters for which Python's `str.isspace()` holds. */
  predicate IsSpace(c: char) {
    || ('\U{9}' <= c <= '\U{D}')
    || ('\U{1C}' <= c <= '\U{20}')
    || c == '\U{85}' || c == '\U{A0}' || c == '\U{1680}'
    || ('\U{2000}' <= c <= '\U{200A}')
    || c == '\U{2028}' || c == '\U{2029}' || c == '\U{202F}'
    || c == '\U{205F}' || c == '\U{3000}'
  }

  predicate AllSpace(s: string) {
    forall k :: 0 <= k < |s| ==> IsSpace(s[k])
  }

  /** A string with no whitespace at either end (the empty string included). */
  predicate Trimmed(s: string) {
    s == "" || (!IsSpace(s[0]) && !IsSpace(s[|s| - 1]))
  }

  /** Python's `s.lstrip()`: drops the whitespace at the front
      (`TrimStartShape`). */
  function TrimStart(s: string): (r: string)
    ensures |r| <= |s|
  {
    if |s| > 0 && IsSpace(s[0]) then TrimStart(s[1..]) else s
  }

  /** lstrip keeps a suffix, drops only whitespace, and leaves no
      whitespace at the front. */
  lemma {:induction false} TrimStartShape(s: string)
    ensures var r := TrimStart(s);
      && r == s[|s| - |r|..]
      && AllSpace(s[..|s| - |r|])
      && (r == "" || !IsSpace(r[0]))
  {
    if |s| > 0 && IsSpace(s[0]) {
      TrimStartShape(s[1..]);
      var r := TrimStart(s[1..]);
      assert s[1..][|s| - 1 - |r|..] == s[|s| - |r|..];
      assert s[..|s| - |r|] == [s[0]] + s[1..][..|s| - 1 - |r|];
    } else {
      assert s[..0] == [] && s[0..] == s;
    }
  }

  /** Python's `s.rstrip()`: drops the whitespace at the end
      (`TrimEndShape`). */
  function TrimEnd(s: string): (r: string)
    ensures |r| <= |s|
  {
    if |s| > 0 && IsSpace(s[|s| - 1]) then TrimEnd(s[..|s| - 1]) else s
  }

  /** rstrip keeps a prefix, drops only whitespace, and leaves no
      whitespace at the end. */
  lemma {:induction false} TrimEndShape(s: string)
    ensures var r := TrimEnd(s);
      && r == s[..|r|]
      && AllSpace(s[|r|..])
      && (r == "" || !IsSpace(r[|r| - 1]))
  {
    if |s| > 0 && IsSpace(s[|s| - 1]) {
      var t := s[..|s| - 1];
      TrimEndShape(t);
      var r := TrimEnd(t);
      assert t[..|r|] == s[..|r|];
      assert s[|r|..] == t[|r|..] + [s[|s| - 1]];
    } else {
      assert s[..|s|] == s && s[|s|..] == [];
    }
  }

  /** Python's `s.strip()`. */
  function Strip(s: string): (r: string)
    ensures |r| <= |s|
  {
    TrimEnd(TrimStart(s))
  }

  /** What strip returns has no whitespace at either end. */
  lemma StripTrimmed(s: string)
    ensures Trimmed(Strip(s))
  {
    var t := TrimStart(s);
    var r := TrimEnd(t);
    TrimStartShape(s);
    TrimEndShape(t);
    if r != "" {
      assert r[0] == t[0];
    }
  }

  /** Stripping only removes characters. */
  lemma StripKeepsChars(s: string)
    ensures forall c :: c in Strip(s) ==> c in s
  {
    var t := TrimStart(s);
    TrimStartShape(s);
    TrimEndShape(t);
    assert forall c :: c in t ==> c in s;
    assert forall c :: c in TrimEnd(t) ==> c in t;
  }

  /** Only an all-whitespace string strips to nothing. */
  lemma StripEmptyIff(s: string)
    ensures Strip(s) == "" <==> AllSpace(s)
  {
    var t := TrimStart(s);
    var r := TrimEnd(t);
    TrimStartShape(s);
    TrimEndShape(t);
    var i := |s| - |t|;
    if r == "" {
      assert t[|r|..] == t;
      assert t == "";
      assert s[..i] == s;
    } else {
      assert |t| > 0 && t[0] == s[i];
    }
  }

  lemma {:induction false} TrimStartAt(s: string, i: nat)
    requires i <= |s| && AllSpace(s[..i])
    requires i == |s| || !IsSpace(s[i])
    ensures TrimStart(s) == s[i..]
  {
    if i > 0 {
      assert s[0] == s[..i][0];
      assert s[1..][..i - 1] == s[..i][1..];
      TrimStartAt(s[1..], i - 1);
    }
  }

  lemma {:induction false} TrimEndAt(s: string, j: nat)
    requires j <= |s| && AllSpace(s[j..])
    requires j == 0 || !IsSpace(s[j - 1])
    ensures TrimEnd(s) == s[..j]
  {
    if j < |s| {
      assert s[|s| - 1] == s[j..][|s| - 1 - j];
      var t := s[..|s| - 1];
      assert t[j..] == s[j..][..|s| - 1 - j];
      TrimEndAt(t, j);
      assert t[..j] == s[..j];
    }
  }

  /** Strip is the unique slice that drops whitespace only and leaves no
      whitespace at its ends: any such slice is what Strip returns. */
  lemma StripIsTheTrimmedSlice(s: string, i: nat, j: nat)
    requires i <= j <= |s|
    requires AllSpace(s[..i]) && AllSpace(s[j..])
    requires Trimmed(s[i..j])
    ensures Strip(s) == s[i..j]
  {
    if i == j {
      StripBlank(s, i);
    } else {
      assert s[i..j][0] == s[i] && s[i..j][j - i - 1] == s[j - 1];
      StripNonBlank(s, i, j);
    }
  }

  /** A string with no whitespace at either end strips to itself. */
  lemma StripOfTrimmed(s: string)
    requires Trimmed(s)
    ensures Strip(s) == s
  {
    assert s[..0] == "" && s[|s|..] == "" && s[0..|s|] == s;
    StripIsTheTrimmedSlice(s, 0, |s|);
  }

  lemma StripBlank(s: string, i: nat)
    requires i <= |s|
    requires AllSpace(s[..i]) && AllSpace(s[i..])
    ensures Strip(s) == ""
  {
    assert AllSpace(s) by {
      forall k | 0 <= k < |s| ensures IsSpace(s[k]) {
        if k < i { assert s[..i][k] == s[k]; } else { assert s[i..][k - i] == s[k]; }
      }
    }
    StripEmptyIff(s);
  }

  lemma StripNonBlank(s: string, i: nat, j: nat)
    requires i < j <= |s|
    requires AllSpace(s[..i]) && AllSpace(s[j..])
    requires !IsSpace(s[i]) && !IsSpace(s[j - 1])
    ensures Strip(s) == s[i..j]
  {
    var t := s[i..];
    TrimStartAt(s, i);
    StripNonBlankEnd(s, t, i, j);
    assert Strip(s) == TrimEnd(TrimStart(s));
  }

  lemma StripNonBlankEnd(s: string, t: string, i: nat, j: nat)
    requires i < j <= |s| && t == s[i..]
    requires AllSpace(s[j..]) && !IsSpace(s[j - 1])
    ensures TrimEnd(t) == s[i..j]
  {
    assert t[j - i..] == s[j..];
    assert t[j - i - 1] == s[j - 1];
    TrimEndAt(t, j - i);
    assert t[..j - i] == s[i..j];
  }

  /** Stripping twice is stripping once. */
  lemma StripIdempotent(s: string)
    ensures Strip(Strip(s)) == Strip(s)
  {
    var r := Strip(s);
    StripTrimmed(s);
    if r != "" {
      assert r[..0] == [] && r[|r|..] == [];
      StripNonBlank(r, 0, |r|);
      assert r[0..|r|] == r;
    }
  }

  /** The decimal digit character for d. */
  function DigitChar(d: nat): (c: char)
    requires d < 10
    ensures '0' <= c <= '9'
    ensures c as int - '0' as int == d
  {
    ('0' as int + d) as char
  }

  predicate AllDigits(s: string) {
    forall k :: 0 <= k < |s| ==> '0' <= s[k] <= '9'
  }

  /** `str(n)` for a non-negative integer: decimal, no leading zero. */
  function NatToString(n: nat): (r: string)
    ensures |r| >= 1 && AllDigits(r)
    ensures r[0] == '0' ==> n == 0
  {
    if n < 10 then [DigitChar(n)]
    else
      var p := NatToString(n / 10);
      assert (p + [DigitChar(n % 10)])[0] == p[0];
      p + [DigitChar(n % 10)]
  }

  /** The value of a string of decimal digits. */
  function DecimalValue(s: string): nat
    requires AllDigits(s)
  {
    if s == [] then 0
    else DecimalValue(s[..|s| - 1]) * 10 + (s[|s| - 1] as int - '0' as int)
  }

  /** Reading the rendered digits back gives the number: the rendering is
      faithful, and different numbers are rendered differently. */
  lemma {:induction false} NatToStringRoundTrip(n: nat)
    ensures DecimalValue(NatToString(n)) == n
  {
    if n >= 10 {
      var p := NatToString(n / 10);
      var r := p + [DigitChar(n % 10)];
      assert r[..|r| - 1] == p;
      NatToStringRoundTrip(n / 10);
    }
  }

  lemma NatToStringInjective(m: nat, n: nat)
    requires NatToString(m) == NatToString(n)
    ensures m == n
  {
    NatToStringRoundTrip(m);
    NatToStringRoundTrip(n);
  }
}
