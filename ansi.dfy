/** Removal of terminal colour codes: one left-to-right pass of
    `re.sub(r"\x1b\[[0-9;]*m", "", text)`, written as a recursive scan. */
module Ansi {

  const Esc: char := '\U{1B}'

  predicate IsParamChar(c: char) {
    ('0' <= c <= '9') || c == ';'
  }

  predicate AllParams(s: string) {
    forall k :: 0 <= k < |s| ==> IsParamChar(s[k])
  }

  /** The regular expression `\x1b\[[0-9;]*m`, matched against a whole string. */
  predicate IsSgr(t: string) {
    && |t| >= 3
    && t[0] == Esc && t[1] == '['
    && t[|t| - 1] == 'm'
    && AllParams(t[2..|t| - 1])
  }

  /** The colour code with parameters p: ESC, '[', p, 'm'. */
  function Sgr(p: string): (t: string)
    requires AllParams(p)
    ensures IsSgr(t)
  {
    var t := [Esc, '['] + p + ['m'];
    assert t[2..|t| - 1] == p;
    t
  }

  /** Length of the longest run of parameter characters at the front. */
  function ParamRun(s: string): (n: nat)
    ensures n <= |s| && AllParams(s[..n])
    ensures n < |s| ==> !IsParamChar(s[n])
  {
    if |s| == 0 || !IsParamChar(s[0]) then 0
    else
      var n := 1 + ParamRun(s[1..]);
      assert s[..n] == [s[0]] + s[1..][..n - 1];
      n
  }

  /** Length of the regular expression's match at the front of s, or 0 when
      it does not match there (`SgrMatchIsTheMatch`). */
  function SgrMatch(s: string): (n: nat)
    ensures n <= |s|
    ensures n == 0 || n >= 3
  {
    if |s| >= 3 && s[0] == Esc && s[1] == '[' then
      var k := ParamRun(s[2..]);
      if 2 + k < |s| && s[2 + k] == 'm' then 3 + k else 0
    else 0
  }

  /** SgrMatch finds the expression's match at the front of s, and it is the
      only prefix of s the expression accepts. */
  lemma SgrMatchIsTheMatch(s: string)
    ensures SgrMatch(s) > 0 ==> IsSgr(s[..SgrMatch(s)])
    ensures forall m :: 0 <= m <= |s| && IsSgr(s[..m]) ==> m == SgrMatch(s)
  {
    if |s| >= 2 && s[0] == Esc && s[1] == '[' {
      var k := ParamRun(s[2..]);
      SgrMatchUnique(s, k);
      if 2 + k < |s| && s[2 + k] == 'm' {
        assert s[..3 + k][2..2 + k] == s[2..][..k];
      }
    }
  }

  lemma SgrMatchUnique(s: string, k: nat)
    requires |s| >= 2 && k == ParamRun(s[2..])
    ensures forall m :: 0 <= m <= |s| && IsSgr(s[..m]) ==> m == 3 + k && s[2 + k] == 'm'
  {
    forall m | 0 <= m <= |s| && IsSgr(s[..m])
      ensures m == 3 + k && s[2 + k] == 'm'
    {
      var t := s[..m];
      assert forall i :: 2 <= i < m - 1 ==> IsParamChar(s[i]) by {
        var p := t[2..m - 1];
        forall i | 2 <= i < m - 1 ensures IsParamChar(s[i]) {
          assert IsParamChar(p[i - 2]);
          assert p[i - 2] == s[i];
        }
      }
      assert forall i :: 2 <= i < 2 + k ==> IsParamChar(s[i]) by {
        forall i | 2 <= i < 2 + k ensures IsParamChar(s[i]) { assert s[2..][..k][i - 2] == s[i]; }
      }
      assert s[m - 1] == t[m - 1];
      if 2 + k < |s| {
        assert s[2..][k] == s[2 + k];
      }
    }
  }

  /** `re.sub(r"\x1b\[[0-9;]*m", "", s)`: at each position, a match is
      dropped and the scan resumes after it; otherwise one character is kept. */
  function StripSgr(s: string): (r: string)
    ensures |r| <= |s|
  {
    if |s| == 0 then ""
    else
      var n := SgrMatch(s);
      if n > 0 then StripSgr(s[n..])
      else [s[0]] + StripSgr(s[1..])
  }

  /** Removing codes never brings in a character that was not there. */
  lemma {:induction false} StripSgrKeepsChars(s: string)
    ensures forall c :: c in StripSgr(s) ==> c in s
  {
    if |s| > 0 {
      var n := SgrMatch(s);
      if n > 0 {
        StripSgrKeepsChars(s[n..]);
        assert forall c :: c in s[n..] ==> c in s;
      } else {
        StripSgrKeepsChars(s[1..]);
        assert forall c :: c in s[1..] ==> c in s;
      }
    }
  }

  /** A first character that is not an escape is kept. */
  lemma StripSgrPlain(s: string)
    requires |s| > 0 && s[0] != Esc
    ensures StripSgr(s) == [s[0]] + StripSgr(s[1..])
  {
    assert SgrMatch(s) == 0;
  }

  /** Where no code starts, the first character is kept. */
  lemma StripSgrUnmatched(s: string)
    requires |s| > 0 && SgrMatch(s) == 0
    ensures StripSgr(s) == [s[0]] + StripSgr(s[1..])
  {
  }

  /** Text with no escape character is left as it is. */
  lemma {:induction false} StripSgrNoEsc(s: string)
    requires Esc !in s
    ensures StripSgr(s) == s
  {
    if |s| > 0 {
      StripSgrPlain(s);
      StripSgrNoEsc(s[1..]);
      assert [s[0]] + s[1..] == s;
    }
  }

  /** A prefix with no escape character passes through untouched. */
  lemma {:induction false} StripSgrKeepsPrefix(x: string, y: string)
    requires Esc !in x
    ensures StripSgr(x + y) == x + StripSgr(y)
  {
    if |x| > 0 {
      var s := x + y;
      assert s[0] == x[0];
      StripSgrPlain(s);
      assert s[1..] == x[1..] + y;
      StripSgrKeepsPrefix(x[1..], y);
      assert [x[0]] + (x[1..] + StripSgr(y)) == x + StripSgr(y);
    } else {
      assert x + y == y;
    }
  }

  /** A colour code at the front is dropped whole. */
  lemma StripSgrDropsCode(p: string, y: string)
    requires AllParams(p)
    ensures StripSgr(Sgr(p) + y) == StripSgr(y)
  {
    var t := Sgr(p);
    var s := t + y;
    assert s[..|t|] == t;
    SgrMatchIsTheMatch(s);
    assert SgrMatch(s) == |t|;
    assert s[|t|..] == y;
  }

  /** Text wrapped in a colour code and a reset code comes out bare, as in
      `"\x1b[32m45%\x1b[0m"` becoming `"45%"`. */
  lemma StripSgrUncolours(p: string, text: string, q: string)
    requires AllParams(p) && AllParams(q) && Esc !in text
    ensures StripSgr(Sgr(p) + text + Sgr(q)) == text
  {
    var a, b := Sgr(p), Sgr(q);
    assert a + text + b == a + (text + b);
    StripSgrDropsCode(p, text + b);
    StripSgrKeepsPrefix(text, b);
    StripSgrDropsCode(q, "");
    assert b + "" == b;
    assert StripSgr("") == "";
  }

  lemma StripSgrExample()
    ensures StripSgr([Esc] + "[32m45%" + [Esc] + "[0m") == "45%"
  {
    assert [Esc] + "[32m45%" + [Esc] + "[0m" == Sgr("32") + "45%" + Sgr("0");
    StripSgrUncolours("32", "45%", "0");
  }

  /** One pass is not enough in general: a code split by another code is
      joined up by the first pass and removed only by a second one. */
  lemma StripSgrNotIdempotent()
    ensures var s := [Esc] + "[" + [Esc] + "[0m31m";
            StripSgr(s) == [Esc] + "[31m" && StripSgr(StripSgr(s)) == ""
  {
    NestedFirstPass([Esc] + "[" + [Esc] + "[0m31m");
    NestedSecondPass();
  }

  /** The first pass over the nested code leaves the outer code's pieces. */
  lemma NestedFirstPass(s: string)
    requires s == [Esc] + "[" + [Esc] + "[0m31m"
    ensures StripSgr(s) == [Esc] + "[31m"
  {
    NestedLiteral();
    NestedScan(Sgr("0") + "31m");
    assert [Esc] + ("[" + "31m") == [Esc] + "[31m";
  }

  /** The scan keeps the first escape, since an escape follows its bracket. */
  lemma NestedScan(inner: string)
    requires inner == Sgr("0") + "31m"
    ensures StripSgr([Esc] + ("[" + inner)) == [Esc] + ("[" + "31m")
  {
    var s := [Esc] + ("[" + inner);
    NestedUnmatched(inner);
    StripSgrUnmatched(s);
    assert s[1..] == "[" + inner;
    NestedInner();
  }

  lemma NestedLiteral()
    ensures [Esc] + ("[" + (Sgr("0") + "31m")) == [Esc] + "[" + [Esc] + "[0m31m"
  {
  }

  /** An escape right after the opening bracket stops the match there. */
  lemma NestedUnmatched(inner: string)
    requires |inner| > 0 && inner[0] == Esc
    ensures SgrMatch([Esc] + ("[" + inner)) == 0
  {
    var s := [Esc] + ("[" + inner);
    assert s[2..][0] == Esc;
  }

  /** After the kept escape, the inner code goes and the rest stays. */
  lemma NestedInner()
    ensures StripSgr("[" + (Sgr("0") + "31m")) == "[" + "31m"
  {
    StripSgrKeepsPrefix("[", Sgr("0") + "31m");
    StripSgrDropsCode("0", "31m");
    StripSgrNoEsc("31m");
  }

  lemma NestedSecondPass()
    ensures StripSgr([Esc] + "[31m") == ""
  {
    assert [Esc] + "[31m" == Sgr("31") + "";
    StripSgrDropsCode("31", "");
  }

}
