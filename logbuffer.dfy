/** The log panel as the program uses it: a plain-text buffer that is read
    back as `text.split("\n")`, written as `"\n".join(lines)`, and grown by
    `QTextEdit.append`, which starts a new paragraph unless the document is
    empty. */
module LogBuffer {

  /** A string that stays a single line when the buffer is split. */
  predicate NoBreak(s: string) {
    '\n' !in s
  }

  predicate AllNoBreak(lines: seq<string>) {
    forall k :: 0 <= k < |lines| ==> NoBreak(lines[k])
  }

  /** Proof aid: gluing two break-free strings gives a break-free string. */
  lemma NoBreakJoin(a: string, b: string)
    requires NoBreak(a) && NoBreak(b)
    ensures NoBreak(a + b)
  {
  }

  /** Proof aid: `NoBreakJoin` for the five pieces of a progress line. */
  lemma NoBreakJoin5(a: string, b: string, c: string, d: string, e: string)
    requires NoBreak(a) && NoBreak(b) && NoBreak(c) && NoBreak(d) && NoBreak(e)
    ensures NoBreak(a + b + c + d + e)
  {
    NoBreakJoin(a, b);
    NoBreakJoin(a + b, c);
    NoBreakJoin(a + b + c, d);
    NoBreakJoin(a + b + c + d, e);
  }

  /** Python's `s.split("\n")`: never an empty list, and no piece holds a
      line break. */
  function Split(s: string): (r: seq<string>)
    ensures |r| >= 1
    ensures AllNoBreak(r)
  {
    if |s| == 0 then [""]
    else
      var rest := Split(s[1..]);
      if s[0] == '\n' then [""] + rest
      else
        assert '\n' !in [s[0]] + rest[0];
        [[s[0]] + rest[0]] + rest[1..]
  }

  /** A buffer of two lines or more is not empty. */
  lemma SplitManyNonEmpty(s: string)
    requires |Split(s)| >= 2
    ensures s != ""
  {
  }

  /** Python's `"\n".join(lines)`. */
  function Join(lines: seq<string>): string {
    if |lines| == 0 then ""
    else if |lines| == 1 then lines[0]
    else lines[0] + "\n" + Join(lines[1..])
  }

  /** `QTextEdit.append(msg)` on a buffer holding `text`. */
  function AppendParagraph(text: string, msg: string): string {
    if text == "" then msg else text + "\n" + msg
  }

  /** A string without a line break is one line. */
  lemma {:induction false} SplitSingle(s: string)
    requires NoBreak(s)
    ensures Split(s) == [s]
  {
    if |s| > 0 {
      SplitSingle(s[1..]);
      assert [s[0]] + s[1..] == s;
    }
  }

  /** Splitting at a joining line break splits both sides independently. */
  lemma {:induction false} SplitConcat(a: string, b: string)
    ensures Split(a + "\n" + b) == Split(a) + Split(b)
  {
    if |a| == 0 {
      assert a + "\n" + b == "\n" + b;
      assert ("\n" + b)[1..] == b;
    } else {
      var s := a + "\n" + b;
      assert s[0] == a[0];
      assert s[1..] == a[1..] + "\n" + b;
      SplitConcat(a[1..], b);
      SplitConcatStep(a, b, s);
    }
  }

  /** One step of `SplitConcat`: the first character of a goes where it
      went in a alone. */
  lemma SplitConcatStep(a: string, b: string, s: string)
    requires |a| > 0 && |s| > 0 && s[0] == a[0]
    requires Split(s[1..]) == Split(a[1..]) + Split(b)
    ensures Split(s) == Split(a) + Split(b)
  {
    var ra, rb := Split(a[1..]), Split(b);
    if a[0] != '\n' {
      assert (ra + rb)[0] == ra[0];
      assert (ra + rb)[1..] == ra[1..] + rb;
    }
  }

  /** Reading back what was written gives the same lines, provided no line
      holds a line break. */
  lemma {:induction false} SplitJoin(lines: seq<string>)
    requires |lines| >= 1
    requires AllNoBreak(lines)
    ensures Split(Join(lines)) == lines
  {
    if |lines| == 1 {
      SplitSingle(lines[0]);
    } else {
      SplitConcat(lines[0], Join(lines[1..]));
      SplitSingle(lines[0]);
      SplitJoin(lines[1..]);
      assert [lines[0]] + lines[1..] == lines;
    }
  }

  /** Writing back what was read gives the same text, always. */
  lemma {:induction false} JoinSplit(s: string)
    ensures Join(Split(s)) == s
  {
    if |s| > 0 {
      JoinSplit(s[1..]);
      var rest := Split(s[1..]);
      if s[0] == '\n' {
        assert ([""] + rest)[1..] == rest;
        assert "" + "\n" + Join(rest) == [s[0]] + s[1..];
      } else {
        var r := [[s[0]] + rest[0]] + rest[1..];
        assert r[1..] == rest[1..];
        if |rest| == 1 {
          assert Join(rest) == rest[0];
        } else {
          assert Join(rest) == rest[0] + "\n" + Join(rest[1..]);
        }
      }
    }
  }

  /** Joining two non-empty runs of lines puts one line break between them. */
  lemma {:induction false} JoinAppend(xs: seq<string>, ys: seq<string>)
    requires |xs| >= 1 && |ys| >= 1
    ensures Join(xs + ys) == Join(xs) + "\n" + Join(ys)
  {
    if |xs| > 1 {
      assert (xs + ys)[1..] == xs[1..] + ys;
      JoinAppend(xs[1..], ys);
    }
  }

  /** Two runs of lines without breaks, written one after the other, read
      back as both runs. */
  lemma SplitJoinAppend(xs: seq<string>, ys: seq<string>)
    requires |xs| >= 1 && |ys| >= 1
    requires AllNoBreak(xs) && AllNoBreak(ys)
    ensures Split(Join(xs) + "\n" + Join(ys)) == xs + ys
  {
    SplitConcat(Join(xs), Join(ys));
    SplitJoin(xs);
    SplitJoin(ys);
  }

  /** Every piece written comes back as at least one line, whatever it holds. */
  lemma {:induction false} SplitJoinGrows(lines: seq<string>)
    requires |lines| >= 1
    ensures |Split(Join(lines))| >= |lines|
  {
    if |lines| > 1 {
      SplitConcat(lines[0], Join(lines[1..]));
      SplitJoinGrows(lines[1..]);
    }
  }

  /** What `append` adds to the lines: the message's own lines, after the old
      ones unless the buffer was empty. */
  lemma AppendParagraphLines(text: string, msg: string)
    ensures Split(AppendParagraph(text, msg)) ==
            if text == "" then Split(msg) else Split(text) + Split(msg)
  {
    if text != "" {
      SplitConcat(text, msg);
    }
  }
}
