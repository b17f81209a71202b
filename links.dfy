/** Turning user input into the list of links to download, as both front
    ends do it: the lines of a text file become `[u.strip() for u in f if
    u.strip()]`, and a pasted link is used only when it is not blank. */
module Links {
  import opened Wrappers
  import opened PyStr

  /** A line that `strip()` empties, that is, one made of whitespace only
      (`PyStr.StripEmptyIff`). */
  predicate Blank(line: string) {
    AllSpace(line)
  }

  /** The stripped, non-blank lines of a file, in file order. */
  function NormaliseLinks(raw: seq<string>): (urls: seq<string>)
    ensures |urls| <= |raw|
  {
    if raw == [] then []
    else LinkOf(raw[0]) + NormaliseLinks(raw[1..])
  }

  /** What one line contributes: its stripped text, or nothing. */
  function LinkOf(line: string): (r: seq<string>)
    ensures |r| <= 1
    ensures r == [] <==> Blank(line)
  {
    StripEmptyIff(line);
    var u := Strip(line);
    if u != "" then [u] else []
  }

  /** Links with no whitespace at either end, none of them empty. */
  predicate CleanLinks(urls: seq<string>) {
    forall k :: 0 <= k < |urls| ==> urls[k] != "" && Trimmed(urls[k])
  }

  /** Every link is a non-empty string with no whitespace at either end. */
  lemma {:induction false} NormaliseLinksClean(raw: seq<string>)
    ensures CleanLinks(NormaliseLinks(raw))
  {
    if raw != [] {
      NormaliseLinksClean(raw[1..]);
      var h := LinkOf(raw[0]);
      assert CleanLinks(h) by {
        StripTrimmed(raw[0]);
        if h != [] { assert h == [Strip(raw[0])]; }
      }
      CleanLinksAppend(h, NormaliseLinks(raw[1..]));
    }
  }

  lemma CleanLinksAppend(x: seq<string>, y: seq<string>)
    requires CleanLinks(x) && CleanLinks(y)
    ensures CleanLinks(x + y)
  {
    forall k | 0 <= k < |x + y| ensures (x + y)[k] != "" && Trimmed((x + y)[k]) {
      if k < |x| { assert (x + y)[k] == x[k]; } else { assert (x + y)[k] == y[k - |x|]; }
    }
  }

  /** Normalisation works line by line: the links of a file are the links of
      its first part followed by the links of the rest. */
  lemma {:induction false} NormaliseLinksAppend(a: seq<string>, b: seq<string>)
    ensures NormaliseLinks(a + b) == NormaliseLinks(a) + NormaliseLinks(b)
  {
    if a == [] {
      assert a + b == b;
    } else {
      assert (a + b)[0] == a[0];
      assert (a + b)[1..] == a[1..] + b;
      NormaliseLinksAppend(a[1..], b);
      LinksAssoc(LinkOf(a[0]), NormaliseLinks(a[1..]), NormaliseLinks(b));
    }
  }

  /** Proof aid: regrouping a concatenation of lists of links. */
  lemma LinksAssoc(x: seq<string>, y: seq<string>, z: seq<string>)
    ensures x + (y + z) == (x + y) + z
  {
  }

  /** A single line contributes its stripped text, or nothing when blank. */
  lemma NormaliseLinksSingle(line: string)
    ensures NormaliseLinks([line]) == if Blank(line) then [] else [Strip(line)]
  {
    assert [line][1..] == [];
  }

  /** A file yields no link exactly when every one of its lines is blank. */
  lemma {:induction false} NormaliseLinksEmpty(raw: seq<string>)
    ensures NormaliseLinks(raw) == [] <==> forall k :: 0 <= k < |raw| ==> Blank(raw[k])
  {
    if raw != [] {
      var h, t := LinkOf(raw[0]), NormaliseLinks(raw[1..]);
      NormaliseLinksEmpty(raw[1..]);
      assert NormaliseLinks(raw) == h + t;
      assert h + t == [] <==> h == [] && t == [] by {
        assert |h + t| == |h| + |t|;
      }
      BlankCons(raw);
    }
  }

  lemma BlankCons(raw: seq<string>)
    requires raw != []
    ensures (forall k :: 0 <= k < |raw| ==> Blank(raw[k])) <==>
            Blank(raw[0]) && forall k :: 0 <= k < |raw[1..]| ==> Blank(raw[1..][k])
  {
    assert forall k :: 0 <= k < |raw[1..]| ==> raw[1..][k] == raw[k + 1];
  }

  /** The link typed into the input field, or None when it is blank after
      stripping (in which case no batch starts). */
  function PastedLink(input: string): (r: Option<string>)
    ensures r.None? <==> AllSpace(input)
    ensures r.Some? ==> r.value == Strip(input) && r.value != "" && Trimmed(r.value)
  {
    StripEmptyIff(input);
    StripTrimmed(input);
    var url := Strip(input);
    if url == "" then None else Some(url)
  }

  /** What the file dialog and the read of the chosen file gave: nothing
      chosen, a read that raised (with the exception's text), or the file's
      lines. */
  datatype FileChoice = Cancelled | ReadFailed(error: string) | Read(lines: seq<string>)

  /** The notice both front ends log when the read raises. */
  function ReadErrorNotice(e: string): string {
    "\U{274C} Error al leer el archivo: " + e
  }

  /** The warning both front ends log for a blank pasted link. */
  const BlankLinkWarning: string := "\U{26A0}\U{FE0F} Por favor, ingresa un enlace v\U{E1}lido."
}
