/** The log of the sequential front end (yt_coninterfaz.py) as values: the
    panel's text together with the cursor `ultima_linea_progreso`, the line
    (counted from 1) that progress overwrites. Items are handled one after
    the other; before each, four lines are appended and the cursor is set on
    the last, blank one; the progress hook overwrites that line until the
    library reports `finished`. */
module LegacyLog {
  import opened Wrappers
  import opened PyStr
  import opened LogBuffer
  import opened Ansi
  import opened Engine

  datatype Panel = Panel(text: string, cursor: Option<nat>)

  /** The cursor, when set, names an existing line, so the hook's
      `texto_actual[ultima_linea_progreso - 1]` never fails
      (the `ensures` of every step below keeps it). */
  predicate CursorValid(p: Panel) {
    p.cursor.Some? ==> 1 <= p.cursor.value <= |Split(p.text)|
  }

  const StopNotice: string := "\U{1F6D1} Descarga detenida por el usuario."
  const UntitledVideo: string := "Video sin t\U{ED}tulo"
  const HeaderTitle: string := "\U{1F539} Descargando:"

  /** `log(mensaje)`: `QTextEdit.append`; the cursor stays where it was. */
  function Log(p: Panel, msg: string): (r: Panel)
    requires CursorValid(p)
    ensures CursorValid(r) && r.cursor == p.cursor
  {
    AppendParagraphLines(p.text, msg);
    p.(text := AppendParagraph(p.text, msg))
  }

  // ---------------------------------------------------------------------
  // The progress hook `barra_progreso`
  // ---------------------------------------------------------------------

  /** `Velocidad: s / Tiempo restante: e / Progreso: p` from the stripped
      fields, before colour codes are removed. */
  function ProgressText(d: ProgressDict): string {
    "Velocidad: " + (Field(d.speed, "N/A") + " / Tiempo restante: " + Field(d.eta, "N/A")
                     + " / Progreso: " + Field(d.percent, "0%"))
  }

  /** The hook's message: the text above with colour codes removed. */
  function ProgressMessage(d: ProgressDict): string {
    StripSgr(ProgressText(d))
  }

  /** `barra_progreso(d)`: a `downloading` event overwrites the cursor's
      line when the cursor is set; a `finished` event clears the cursor;
      anything else changes nothing. */
  function Hook(p: Panel, d: ProgressDict): (r: Panel)
    requires CursorValid(p)
    ensures CursorValid(r)
  {
    if d.status == "downloading" && p.cursor.Some? then
      var lines := Split(p.text);
      var next := lines[p.cursor.value - 1 := ProgressMessage(d)];
      SplitJoinGrows(next);
      Panel(Join(next), p.cursor)
    else if d.status == "finished" then p.(cursor := None)
    else p
  }

  /** The hook called on each event in turn. */
  function HookAll(p: Panel, events: seq<ProgressDict>): (r: Panel)
    requires CursorValid(p)
    ensures CursorValid(r)
  {
    if events == [] then p
    else Hook(HookAll(p, events[..|events| - 1]), events[|events| - 1])
  }

  /** Whether some event reported `finished`. */
  predicate FinishedIn(events: seq<ProgressDict>) {
    exists k :: 0 <= k < |events| && events[k].status == "finished"
  }

  /** What the progress line shows after the events: the message of the
      last `downloading` event before the first `finished` one, or nothing
      if there was none. */
  function ShownProgress(events: seq<ProgressDict>): string {
    if events == [] then ""
    else
      var pre, d := events[..|events| - 1], events[|events| - 1];
      if !FinishedIn(pre) && d.status == "downloading" then ProgressMessage(d)
      else ShownProgress(pre)
  }

  // ---------------------------------------------------------------------
  // One item of `procesar_descarga`
  // ---------------------------------------------------------------------

  /** How the library's work on one link went: the first `extract_info`
      (no download) raised; or it gave a title (if any), then the download
      passed these dictionaries to the hook and either produced a file
      (with or without `requested_downloads`) or raised. */
  datatype Item =
    | ProbeFailed(failure: Failure)
    | Probed(title: Option<string>, events: seq<ProgressDict>, fetch: Fetch)

  datatype Fetch = Fetched(file: string, requested: bool) | FetchFailed(failure: Failure)

  /** `🚀 Iniciando descarga del video i de n` */
  function StartMessage(i: nat, n: nat): string {
    "\U{1F680} Iniciando descarga del video " + NatToString(i) + " de " + NatToString(n)
  }

  /** The start message is logged after a line break of its own, so it
      comes after a blank line. */
  function StartLine(i: nat, n: nat): string {
    "\n" + StartMessage(i, n)
  }

  /** The message of the item's `except` clauses. */
  function FailureNotice(f: Failure): string {
    match f
    case DownloadError(e) => "\U{274C} Error al descargar el video: " + e
    case OtherError(e) => "\U{26A0}\U{FE0F} Ocurri\U{F3} un error inesperado: " + e
  }

  /** The item's last message: already present when the library reported
      no requested download, completed otherwise, or the failure. */
  function FetchNotice(fetch: Fetch): string {
    match fetch
    case Fetched(file, requested) =>
      if requested then "\U{2705} Descarga completada: " + file
      else "\U{2705} Video ya estaba descargado: " + file
    case FetchFailed(f) => FailureNotice(f)
  }

  /** The four lines written before the download: the heading, the link,
      the title and a blank line; the cursor is set on the blank one. */
  function Header(p: Panel, url: string, title: string): (r: Panel)
    ensures CursorValid(r)
  {
    var lines := Split(p.text) + [HeaderTitle, " - " + url, " - " + title, ""];
    SplitJoinGrows(lines);
    Panel(Join(lines), Some(|lines|))
  }

  /** One turn of the loop of `procesar_descarga` for item i of n: the
      cursor is cleared and the start announced; then, if the link could be
      read, the header, the progress and the final message, else the
      failure. */
  function ProcessItem(p: Panel, i: nat, n: nat, url: string, item: Item): (r: Panel)
    requires CursorValid(p)
    ensures CursorValid(r)
  {
    var q := Log(p.(cursor := None), StartLine(i, n));
    match item
    case ProbeFailed(f) => Log(q, FailureNotice(f))
    case Probed(title, events, fetch) =>
      var h := HookAll(Header(q, url, GetOr(title, UntitledVideo)), events);
      Log(h, FetchNotice(fetch))
  }

  // ---------------------------------------------------------------------
  // The whole loop
  // ---------------------------------------------------------------------

  /** One link's item, and whether the user clicked stop while it was being
      handled (the click is seen during one of the item's `processEvents`
      calls, and only sets the flag). */
  datatype LegacyRun = LegacyRun(item: Item, userStops: bool)

  /** The loop of `procesar_descarga` from position i on, with the stop
      flag as it stands: a raised flag logs the stop message and ends the
      loop; otherwise item i + 1 is handled and the flag is what the user
      did meanwhile. */
  function Drive(p: Panel, stop: bool, urls: seq<string>, runs: seq<LegacyRun>, i: nat): (r: Panel)
    requires CursorValid(p)
    requires |runs| == |urls| && i <= |urls|
    ensures CursorValid(r)
    decreases |urls| - i
  {
    if i == |urls| then p
    else if stop then Log(p, StopNotice)
    else Drive(ProcessItem(p, i + 1, |urls|, urls[i], runs[i].item), runs[i].userStops, urls, runs, i + 1)
  }

  /** The number of items attempted: up to and including the first one
      during which stop was clicked, or all of them. */
  function Attempted(runs: seq<LegacyRun>, from: nat): (m: nat)
    requires from <= |runs|
    ensures from <= m <= |runs|
    ensures forall k :: from <= k < m - 1 ==> !runs[k].userStops
    ensures m < |runs| ==> m > from && runs[m - 1].userStops
    decreases |runs| - from
  {
    if from == |runs| then from
    else if runs[from].userStops then from + 1
    else Attempted(runs, from + 1)
  }

  /** The first m items handled in order, whatever each one's outcome. */
  function Items(p: Panel, urls: seq<string>, runs: seq<LegacyRun>, m: nat): (r: Panel)
    requires CursorValid(p)
    requires |runs| == |urls| && m <= |urls|
    ensures CursorValid(r)
  {
    if m == 0 then p
    else ProcessItem(Items(p, urls, runs, m - 1), m, |urls|, urls[m - 1], runs[m - 1].item)
  }

  /** Whether stop was clicked during the i-th item (none before the first). */
  predicate StoppedAfter(runs: seq<LegacyRun>, i: nat)
    requires i <= |runs|
  {
    i > 0 && runs[i - 1].userStops
  }

  /** Where the loop ends after m items: with the stop message if items remain. */
  function Finish(p: Panel, urls: seq<string>, runs: seq<LegacyRun>, m: nat): Panel
    requires CursorValid(p) && |runs| == |urls| && m <= |urls|
  {
    if m < |urls| then Log(Items(p, urls, runs, m), StopNotice) else Items(p, urls, runs, m)
  }

  /** The links of a file as `cargar_archivo_txt` lists them, one ` - url`
      message each, in file order. */
  function ListLinks(p: Panel, urls: seq<string>): (r: Panel)
    requires CursorValid(p)
    ensures CursorValid(r) && r.cursor == p.cursor
  {
    if urls == [] then p
    else Log(ListLinks(p, urls[..|urls| - 1]), " - " + urls[|urls| - 1])
  }

  // ---------------------------------------------------------------------
  // Properties
  // ---------------------------------------------------------------------

  /** The hook's effect on the lines: a `downloading` event with the cursor
      set replaces exactly the cursor's line, keeping the number of lines
      and every other line; otherwise the text is left alone, and only a
      `finished` event clears the cursor. */
  lemma HookLines(p: Panel, d: ProgressDict)
    requires CursorValid(p)
    requires NoBreak(ProgressMessage(d))
    ensures d.status == "downloading" && p.cursor.Some? ==>
      && Split(Hook(p, d).text) == Split(p.text)[p.cursor.value - 1 := ProgressMessage(d)]
      && Hook(p, d).cursor == p.cursor
    ensures d.status == "downloading" && p.cursor.None? ==> Hook(p, d) == p
    ensures d.status == "finished" ==> Hook(p, d) == p.(cursor := None)
    ensures d.status != "downloading" && d.status != "finished" ==> Hook(p, d) == p
  {
    if d.status == "downloading" && p.cursor.Some? {
      SplitJoin(Split(p.text)[p.cursor.value - 1 := ProgressMessage(d)]);
    }
  }

  /** Without escape characters the message is exactly the formatted text,
      and it stays on one line when the dictionary's strings do. */
  lemma ProgressMessageShape(d: ProgressDict)
    ensures Esc !in ProgressText(d) ==> ProgressMessage(d) == ProgressText(d)
    ensures DictNoBreak(d) ==> NoBreak(ProgressMessage(d))
  {
    if Esc !in ProgressText(d) {
      StripSgrNoEsc(ProgressText(d));
    }
    if DictNoBreak(d) {
      ProgressTextNoBreak(d);
      StripSgrKeepsChars(ProgressText(d));
    }
  }

  /** A dictionary with none of the three keys shows the source's defaults,
      and there is no colour code to remove. */
  lemma ProgressMessageDefaults(d: ProgressDict)
    requires d.percent.None? && d.speed.None? && d.eta.None?
    ensures ProgressMessage(d) == "Velocidad: " + ("N/A" + " / Tiempo restante: " + "N/A" + " / Progreso: " + "0%")
  {
    FieldDefaults();
    var t := "Velocidad: " + ("N/A" + " / Tiempo restante: " + "N/A" + " / Progreso: " + "0%");
    assert ProgressText(d) == t;
    assert Esc !in t;
    StripSgrNoEsc(t);
  }

  /** Proof aid: the message's literal separators hold no line break. */
  lemma SeparatorsNoBreak()
    ensures NoBreak("Velocidad: ") && NoBreak(" / Tiempo restante: ") && NoBreak(" / Progreso: ")
  {
  }

  lemma ProgressTextNoBreak(d: ProgressDict)
    requires DictNoBreak(d)
    ensures NoBreak(ProgressText(d))
  {
    var p, s, e := Field(d.percent, "0%"), Field(d.speed, "N/A"), Field(d.eta, "N/A");
    FieldNoBreak(d.percent, "0%");
    FieldNoBreak(d.speed, "N/A");
    FieldNoBreak(d.eta, "N/A");
    SeparatorsNoBreak();
    NoBreakJoin5(s, " / Tiempo restante: ", e, " / Progreso: ", p);
    NoBreakJoin("Velocidad: ", s + " / Tiempo restante: " + e + " / Progreso: " + p);
  }

  /** The header adds its four lines after the existing ones and points the
      cursor at the last, blank one. */
  lemma HeaderLines(p: Panel, url: string, title: string)
    requires NoBreak(url) && NoBreak(title)
    ensures Split(Header(p, url, title).text) == Split(p.text) + [HeaderTitle, " - " + url, " - " + title, ""]
    ensures Header(p, url, title).cursor == Some(|Split(Header(p, url, title).text)|)
  {
    var lines := Split(p.text) + [HeaderTitle, " - " + url, " - " + title, ""];
    assert AllNoBreak(lines) by {
      forall k | 0 <= k < |lines| ensures NoBreak(lines[k]) {
        if k >= |Split(p.text)| {
          NoBreakJoin(" - ", url);
          NoBreakJoin(" - ", title);
        }
      }
    }
    SplitJoin(lines);
  }

  /** The panel after the header and some events: the lines before the
      progress line, then the progress line showing `ShownProgress`; the
      cursor on it until a `finished` event. */
  ghost predicate AtProgress(r: Panel, base: seq<string>, events: seq<ProgressDict>) {
    && Split(r.text) == base + [ShownProgress(events)]
    && r.cursor == if FinishedIn(events) then None else Some(|base| + 1)
  }

  /** After the header, the progress line ends up showing `ShownProgress`
      of the events and nothing else moves; the cursor stays on it until a
      `finished` event. */
  lemma ProgressAfterHeader(q: Panel, url: string, title: string, events: seq<ProgressDict>)
    requires NoBreak(url) && NoBreak(title)
    requires forall k :: 0 <= k < |events| ==> DictNoBreak(events[k])
    ensures AtProgress(HookAll(Header(q, url, title), events),
                       Split(q.text) + [HeaderTitle, " - " + url, " - " + title], events)
  {
    HeaderAtProgress(q, url, title);
    HookAllAtProgress(Header(q, url, title), Split(q.text) + [HeaderTitle, " - " + url, " - " + title], events);
  }

  /** A title holding a line break, which the source accepts, splits into
      two lines when the panel is read back; the cursor, counted before the
      split, then names the title's second piece and not the blank line, so
      progress overwrites that piece. */
  lemma HeaderSplitTitle(p: Panel, url: string, a: string, b: string)
    requires NoBreak(url) && NoBreak(a) && NoBreak(b)
    ensures var h := Header(p, url, a + "\n" + b);
      && Split(h.text) == Split(p.text) + [HeaderTitle, " - " + url, " - " + a, b, ""]
      && h.cursor == Some(|Split(p.text)| + 4)
      && Split(h.text)[h.cursor.value - 1] == b
  {
    var xs := Split(p.text) + [HeaderTitle, " - " + url];
    var ys := [" - " + a, b, ""];
    HeaderParts(p, url, a + "\n" + b);
    TitleBreakJoin(a, b);
    assert AllNoBreak(xs) by {
      NoBreakJoin(" - ", url);
    }
    assert AllNoBreak(ys) by {
      NoBreakJoin(" - ", a);
    }
    SplitJoinAppend(xs, ys);
    Regroup(Split(p.text), HeaderTitle, " - " + url, ys);
  }

  /** Proof aid: two lines, then three, are five lines. */
  lemma Regroup(base: seq<string>, l1: string, l2: string, rest: seq<string>)
    requires |rest| == 3
    ensures base + [l1, l2] + rest == base + [l1, l2, rest[0], rest[1], rest[2]]
  {
  }

  /** The header's text is the old lines and the link, then the title line
      and the blank line. */
  lemma HeaderParts(p: Panel, url: string, title: string)
    ensures Header(p, url, title).text
      == Join(Split(p.text) + [HeaderTitle, " - " + url]) + "\n" + Join([" - " + title, ""])
    ensures Header(p, url, title).cursor == Some(|Split(p.text)| + 4)
  {
    var xs := Split(p.text) + [HeaderTitle, " - " + url];
    assert Split(p.text) + [HeaderTitle, " - " + url, " - " + title, ""] == xs + [" - " + title, ""];
    JoinAppend(xs, [" - " + title, ""]);
  }

  /** A title line with a break in it is written as two lines. */
  lemma TitleBreakJoin(a: string, b: string)
    ensures Join([" - " + (a + "\n" + b), ""]) == Join([" - " + a, b, ""])
  {
    var ys := [" - " + a, b, ""];
    assert ys[1..] == [b, ""] && [b, ""][1..] == [""];
    assert Join([b, ""]) == b + "\n" + "";
    assert Join(ys) == (" - " + a) + "\n" + Join([b, ""]);
    assert " - " + (a + "\n" + b) == (" - " + a) + "\n" + b;
  }

  /** The hook keeps the progress line's shape event after event. */
  lemma {:induction false} HookAllAtProgress(h: Panel, base: seq<string>, events: seq<ProgressDict>)
    requires CursorValid(h) && AtProgress(h, base, [])
    requires forall k :: 0 <= k < |events| ==> DictNoBreak(events[k])
    ensures AtProgress(HookAll(h, events), base, events)
  {
    if events != [] {
      var pre, d := events[..|events| - 1], events[|events| - 1];
      assert forall k :: 0 <= k < |pre| ==> pre[k] == events[k];
      HookAllAtProgress(h, base, pre);
      assert events == pre + [d];
      HookStep(HookAll(h, pre), base, pre, d);
    }
  }

  lemma HeaderAtProgress(q: Panel, url: string, title: string)
    requires NoBreak(url) && NoBreak(title)
    ensures AtProgress(Header(q, url, title), Split(q.text) + [HeaderTitle, " - " + url, " - " + title], [])
  {
    var base := Split(q.text) + [HeaderTitle, " - " + url, " - " + title];
    HeaderLines(q, url, title);
    assert Split(q.text) + [HeaderTitle, " - " + url, " - " + title, ""] == base + [""];
  }

  lemma HookStep(s: Panel, base: seq<string>, pre: seq<ProgressDict>, d: ProgressDict)
    requires CursorValid(s) && AtProgress(s, base, pre)
    requires DictNoBreak(d)
    ensures AtProgress(Hook(s, d), base, pre + [d])
  {
    FinishedSnoc(pre, d);
    ShownSnoc(pre, d);
    if d.status == "downloading" && !FinishedIn(pre) {
      HookStepShows(s, base, pre, d);
    } else {
      HookStepIdle(s, base, pre, d);
    }
  }

  lemma HookStepShows(s: Panel, base: seq<string>, pre: seq<ProgressDict>, d: ProgressDict)
    requires CursorValid(s) && AtProgress(s, base, pre)
    requires DictNoBreak(d) && d.status == "downloading" && !FinishedIn(pre)
    ensures Split(Hook(s, d).text) == base + [ProgressMessage(d)]
    ensures Hook(s, d).cursor == s.cursor
  {
    var m := ProgressMessage(d);
    ProgressMessageShape(d);
    assert s.cursor == Some(|base| + 1);
    var lines := Split(s.text);
    assert lines == base + [ShownProgress(pre)];
    HookLines(s, d);
    assert Split(Hook(s, d).text) == lines[|base| := m];
    ReplaceLast(base, ShownProgress(pre), m);
  }

  /** Proof aid: overwriting the last line of `base + [x]`. */
  lemma ReplaceLast(base: seq<string>, x: string, m: string)
    ensures (base + [x])[|base| := m] == base + [m]
  {
  }

  lemma HookStepIdle(s: Panel, base: seq<string>, pre: seq<ProgressDict>, d: ProgressDict)
    requires CursorValid(s) && AtProgress(s, base, pre)
    requires DictNoBreak(d) && !(d.status == "downloading" && !FinishedIn(pre))
    ensures Hook(s, d).text == s.text
    ensures Hook(s, d).cursor == if d.status == "finished" then None else s.cursor
  {
    ProgressMessageShape(d);
    HookLines(s, d);
  }

  lemma FinishedSnoc(pre: seq<ProgressDict>, d: ProgressDict)
    ensures FinishedIn(pre + [d]) <==> FinishedIn(pre) || d.status == "finished"
  {
    var es := pre + [d];
    if FinishedIn(pre) {
      var k :| 0 <= k < |pre| && pre[k].status == "finished";
      assert es[k] == pre[k];
    }
    if FinishedIn(es) && !FinishedIn(pre) {
      var k :| 0 <= k < |es| && es[k].status == "finished";
      if k < |pre| {
        assert pre[k] == es[k];
      }
    }
    assert es[|pre|] == d;
  }

  lemma ShownSnoc(pre: seq<ProgressDict>, d: ProgressDict)
    ensures ShownProgress(pre + [d]) ==
            if !FinishedIn(pre) && d.status == "downloading" then ProgressMessage(d) else ShownProgress(pre)
  {
    assert (pre + [d])[..|pre|] == pre;
  }

  /** The lines of the panel's document: none while it is empty. */
  function Paragraphs(text: string): seq<string> {
    if text == "" then [] else Split(text)
  }

  /** What handling one item adds to the panel, line by line, when its
      strings stay on one line: a blank line and the start line, then
      either the header with the progress line and the final message, or
      the failure message. Nothing written before is changed. */
  lemma ItemLines(p: Panel, i: nat, n: nat, url: string, item: Item)
    requires CursorValid(p)
    requires NoBreak(url)
    requires item.Probed? ==> NoBreak(GetOr(item.title, UntitledVideo))
    requires item.Probed? ==> forall k :: 0 <= k < |item.events| ==> DictNoBreak(item.events[k])
    ensures Split(ProcessItem(p, i, n, url, item).text) ==
        match item
        case ProbeFailed(f) => Paragraphs(p.text) + ["", StartMessage(i, n)] + Split(FailureNotice(f))
        case Probed(title, events, fetch) =>
          Paragraphs(p.text) + ["", StartMessage(i, n)]
            + [HeaderTitle, " - " + url, " - " + GetOr(title, UntitledVideo), ShownProgress(events)]
            + Split(FetchNotice(fetch))
  {
    StartLines(p, i, n);
    var q := Log(p.(cursor := None), StartLine(i, n));
    match item {
      case ProbeFailed(f) =>
        assert q.text != "";
        AppendParagraphLines(q.text, FailureNotice(f));
      case Probed(title, events, fetch) =>
        ProbedLines(q, url, GetOr(title, UntitledVideo), events, fetch);
    }
  }

  /** The start of every item: a blank line, then the start message. */
  lemma StartLines(p: Panel, i: nat, n: nat)
    requires CursorValid(p)
    ensures Split(Log(p.(cursor := None), StartLine(i, n)).text) == Paragraphs(p.text) + ["", StartMessage(i, n)]
    ensures Log(p.(cursor := None), StartLine(i, n)).text != ""
  {
    var msg := StartMessage(i, n);
    assert StartLine(i, n) == "" + "\n" + msg;
    SplitConcat("", msg);
    NoBreakJoin("\U{1F680} Iniciando descarga del video ", NatToString(i));
    NoBreakJoin("\U{1F680} Iniciando descarga del video " + NatToString(i), " de ");
    NoBreakJoin("\U{1F680} Iniciando descarga del video " + NatToString(i) + " de ", NatToString(n));
    SplitSingle(msg);
    AppendParagraphLines(p.text, StartLine(i, n));
  }

  /** A link that could be read: header, progress line, final message. */
  lemma ProbedLines(q: Panel, url: string, title: string, events: seq<ProgressDict>, fetch: Fetch)
    requires CursorValid(q)
    requires NoBreak(url) && NoBreak(title)
    requires forall k :: 0 <= k < |events| ==> DictNoBreak(events[k])
    ensures Split(Log(HookAll(Header(q, url, title), events), FetchNotice(fetch)).text) ==
            Split(q.text) + [HeaderTitle, " - " + url, " - " + title, ShownProgress(events)]
              + Split(FetchNotice(fetch))
  {
    var lines := Split(q.text);
    var base := lines + [HeaderTitle, " - " + url, " - " + title];
    var shown := ShownProgress(events);
    ProgressAfterHeader(q, url, title, events);
    var h := HookAll(Header(q, url, title), events);
    assert Split(h.text) == base + [shown];
    SplitManyNonEmpty(h.text);
    AppendParagraphLines(h.text, FetchNotice(fetch));
    HeaderSnoc(lines, url, title, shown);
  }

  /** Proof aid: regrouping the header's lines with the progress line. */
  lemma HeaderSnoc(lines: seq<string>, url: string, title: string, shown: string)
    ensures (lines + [HeaderTitle, " - " + url, " - " + title]) + [shown]
         == lines + [HeaderTitle, " - " + url, " - " + title, shown]
  {
  }

  /** Only the stop flag, and nothing an item's outcome does, ends the loop:
      the items up to and including the first one during which stop was
      clicked are handled in list order, and if any remain, the stop
      message is logged and no later item is attempted. */
  lemma DriveAttempts(p: Panel, urls: seq<string>, runs: seq<LegacyRun>)
    requires CursorValid(p) && |runs| == |urls|
    ensures Drive(p, false, urls, runs, 0) == Finish(p, urls, runs, Attempted(runs, 0))
  {
    DriveFrom(p, urls, runs, 0, Attempted(runs, 0), p);
  }

  lemma {:induction false} DriveFrom(p: Panel, urls: seq<string>, runs: seq<LegacyRun>, i: nat, m: nat, q: Panel)
    requires CursorValid(p) && |runs| == |urls|
    requires m == Attempted(runs, 0) && i <= m
    requires q == Items(p, urls, runs, i)
    ensures CursorValid(q) && Drive(q, StoppedAfter(runs, i), urls, runs, i) == Finish(p, urls, runs, m)
    decreases |urls| - i
  {
    if i < m {
      var next := ProcessItem(q, i + 1, |urls|, urls[i], runs[i].item);
      ItemsStep(p, urls, runs, i);
      DriveStep(q, urls, runs, i, next);
      DriveFrom(p, urls, runs, i + 1, m, next);
    } else {
      DriveEnd(p, urls, runs);
    }
  }

  lemma ItemsStep(p: Panel, urls: seq<string>, runs: seq<LegacyRun>, i: nat)
    requires CursorValid(p) && |runs| == |urls| && i < |urls|
    ensures Items(p, urls, runs, i + 1) == ProcessItem(Items(p, urls, runs, i), i + 1, |urls|, urls[i], runs[i].item)
  {
  }

  /** Before the first stop, the loop hands item i + 1 over and moves on. */
  lemma DriveStep(q: Panel, urls: seq<string>, runs: seq<LegacyRun>, i: nat, next: Panel)
    requires CursorValid(q) && |runs| == |urls|
    requires i < Attempted(runs, 0)
    requires next == ProcessItem(q, i + 1, |urls|, urls[i], runs[i].item)
    ensures Drive(q, StoppedAfter(runs, i), urls, runs, i) == Drive(next, StoppedAfter(runs, i + 1), urls, runs, i + 1)
  {
    assert !StoppedAfter(runs, i);
  }

  /** One turn of the loop: a raised flag ends it with the stop message,
      otherwise item i + 1 is handled and the user's click becomes the flag. */
  lemma DriveUnfold(q: Panel, urls: seq<string>, runs: seq<LegacyRun>, i: nat)
    requires CursorValid(q) && |runs| == |urls| && i < |urls|
    ensures Drive(q, true, urls, runs, i) == Log(q, StopNotice)
    ensures Drive(q, false, urls, runs, i) ==
            Drive(ProcessItem(q, i + 1, |urls|, urls[i], runs[i].item), runs[i].userStops, urls, runs, i + 1)
  {
  }

  /** Before the first stop click the loop has not attempted every item it
      will attempt, so it goes on. */
  lemma AttemptedStep(runs: seq<LegacyRun>, i: nat)
    requires i < |runs| && i <= Attempted(runs, 0) && !StoppedAfter(runs, i)
    ensures i + 1 <= Attempted(runs, 0)
  {
  }

  /** The loop stops at the first stop click, or at the end of the list:
      either way, exactly `Attempted` items were handled. */
  lemma AttemptedAt(runs: seq<LegacyRun>, i: nat)
    requires i <= Attempted(runs, 0) && (i == |runs| || StoppedAfter(runs, i))
    ensures i == Attempted(runs, 0)
  {
  }

  /** At the first stop, the loop logs the stop message if items remain. */
  lemma DriveEnd(p: Panel, urls: seq<string>, runs: seq<LegacyRun>)
    requires CursorValid(p) && |runs| == |urls|
    ensures var m := Attempted(runs, 0);
      Drive(Items(p, urls, runs, m), StoppedAfter(runs, m), urls, runs, m) == Finish(p, urls, runs, m)
  {
    var m := Attempted(runs, 0);
    var q := Items(p, urls, runs, m);
    var stop := StoppedAfter(runs, m);
    if m < |urls| {
      assert stop;
      assert Drive(q, stop, urls, runs, m) == Log(q, StopNotice);
    } else {
      assert Drive(q, stop, urls, runs, m) == q;
    }
  }

  /** The listing's lines: ` - url` for each link, in file order. */
  function Bullets(urls: seq<string>): (r: seq<string>)
    ensures |r| == |urls|
    ensures forall k :: 0 <= k < |urls| ==> r[k] == " - " + urls[k]
  {
    seq(|urls|, k requires 0 <= k < |urls| => " - " + urls[k])
  }

  /** The listing adds one line per link, in file order, and leaves the
      earlier lines alone. */
  lemma {:induction false} ListLinksLines(p: Panel, urls: seq<string>)
    requires CursorValid(p) && p.text != ""
    requires forall k :: 0 <= k < |urls| ==> NoBreak(urls[k])
    ensures ListLinks(p, urls).text != ""
    ensures Split(ListLinks(p, urls).text) == Split(p.text) + Bullets(urls)
  {
    if urls != [] {
      var n := |urls|;
      var pre := urls[..n - 1];
      assert forall k :: 0 <= k < |pre| ==> pre[k] == urls[k];
      ListLinksLines(p, pre);
      var q := ListLinks(p, pre);
      BulletLine(q.text, urls[n - 1]);
      BulletsSnoc(urls);
      assert Split(p.text) + Bullets(pre) + [" - " + urls[n - 1]] == Split(p.text) + Bullets(urls);
    }
  }

  /** A bullet logged after some text adds exactly its own line. */
  lemma BulletLine(text: string, url: string)
    requires text != "" && NoBreak(url)
    ensures AppendParagraph(text, " - " + url) != ""
    ensures Split(AppendParagraph(text, " - " + url)) == Split(text) + [" - " + url]
  {
    NoBreakJoin(" - ", url);
    SplitSingle(" - " + url);
    AppendParagraphLines(text, " - " + url);
  }

  lemma BulletsSnoc(urls: seq<string>)
    requires urls != []
    ensures Bullets(urls) == Bullets(urls[..|urls| - 1]) + [" - " + urls[|urls| - 1]]
  {
  }
}
