/** The slot-addressed progress log of the parallel front end (main.py),
    as values: the log panel's text together with the table `progress_lines`
    from item number to line number, the three operations that change them,
    and the lines each download worker emits. */
module ProgressLog {
  import opened Wrappers
  import opened PyStr
  import opened LogBuffer
  import opened Ansi
  import opened Engine

  /** The panel's plain text and the slot table. */
  datatype Log = Log(text: string, slots: map<int, nat>)

  function Lines(log: Log): seq<string> {
    Split(log.text)
  }

  /** `[idx/total]`, the label that opens every line about item idx. */
  function Tag(idx: nat, total: nat): (r: string)
    ensures Esc !in r && NoBreak(r) && r != ""
  {
    "[" + NatToString(idx) + "/" + NatToString(total) + "]"
  }

  /** The line shown for item i before anything is known about it:
      `[i/total] ⏳ Pendiente…`. */
  function Placeholder(i: nat, total: nat): (r: string)
    ensures NoBreak(r) && r != ""
  {
    Tag(i, total) + " \U{23F3} Pendiente\U{2026}"
  }

  function Placeholders(total: nat): (r: seq<string>)
    ensures |r| == total
    ensures forall k :: 0 <= k < total ==> r[k] == Placeholder(k + 1, total)
  {
    seq(total, k requires 0 <= k < total => Placeholder(k + 1, total))
  }

  /** Slot i names line i - 1, for every item of the batch. */
  function SlotMap(total: nat): (m: map<int, nat>)
    ensures forall i :: i in m <==> 1 <= i <= total
    ensures forall i :: i in m ==> m[i] == i - 1
  {
    if total == 0 then map[] else SlotMap(total - 1)[total := total - 1]
  }

  /** The log right after `_init_progress_lines(total)`. */
  function Init(total: nat): Log {
    Log(Join(Placeholders(total)), SlotMap(total))
  }

  /** `_update_progress(idx, text)`: an unknown slot is ignored; a slot whose
      line exists has that line replaced; a slot pointing past the end gets
      the text appended and is pointed at it. */
  function Update(log: Log, idx: int, text: string): Log {
    var lines := Lines(log);
    if idx !in log.slots then log
    else if log.slots[idx] >= |lines| then
      Log(Join(lines + [text]), log.slots[idx := |lines|])
    else
      Log(Join(lines[log.slots[idx] := text]), log.slots)
  }

  /** `_append_info(msg)`: a new paragraph at the end; slots untouched. */
  function AppendInfo(log: Log, msg: string): Log {
    log.(text := AppendParagraph(log.text, msg))
  }

  /** What reaches the panel: a progress signal for a slot, or an
      informational message. */
  datatype Emission = Progress(idx: int, text: string) | Info(msg: string)

  function Apply(log: Log, e: Emission): Log {
    match e
    case Progress(idx, text) => Update(log, idx, text)
    case Info(msg) => AppendInfo(log, msg)
  }

  /** The emissions applied in order. */
  function ApplyAll(log: Log, es: seq<Emission>): Log {
    if es == [] then log
    else Apply(ApplyAll(log, es[..|es| - 1]), es[|es| - 1])
  }

  /** The text last emitted for slot i, or d if there was none. */
  function Latest(es: seq<Emission>, i: int, d: string): string {
    if es == [] then d
    else
      var e := es[|es| - 1];
      if e.Progress? && e.idx == i then e.text else Latest(es[..|es| - 1], i, d)
  }

  /** Progress texts that neither hold a line break nor are empty. */
  predicate SingleLines(es: seq<Emission>) {
    forall k :: 0 <= k < |es| && es[k].Progress? ==> es[k].text != "" && NoBreak(es[k].text)
  }

  // ---------------------------------------------------------------------
  // The three buffer operations, line by line
  // ---------------------------------------------------------------------

  /** After `_init_progress_lines(total)` the panel holds exactly the
      placeholders, one per item; with no item it holds one empty line. */
  lemma InitLines(total: nat)
    ensures total >= 1 ==> Lines(Init(total)) == Placeholders(total)
    ensures total == 0 ==> Lines(Init(total)) == [""]
  {
    if total >= 1 {
      SplitJoin(Placeholders(total));
    }
  }

  /** What `_update_progress` does to the lines, when the text is one line:
      nothing for an unknown slot; the slot's own line replaced and all else
      kept when the line exists; the text appended and the slot re-pointed
      at it otherwise. */
  lemma UpdateLines(log: Log, idx: int, text: string)
    requires NoBreak(text)
    ensures idx !in log.slots ==> Update(log, idx, text) == log
    ensures idx in log.slots && log.slots[idx] < |Lines(log)| ==>
              && Lines(Update(log, idx, text)) == Lines(log)[log.slots[idx] := text]
              && Update(log, idx, text).slots == log.slots
    ensures idx in log.slots && log.slots[idx] >= |Lines(log)| ==>
              && Lines(Update(log, idx, text)) == Lines(log) + [text]
              && Update(log, idx, text).slots == log.slots[idx := |Lines(log)|]
  {
    var lines := Lines(log);
    if idx in log.slots {
      if log.slots[idx] >= |lines| {
        SplitJoin(lines + [text]);
      } else {
        SplitJoin(lines[log.slots[idx] := text]);
      }
    }
  }

  /** `_append_info` only adds lines after the existing ones (unless the
      panel was empty), so it never moves a slot's line. */
  lemma AppendInfoLines(log: Log, msg: string)
    requires log.text != ""
    ensures Lines(AppendInfo(log, msg)) == Lines(log) + Split(msg)
    ensures AppendInfo(log, msg).slots == log.slots
  {
    AppendParagraphLines(log.text, msg);
  }

  // ---------------------------------------------------------------------
  // Slot i always addresses the line of item i
  // ---------------------------------------------------------------------

  lemma {:induction false} LatestNonEmpty(es: seq<Emission>, i: int, d: string)
    requires d != "" && SingleLines(es)
    ensures Latest(es, i, d) != ""
  {
    if es != [] {
      LatestNonEmpty(es[..|es| - 1], i, d);
    }
  }

  ghost predicate Tracks(log: Log, total: nat, es: seq<Emission>) {
    && log.slots == SlotMap(total)
    && |Lines(log)| >= total
    && forall i :: 1 <= i <= total ==> Lines(log)[i - 1] == Latest(es, i, Placeholder(i, total))
  }

  /** The central property of the parallel front end: once the batch's
      placeholders are shown, whatever progress and informational messages
      arrive, in whatever order, every slot still names the line of its own
      item, and that line holds the last text emitted for the item (its
      placeholder if none). It needs every progress text to be a single,
      non-empty line: the panel is split on line breaks at each update, so a
      text with a line break would push later items' lines down. */
  lemma {:induction false} SlotsTrackLatest(total: nat, es: seq<Emission>)
    requires total >= 1
    requires SingleLines(es)
    ensures Tracks(ApplyAll(Init(total), es), total, es)
  {
    if es == [] {
      InitLines(total);
    } else {
      var pre := es[..|es| - 1];
      var e := es[|es| - 1];
      assert SingleLines(pre) by {
        forall k | 0 <= k < |pre| && pre[k].Progress?
          ensures pre[k].text != "" && NoBreak(pre[k].text)
        {
          assert pre[k] == es[k];
        }
      }
      SlotsTrackLatest(total, pre);
      var log := ApplyAll(Init(total), pre);
      var next := Apply(log, e);
      assert ApplyAll(Init(total), es) == next;
      match e {
        case Progress(j, t) =>
          UpdateLines(log, j, t);
        case Info(msg) =>
          LatestNonEmpty(pre, 1, Placeholder(1, total));
          assert Lines(log) != [""];
          AppendInfoLines(log, msg);
          assert forall k :: 0 <= k < total ==> Lines(next)[k] == Lines(log)[k];
      }
    }
  }

  // ---------------------------------------------------------------------
  // What each worker emits
  // ---------------------------------------------------------------------

  /** How the library's work on one item went: the progress dictionaries it
      passed to the hook, in order, then the downloaded file's name or the
      failure raised. */
  datatype Outcome = Saved(fileName: string) | Failed(failure: Failure)
  datatype Run = Run(events: seq<ProgressDict>, outcome: Outcome)

  /** The text the hook of item idx emits for one dictionary, if any: only a
      `downloading` status produces `[idx/total] ⬇ p | s | ETA e`, with the
      colour codes removed. */
  function HookLine(idx: nat, total: nat, d: ProgressDict): Option<string> {
    if d.status == "downloading" then Some(StripSgr(Tag(idx, total) + " \U{2B07} " + HookBody(d)))
    else None
  }

  /** `p | s | ETA e` from the dictionary's stripped fields. */
  function HookBody(d: ProgressDict): string {
    Field(d.percent, "0%") + " | " + Field(d.speed, "N/A") + " | ETA " + Field(d.eta, "N/A")
  }

  /** The final line of item idx: `[idx/total] ✔️ name` on success,
      `[idx/total] ❌ Error: e` for the library's download error,
      `[idx/total] ⚠️ Error inesperado: e` for anything else. */
  function OutcomeLine(idx: nat, total: nat, o: Outcome): string {
    match o
    case Saved(name) => Tag(idx, total) + " \U{2714}\U{FE0F} " + name
    case Failed(DownloadError(e)) => Tag(idx, total) + " \U{274C} Error: " + e
    case Failed(OtherError(e)) => Tag(idx, total) + " \U{26A0}\U{FE0F} Error inesperado: " + e
  }

  function HookEmissions(idx: nat, total: nat, events: seq<ProgressDict>): seq<Emission> {
    if events == [] then []
    else
      var pre := HookEmissions(idx, total, events[..|events| - 1]);
      match HookLine(idx, total, events[|events| - 1])
      case Some(t) => pre + [Progress(idx, t)]
      case None => pre
  }

  /** `_descargar(url, idx)` as seen by the panel: nothing once the stop
      flag is set; otherwise the hook's lines, then the outcome line. */
  function WorkerEmissions(idx: nat, total: nat, stop: bool, run: Run): seq<Emission> {
    if stop then []
    else HookEmissions(idx, total, run.events) + [Progress(idx, OutcomeLine(idx, total, run.outcome))]
  }

  /** Every worker of a batch, items 1 to |runs|, one after the other. */
  function BatchEmissions(total: nat, stop: bool, runs: seq<Run>): seq<Emission> {
    if runs == [] then []
    else BatchEmissions(total, stop, runs[..|runs| - 1]) + WorkerEmissions(|runs|, total, stop, runs[|runs| - 1])
  }

  /** The hook speaks only for `downloading` events, and its line starts
      with the item's own label; text with no escape character comes out
      exactly as formatted. */
  lemma HookLineShape(idx: nat, total: nat, d: ProgressDict)
    ensures HookLine(idx, total, d).Some? <==> d.status == "downloading"
    ensures HookLine(idx, total, d).Some? ==>
      var body := HookBody(d);
      && HookLine(idx, total, d).value == Tag(idx, total) + " \U{2B07} " + StripSgr(body)
      && (Esc !in body ==> HookLine(idx, total, d).value == Tag(idx, total) + " \U{2B07} " + body)
  {
    if d.status == "downloading" {
      var body := HookBody(d);
      var head := Tag(idx, total) + " \U{2B07} ";
      assert Tag(idx, total) + " \U{2B07} " + body == head + body;
      StripSgrKeepsPrefix(head, body);
      if Esc !in body {
        StripSgrNoEsc(body);
      }
    }
  }

  /** The hook's line is a single non-empty line when the dictionary's
      strings are. */
  lemma HookLineSingle(idx: nat, total: nat, d: ProgressDict)
    requires DictNoBreak(d)
    requires HookLine(idx, total, d).Some?
    ensures HookLine(idx, total, d).value != "" && NoBreak(HookLine(idx, total, d).value)
  {
    HookLineShape(idx, total, d);
    HookBodyNoBreak(d);
    NoBreakJoin(Tag(idx, total), " \U{2B07} ");
    HeadAndStrippedBody(Tag(idx, total) + " \U{2B07} ", HookBody(d));
  }

  lemma HeadAndStrippedBody(head: string, body: string)
    requires head != "" && NoBreak(head) && NoBreak(body)
    ensures head + StripSgr(body) != "" && NoBreak(head + StripSgr(body))
  {
    StripSgrKeepsChars(body);
  }

  /** A dictionary with none of the three keys shows the source's defaults. */
  lemma HookBodyDefaults(d: ProgressDict)
    requires d.percent.None? && d.speed.None? && d.eta.None?
    ensures HookBody(d) == "0% | N/A | ETA N/A"
  {
    FieldDefaults();
  }

  lemma HookBodyNoBreak(d: ProgressDict)
    requires DictNoBreak(d)
    ensures NoBreak(HookBody(d))
  {
    var p, s, e := Field(d.percent, "0%"), Field(d.speed, "N/A"), Field(d.eta, "N/A");
    FieldNoBreak(d.percent, "0%");
    FieldNoBreak(d.speed, "N/A");
    FieldNoBreak(d.eta, "N/A");
    HookSeparatorsNoBreak();
    NoBreakJoin5(p, " | ", s, " | ETA ", e);
  }

  /** Proof aid: the hook's literal separators hold no line break. */
  lemma HookSeparatorsNoBreak()
    ensures NoBreak(" | ") && NoBreak(" | ETA ")
  {
  }

  /** A worker emits only for its own slot, and when it runs, its outcome
      line comes last. */
  lemma {:induction false} WorkerOwnSlot(idx: nat, total: nat, stop: bool, run: Run)
    ensures stop ==> WorkerEmissions(idx, total, stop, run) == []
    ensures forall e :: e in WorkerEmissions(idx, total, stop, run) ==> e.Progress? && e.idx == idx
    ensures !stop ==> var es := WorkerEmissions(idx, total, stop, run);
      es != [] && es[|es| - 1] == Progress(idx, OutcomeLine(idx, total, run.outcome))
  {
    HookEmissionsOwnSlot(idx, total, run.events);
  }

  lemma {:induction false} HookEmissionsOwnSlot(idx: nat, total: nat, events: seq<ProgressDict>)
    ensures forall e :: e in HookEmissions(idx, total, events) ==> e.Progress? && e.idx == idx
  {
    if events != [] {
      HookEmissionsOwnSlot(idx, total, events[..|events| - 1]);
    }
  }

  // ---------------------------------------------------------------------
  // A whole batch
  // ---------------------------------------------------------------------

  lemma {:induction false} ApplyAllAppend(log: Log, a: seq<Emission>, b: seq<Emission>)
    ensures ApplyAll(log, a + b) == ApplyAll(ApplyAll(log, a), b)
  {
    if b == [] {
      assert a + b == a;
    } else {
      assert (a + b)[..|a + b| - 1] == a + b[..|b| - 1];
      ApplyAllAppend(log, a, b[..|b| - 1]);
    }
  }

  /** One more emission is applied to the state the earlier ones left. */
  lemma ApplyAllSnoc(log: Log, a: seq<Emission>, e: Emission)
    ensures ApplyAll(log, a + [e]) == Apply(ApplyAll(log, a), e)
  {
    assert (a + [e])[..|a|] == a;
  }

  lemma {:induction false} LatestAppend(a: seq<Emission>, b: seq<Emission>, i: int, d: string)
    ensures Latest(a + b, i, d) == Latest(b, i, Latest(a, i, d))
  {
    if b == [] {
      assert a + b == a;
    } else {
      assert (a + b)[..|a + b| - 1] == a + b[..|b| - 1];
      LatestAppend(a, b[..|b| - 1], i, d);
    }
  }

  lemma {:induction false} LatestUntouched(es: seq<Emission>, i: int, d: string)
    requires forall e :: e in es ==> !(e.Progress? && e.idx == i)
    ensures Latest(es, i, d) == d
  {
    if es != [] {
      assert es[|es| - 1] in es;
      assert forall e :: e in es[..|es| - 1] ==> e in es;
      LatestUntouched(es[..|es| - 1], i, d);
    }
  }

  /** A worker that runs leaves its outcome line as the last word on its
      slot. */
  lemma WorkerLatest(idx: nat, total: nat, run: Run, d: string)
    ensures Latest(WorkerEmissions(idx, total, false, run), idx, d) == OutcomeLine(idx, total, run.outcome)
  {
    WorkerOwnSlot(idx, total, false, run);
  }

  /** Failure isolation: after a batch, each item's slot was last written by
      its own worker with its own outcome, whatever the other items did;
      with the stop flag set, no slot was written. */
  lemma {:induction false} BatchLatest(total: nat, stop: bool, runs: seq<Run>, i: int, d: string)
    requires 1 <= i <= |runs|
    ensures Latest(BatchEmissions(total, stop, runs), i, d) ==
            if stop then d else OutcomeLine(i, total, runs[i - 1].outcome)
  {
    var n := |runs|;
    var pre := runs[..n - 1];
    var b := BatchEmissions(total, stop, pre);
    var w := WorkerEmissions(n, total, stop, runs[n - 1]);
    assert BatchEmissions(total, stop, runs) == b + w;
    LatestAppend(b, w, i, d);
    if i == n {
      LastWorkerLatest(total, stop, runs, d);
    } else {
      WorkerOwnSlot(n, total, stop, runs[n - 1]);
      LatestUntouched(w, i, Latest(b, i, d));
      BatchLatest(total, stop, pre, i, d);
      assert pre[i - 1] == runs[i - 1];
    }
  }

  /** The last worker's slot: its own outcome, or untouched when stopped. */
  lemma LastWorkerLatest(total: nat, stop: bool, runs: seq<Run>, d: string)
    requires |runs| >= 1
    ensures var n := |runs|;
      Latest(WorkerEmissions(n, total, stop, runs[n - 1]), n, Latest(BatchEmissions(total, stop, runs[..n - 1]), n, d)) ==
      if stop then d else OutcomeLine(n, total, runs[n - 1].outcome)
  {
    var n := |runs|;
    var mid := Latest(BatchEmissions(total, stop, runs[..n - 1]), n, d);
    if stop {
      BatchSilent(total, runs[..n - 1]);
      assert WorkerEmissions(n, total, stop, runs[n - 1]) == [];
    } else {
      WorkerLatest(n, total, runs[n - 1], mid);
    }
  }

  /** Proof aid: regrouping emissions, kept apart so the loop that uses it
      stays cheap to verify. */
  lemma ConcatAssoc(a: seq<Emission>, b: seq<Emission>, c: seq<Emission>)
    ensures a + (b + c) == a + b + c
  {
  }

  lemma BatchStep(total: nat, stop: bool, runs: seq<Run>, n: nat)
    requires 1 <= n <= |runs|
    ensures BatchEmissions(total, stop, runs[..n]) ==
            BatchEmissions(total, stop, runs[..n - 1]) + WorkerEmissions(n, total, stop, runs[n - 1])
  {
    assert runs[..n][..n - 1] == runs[..n - 1];
  }

  lemma {:induction false} BatchSilent(total: nat, runs: seq<Run>)
    ensures BatchEmissions(total, true, runs) == []
  {
    if runs != [] {
      BatchSilent(total, runs[..|runs| - 1]);
    }
  }

  /** The library's strings for one item stay on one line. */
  predicate RunNoBreak(run: Run) {
    && (forall k :: 0 <= k < |run.events| ==> DictNoBreak(run.events[k]))
    && match run.outcome
       case Saved(name) => NoBreak(name)
       case Failed(f) => NoBreak(f.message)
  }

  lemma {:induction false} HookEmissionsSingle(idx: nat, total: nat, events: seq<ProgressDict>)
    requires forall k :: 0 <= k < |events| ==> DictNoBreak(events[k])
    ensures SingleLines(HookEmissions(idx, total, events))
  {
    if events != [] {
      var pre, last := events[..|events| - 1], events[|events| - 1];
      assert forall k :: 0 <= k < |pre| ==> pre[k] == events[k];
      HookEmissionsSingle(idx, total, pre);
      var h := HookLine(idx, total, last);
      if h.Some? {
        HookLineSingle(idx, total, last);
        var one := [Progress(idx, h.value)];
        assert SingleLines(one) by {
          assert forall k :: 0 <= k < |one| ==> one[k] == Progress(idx, h.value);
        }
        SingleLinesAppend(HookEmissions(idx, total, pre), one);
      }
    }
  }


  lemma SingleLinesAppend(a: seq<Emission>, b: seq<Emission>)
    requires SingleLines(a) && SingleLines(b)
    ensures SingleLines(a + b)
  {
    forall k | 0 <= k < |a + b| && (a + b)[k].Progress?
      ensures (a + b)[k].text != "" && NoBreak((a + b)[k].text)
    {
      if k < |a| { assert (a + b)[k] == a[k]; } else { assert (a + b)[k] == b[k - |a|]; }
    }
  }

  lemma {:induction false} BatchSingle(total: nat, stop: bool, runs: seq<Run>)
    requires forall k :: 0 <= k < |runs| ==> RunNoBreak(runs[k])
    ensures SingleLines(BatchEmissions(total, stop, runs))
  {
    if runs != [] && !stop {
      var n := |runs|;
      BatchSingle(total, stop, runs[..n - 1]);
      WorkerSingle(n, total, runs[n - 1]);
      SingleLinesAppend(BatchEmissions(total, stop, runs[..n - 1]), WorkerEmissions(n, total, stop, runs[n - 1]));
    } else if runs != [] {
      BatchSilent(total, runs);
    }
  }

  lemma WorkerSingle(n: nat, total: nat, run: Run)
    requires RunNoBreak(run)
    ensures SingleLines(WorkerEmissions(n, total, false, run))
  {
    HookEmissionsSingle(n, total, run.events);
    var last := OutcomeLine(n, total, run.outcome);
    OutcomeLineSingle(n, total, run.outcome);
    var one := [Progress(n, last)];
    assert SingleLines(one) by {
      forall k | 0 <= k < |one| ensures one[k] == Progress(n, last) { }
    }
    SingleLinesAppend(HookEmissions(n, total, run.events), one);
  }

  /** The outcome line is one non-empty line when the outcome's text is. */
  lemma OutcomeLineSingle(idx: nat, total: nat, o: Outcome)
    requires match o
             case Saved(name) => NoBreak(name)
             case Failed(f) => NoBreak(f.message)
    ensures NoBreak(OutcomeLine(idx, total, o)) && OutcomeLine(idx, total, o) != ""
  {
    var tag := Tag(idx, total);
    OutcomeMarksNoBreak();
    match o {
      case Saved(name) =>
        NoBreakJoin(tag, " \U{2714}\U{FE0F} ");
        NoBreakJoin(tag + " \U{2714}\U{FE0F} ", name);
      case Failed(DownloadError(e)) =>
        NoBreakJoin(tag, " \U{274C} Error: ");
        NoBreakJoin(tag + " \U{274C} Error: ", e);
      case Failed(OtherError(e)) =>
        NoBreakJoin(tag, " \U{26A0}\U{FE0F} Error inesperado: ");
        NoBreakJoin(tag + " \U{26A0}\U{FE0F} Error inesperado: ", e);
    }
  }

  /** Proof aid: the outcome lines' literal marks hold no line break. */
  lemma OutcomeMarksNoBreak()
    ensures NoBreak(" \U{2714}\U{FE0F} ") && NoBreak(" \U{274C} Error: ")
    ensures NoBreak(" \U{26A0}\U{FE0F} Error inesperado: ")
  {
  }

  /** A batch from its placeholders to its end: whatever messages came
      before the workers, each item's line shows its own outcome, or its
      placeholder when the stop flag was up, and the slot table is still the
      one the placeholders were laid out with. */
  lemma BatchFinalLines(total: nat, pre: seq<Emission>, stop: bool, runs: seq<Run>)
    requires total == |runs| >= 1
    requires forall e :: e in pre ==> e.Info?
    requires forall k :: 0 <= k < |runs| ==> RunNoBreak(runs[k])
    ensures var log := ApplyAll(Init(total), pre + BatchEmissions(total, stop, runs));
      && log.slots == SlotMap(total)
      && |Lines(log)| >= total
      && forall k :: 0 <= k < total ==>
           Lines(log)[k] == if stop then Placeholder(k + 1, total) else OutcomeLine(k + 1, total, runs[k].outcome)
  {
    BatchTracks(total, pre, stop, runs);
    var log := ApplyAll(Init(total), pre + BatchEmissions(total, stop, runs));
    forall k | 0 <= k < total
      ensures Lines(log)[k] == if stop then Placeholder(k + 1, total) else OutcomeLine(k + 1, total, runs[k].outcome)
    {
      BatchItemLatest(total, pre, stop, runs, k + 1);
    }
  }

  lemma BatchItemLatest(total: nat, pre: seq<Emission>, stop: bool, runs: seq<Run>, i: int)
    requires total == |runs| >= 1
    requires forall e :: e in pre ==> e.Info?
    requires forall k :: 0 <= k < |runs| ==> RunNoBreak(runs[k])
    requires 1 <= i <= total
    ensures Latest(pre + BatchEmissions(total, stop, runs), i, Placeholder(i, total)) ==
              if stop then Placeholder(i, total) else OutcomeLine(i, total, runs[i - 1].outcome)
  {
      var b := BatchEmissions(total, stop, runs);
      var d := Placeholder(i, total);
      LatestAppend(pre, b, i, d);
      LatestUntouched(pre, i, d);
      BatchLatest(total, stop, runs, i, d);
  }

  lemma BatchTracks(total: nat, pre: seq<Emission>, stop: bool, runs: seq<Run>)
    requires total == |runs| >= 1
    requires forall e :: e in pre ==> e.Info?
    requires forall k :: 0 <= k < |runs| ==> RunNoBreak(runs[k])
    ensures Tracks(ApplyAll(Init(total), pre + BatchEmissions(total, stop, runs)), total,
                   pre + BatchEmissions(total, stop, runs))
  {
    var b := BatchEmissions(total, stop, runs);
    assert SingleLines(pre) by {
      forall k | 0 <= k < |pre| ensures !pre[k].Progress? {
        assert pre[k] in pre;
      }
    }
    BatchSingle(total, stop, runs);
    SingleLinesAppend(pre, b);
    SlotsTrackLatest(total, pre + b);
  }
}
