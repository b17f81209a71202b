/** The window of the parallel front end (main.py, class `DescargadorVideos`)
    as a class over its own state: the log panel's text, the slot table
    `progress_lines`, the batch's `total_videos` and `pending_urls`, and the
    stop flag `detener_descarga`. The library's work on each item is given
    as a `Run`; the workers of a batch are run one after the other, which is
    one of the orders `ProgressLog.SlotsTrackLatest` covers. */
module Parallel {
  import opened Wrappers
  import opened PyStr
  import opened LogBuffer
  import opened Engine
  import opened Links
  import opened ProgressLog

  const StopNotice: string := "\U{1F6D1} Descarga detenida por el usuario."
  const EmptyFileWarning: string :=
    "\U{26A0}\U{FE0F} El archivo est\U{E1} vac\U{ED}o o no contiene enlaces v\U{E1}lidos."

  /** `🚀 Preparado para descargar n videos…` */
  function PrepNotice(n: nat): string {
    "\U{1F680} Preparado para descargar " + NatToString(n) + " videos\U{2026}"
  }

  /** `⬇ Iniciando descargas (máx w simultáneas)…` */
  function StartNotice(w: nat): string {
    "\U{2B07} Iniciando descargas (m\U{E1}x " + NatToString(w) + " simult\U{E1}neas)\U{2026}"
  }

  /** `spin_concurrency.value() or 1`: the spin box's value (its range is
      1 to 10), with 0 read as 1, so a pool never has zero workers. */
  function WorkerCount(spin: int): (w: nat)
    requires 0 <= spin <= 10
    ensures 1 <= w <= 10
    ensures spin != 0 ==> w == spin
    ensures spin == 0 ==> w == 1
  {
    if spin == 0 then 1 else spin
  }

  class DescargadorVideos {
    var text: string
    var progressLines: map<int, nat>
    var totalVideos: nat
    var pendingUrls: seq<string>
    var stopRequested: bool

    /** The panel and the slot table, as the values `ProgressLog` speaks of. */
    function State(): Log
      reads this
    {
      Log(text, progressLines)
    }

    /** The window as `__init__` leaves it: an empty panel, no slots, no
        batch, the stop flag down. */
    constructor ()
      ensures text == "" && progressLines == map[]
      ensures totalVideos == 0 && pendingUrls == [] && !stopRequested
    {
      text := "";
      progressLines := map[];
      totalVideos := 0;
      pendingUrls := [];
      stopRequested := false;
    }

    /** `_append_info(msg)`, the receiver of `info_signal`. */
    method AppendInfo(msg: string)
      modifies this
      ensures State() == ProgressLog.AppendInfo(old(State()), msg)
      ensures totalVideos == old(totalVideos) && pendingUrls == old(pendingUrls)
      ensures stopRequested == old(stopRequested)
    {
      text := AppendParagraph(text, msg);
    }

    /** `_init_progress_lines(total)`: the table is cleared and refilled with
        slot i naming line i - 1, and the panel's text is replaced by the
        placeholders (`ProgressLog.InitLines`). */
    method InitProgressLines(total: nat)
      modifies this
      ensures State() == Init(total)
      ensures totalVideos == old(totalVideos) && pendingUrls == old(pendingUrls)
      ensures stopRequested == old(stopRequested)
    {
      progressLines := map[];
      var placeholders := Placeholders(total);
      var i := 1;
      while i <= total
        invariant 1 <= i <= total + 1
        invariant progressLines == SlotMap(i - 1)
        invariant totalVideos == old(totalVideos) && pendingUrls == old(pendingUrls)
        invariant stopRequested == old(stopRequested)
      {
        progressLines := progressLines[i := i - 1];
        i := i + 1;
      }
      text := Join(placeholders);
    }

    /** `_update_progress(idx, text)`, the receiver of `progress_signal`
        (`ProgressLog.UpdateLines` says what it does to the lines). */
    method UpdateProgress(idx: int, t: string)
      modifies this
      ensures State() == Update(old(State()), idx, t)
      ensures totalVideos == old(totalVideos) && pendingUrls == old(pendingUrls)
      ensures stopRequested == old(stopRequested)
    {
      var lines := Split(text);
      if idx !in progressLines {
        return;
      }
      var lineIdx := progressLines[idx];
      if lineIdx >= |lines| {
        lines := lines + [t];
        progressLines := progressLines[idx := |lines| - 1];
      } else {
        lines := lines[lineIdx := t];
      }
      text := Join(lines);
    }

    /** `_descargar(url, idx)` with the library's work given as `run`: nothing
        at all once the stop flag is up; otherwise the hook's line for each
        `downloading` event, then the outcome line, all on slot idx. */
    method Descargar(idx: nat, run: Run)
      modifies this
      ensures State() == ApplyAll(old(State()), WorkerEmissions(idx, totalVideos, stopRequested, run))
      ensures totalVideos == old(totalVideos) && pendingUrls == old(pendingUrls)
      ensures stopRequested == old(stopRequested)
    {
      if stopRequested {
        return;
      }
      ghost var start := State();
      var k := 0;
      while k < |run.events|
        invariant 0 <= k <= |run.events|
        invariant totalVideos == old(totalVideos) && pendingUrls == old(pendingUrls)
        invariant stopRequested == old(stopRequested)
        invariant State() == ApplyAll(start, HookEmissions(idx, totalVideos, run.events[..k]))
      {
        ghost var before := HookEmissions(idx, totalVideos, run.events[..k]);
        assert run.events[..k + 1][..k] == run.events[..k];
        var line := HookLine(idx, totalVideos, run.events[k]);
        if line.Some? {
          UpdateProgress(idx, line.value);
          ApplyAllSnoc(start, before, Progress(idx, line.value));
        }
        k := k + 1;
      }
      assert run.events[..k] == run.events;
      ghost var hooks := HookEmissions(idx, totalVideos, run.events);
      var last := OutcomeLine(idx, totalVideos, run.outcome);
      UpdateProgress(idx, last);
      ApplyAllSnoc(start, hooks, Progress(idx, last));
    }

    /** `_start_downloads()`: nothing once the stop flag is up; otherwise the
        worker count is announced and every pending item is handed to
        `Descargar` with its index from 1. A stop click can be handled only
        while the announcement is being shown (`stopDuringNotice`): after
        that the window waits for the pool and handles no event. */
    method StartDownloads(spin: int, runs: seq<Run>, stopDuringNotice: bool) returns (workers: Option<nat>)
      requires 0 <= spin <= 10
      requires |runs| == |pendingUrls|
      modifies this
      ensures old(stopRequested) ==> workers == None && State() == old(State()) && stopRequested
      ensures !old(stopRequested) ==>
        && workers == Some(WorkerCount(spin))
        && stopRequested == stopDuringNotice
        && State() == ApplyAll(old(State()), StartEmissions(WorkerCount(spin), stopDuringNotice)
                                             + BatchEmissions(totalVideos, stopDuringNotice, runs))
      ensures totalVideos == old(totalVideos) && pendingUrls == old(pendingUrls)
    {
      if stopRequested {
        return None;
      }
      var w := WorkerCount(spin);
      ghost var start := State();
      AppendInfo(StartNotice(w));
      ApplyAllSnoc(start, [], Info(StartNotice(w)));
      if stopDuringNotice {
        StopDownloads();
        ApplyAllSnoc(start, [Info(StartNotice(w))], Info(StopNotice));
      }
      ghost var pre := StartEmissions(w, stopDuringNotice);
      assert State() == ApplyAll(start, pre);
      var idx := 1;
      while idx <= |pendingUrls|
        invariant 1 <= idx <= |pendingUrls| + 1
        invariant totalVideos == old(totalVideos) && pendingUrls == old(pendingUrls)
        invariant stopRequested == stopDuringNotice
        invariant State() == ApplyAll(start, pre + BatchEmissions(totalVideos, stopRequested, runs[..idx - 1]))
      {
        ghost var done := BatchEmissions(totalVideos, stopRequested, runs[..idx - 1]);
        ghost var mine := WorkerEmissions(idx, totalVideos, stopRequested, runs[idx - 1]);
        ghost var mid := State();
        Descargar(idx, runs[idx - 1]);
        assert State() == ApplyAll(mid, mine);
        BatchStep(totalVideos, stopRequested, runs, idx);
        ApplyAllAppend(start, pre + done, mine);
        ghost var after := pre + BatchEmissions(totalVideos, stopRequested, runs[..idx]);
        assert after == pre + (done + mine);
        ConcatAssoc(pre, done, mine);
        assert State() == ApplyAll(start, after);
        idx := idx + 1;
      }
      assert runs[..idx - 1] == runs;
      workers := Some(w);
    }

    /** `_prepare_and_start(urls)`: the batch is recorded, the stop flag is
        lowered, the placeholders are shown and the batch is announced. The
        start itself is left to the timer, that is, to a later call of
        `StartDownloads`. */
    method PrepareAndStart(urls: seq<string>)
      modifies this
      ensures pendingUrls == urls && totalVideos == |urls| && !stopRequested
      ensures State() == ApplyAll(Init(|urls|), [Info(PrepNotice(|urls|))])
    {
      pendingUrls := urls;
      totalVideos := |urls|;
      stopRequested := false;
      InitProgressLines(totalVideos);
      AppendInfo(PrepNotice(totalVideos));
      ApplyAllSnoc(Init(|urls|), [], Info(PrepNotice(|urls|)));
    }

    /** `detener_descarga_manual()`: raises the flag and says so. */
    method StopDownloads()
      modifies this
      ensures stopRequested
      ensures State() == ProgressLog.AppendInfo(old(State()), StopNotice)
      ensures totalVideos == old(totalVideos) && pendingUrls == old(pendingUrls)
    {
      stopRequested := true;
      AppendInfo(StopNotice);
    }

    /** `descargar_video()` with the input field's text: a blank link only
        draws a warning; any other link, stripped, becomes a batch of one. */
    method DownloadVideo(input: string)
      modifies this
      ensures AllSpace(input) ==>
        && State() == ProgressLog.AppendInfo(old(State()), BlankLinkWarning)
        && pendingUrls == old(pendingUrls) && totalVideos == old(totalVideos)
        && stopRequested == old(stopRequested)
      ensures !AllSpace(input) ==>
        && pendingUrls == [Strip(input)] && totalVideos == 1 && !stopRequested
        && State() == ApplyAll(Init(1), [Info(PrepNotice(1))])
    {
      var url := PastedLink(input);
      if url.None? {
        AppendInfo(BlankLinkWarning);
        return;
      }
      PrepareAndStart([url.value]);
    }

    /** `cargar_archivo_txt()` with the dialog's and the read's result:
        nothing if no file was chosen; the error if the read failed; a
        warning if no line holds a link; otherwise the file's links become
        the batch. */
    method LoadTextFile(choice: FileChoice)
      modifies this
      ensures choice.Cancelled? ==> State() == old(State()) && pendingUrls == old(pendingUrls)
      ensures choice.ReadFailed? ==>
        && State() == ProgressLog.AppendInfo(old(State()), ReadErrorNotice(choice.error))
        && pendingUrls == old(pendingUrls)
      ensures choice.Read? && NormaliseLinks(choice.lines) == [] ==>
        && State() == ProgressLog.AppendInfo(old(State()), EmptyFileWarning)
        && pendingUrls == old(pendingUrls)
      ensures choice.Read? && NormaliseLinks(choice.lines) != [] ==>
        var urls := NormaliseLinks(choice.lines);
        && pendingUrls == urls && totalVideos == |urls| && !stopRequested
        && State() == ApplyAll(Init(|urls|), [Info(PrepNotice(|urls|))])
      ensures !choice.Read? || NormaliseLinks(choice.lines) == [] ==>
        totalVideos == old(totalVideos) && stopRequested == old(stopRequested)
    {
      match choice {
        case Cancelled =>
        case ReadFailed(e) =>
          AppendInfo(ReadErrorNotice(e));
        case Read(lines) =>
          var urls := NormaliseLinks(lines);
          if urls == [] {
            AppendInfo(EmptyFileWarning);
            return;
          }
          PrepareAndStart(urls);
      }
    }

    /** A whole batch as the event loop runs it: the batch is prepared, the
        user may click stop before the timer fires (`stopBeforeStart`) or
        while the start is announced (`stopDuringNotice`), then the timer
        starts the downloads. Afterwards every slot still names its own
        item's line, which shows that item's outcome, or its placeholder
        when the batch was stopped. */
    method DownloadBatch(urls: seq<string>, spin: int, runs: seq<Run>,
                         stopBeforeStart: bool, stopDuringNotice: bool)
      returns (workers: Option<nat>)
      requires |urls| >= 1 && |runs| == |urls|
      requires 0 <= spin <= 10
      requires forall k :: 0 <= k < |runs| ==> RunNoBreak(runs[k])
      modifies this
      ensures workers == if stopBeforeStart then None else Some(WorkerCount(spin))
      ensures pendingUrls == urls && totalVideos == |urls|
      ensures stopRequested == (stopBeforeStart || stopDuringNotice)
      ensures State() == ApplyAll(Init(|urls|), BatchRun(|urls|, WorkerCount(spin), runs, stopBeforeStart, stopDuringNotice))
      ensures progressLines == SlotMap(|urls|)
      ensures |Lines(State())| >= |urls|
      ensures forall k :: 0 <= k < |urls| ==>
        Lines(State())[k] ==
          if stopBeforeStart || stopDuringNotice then Placeholder(k + 1, |urls|)
          else OutcomeLine(k + 1, |urls|, runs[k].outcome)
    {
      var n := |urls|;
      PrepareAndStart(urls);
      ghost var pre := [Info(PrepNotice(n))];
      if stopBeforeStart {
        StopDownloads();
        ApplyAllSnoc(Init(n), pre, Info(StopNotice));
        pre := pre + [Info(StopNotice)];
      }
      workers := StartDownloads(spin, runs, stopDuringNotice);
      if !stopBeforeStart {
        ghost var started := StartEmissions(WorkerCount(spin), stopDuringNotice);
        ghost var batch := BatchEmissions(n, stopDuringNotice, runs);
        ApplyAllRegroup(Init(n), pre, started, batch);
        assert (pre + started) + batch == BatchRun(n, WorkerCount(spin), runs, false, stopDuringNotice);
      }
      BatchRunLines(n, WorkerCount(spin), runs, stopBeforeStart, stopDuringNotice);
    }
  }

  /** Everything a batch of n items emits, in order: the preparation notice;
      then either the stop message, when stop was clicked before the timer
      fired, or what `_start_downloads` announces and the workers emit. */
  function BatchRun(n: nat, w: nat, runs: seq<Run>, stopBeforeStart: bool, stopDuringNotice: bool): (es: seq<Emission>)
    ensures |es| >= 2 && es[0] == Info(PrepNotice(n))
    ensures stopBeforeStart ==> es == [Info(PrepNotice(n)), Info(StopNotice)]
    ensures !stopBeforeStart ==> es[1] == Info(StartNotice(w))
  {
    [Info(PrepNotice(n))]
      + if stopBeforeStart then [Info(StopNotice)]
        else StartEmissions(w, stopDuringNotice) + BatchEmissions(n, stopDuringNotice, runs)
  }

  /** After a whole batch, every slot still names its own item's line, which
      shows that item's outcome, or its placeholder when stop was clicked
      before or during the start. */
  lemma BatchRunLines(n: nat, w: nat, runs: seq<Run>, stopBeforeStart: bool, stopDuringNotice: bool)
    requires n == |runs| >= 1
    requires forall k :: 0 <= k < |runs| ==> RunNoBreak(runs[k])
    ensures var log := ApplyAll(Init(n), BatchRun(n, w, runs, stopBeforeStart, stopDuringNotice));
      && log.slots == SlotMap(n)
      && |Lines(log)| >= n
      && forall k :: 0 <= k < n ==>
           Lines(log)[k] ==
             if stopBeforeStart || stopDuringNotice then Placeholder(k + 1, n)
             else OutcomeLine(k + 1, n, runs[k].outcome)
  {
    var stopped := stopBeforeStart || stopDuringNotice;
    var pre := [Info(PrepNotice(n))] + if stopBeforeStart then [Info(StopNotice)] else StartEmissions(w, stopDuringNotice);
    if stopBeforeStart {
      BatchSilent(n, runs);
      assert pre + BatchEmissions(n, stopped, runs) == pre;
    } else {
      assert pre + BatchEmissions(n, stopped, runs) == BatchRun(n, w, runs, stopBeforeStart, stopDuringNotice);
    }
    assert forall e :: e in pre ==> e.Info?;
    BatchFinalLines(n, pre, stopped, runs);
  }

  /** The announcements `_start_downloads` makes before the pool starts: the
      worker count, then the stop message if stop was clicked meanwhile. */
  function StartEmissions(w: nat, stopDuringNotice: bool): (es: seq<Emission>)
    ensures |es| == if stopDuringNotice then 2 else 1
    ensures forall e :: e in es ==> e.Info?
    ensures es[0] == Info(StartNotice(w))
  {
    [Info(StartNotice(w))] + (if stopDuringNotice then [Info(StopNotice)] else [])
  }

  /** Emissions applied in two goes are the same emissions applied at once,
      however the runs are grouped. */
  lemma ApplyAllRegroup(log: ProgressLog.Log, a: seq<Emission>, b: seq<Emission>, c: seq<Emission>)
    ensures ApplyAll(ApplyAll(log, a), b + c) == ApplyAll(log, (a + b) + c)
  {
    ApplyAllAppend(log, a, b + c);
    assert a + (b + c) == (a + b) + c;
  }
}
