/** The window of the sequential front end (yt_coninterfaz.py, class
    `DescargadorVideos`) as a class over its own state: the log panel's text,
    the progress cursor `ultima_linea_progreso` and the stop flag
    `detener_descarga`. Each method is proved against the functions of
    `LegacyLog`, whose lemmas say what the panel then shows. The library's
    work on each link is given as a `LegacyRun`. */
module Sequential {
  import opened Wrappers
  import opened PyStr
  import opened LogBuffer
  import opened Ansi
  import opened Engine
  import opened Links
  import opened LegacyLog

  const EmptyFileWarning: string :=
    "\U{26A0}\U{FE0F} El archivo est\U{E1} vac\U{ED}o o no tiene enlaces v\U{E1}lidos."
  const LinksHeading: string := "\U{1F4CB} Enlaces encontrados:"

  class DescargadorVideos {
    var text: string
    var cursor: Option<nat>
    var stopRequested: bool

    /** The panel and the cursor, as the value `LegacyLog` speaks of. */
    function State(): Panel
      reads this
    {
      Panel(text, cursor)
    }

    /** The cursor names an existing line whenever it is set. */
    predicate Valid()
      reads this
    {
      CursorValid(State())
    }

    /** The window as `__init__` leaves it: an empty panel, no cursor, the
        stop flag down. */
    constructor ()
      ensures Valid() && State() == Panel("", None) && !stopRequested
    {
      text := "";
      cursor := None;
      stopRequested := false;
    }

    /** `log(mensaje)`: the message is appended as a new paragraph. */
    method Log(msg: string)
      requires Valid()
      modifies this
      ensures Valid() && State() == LegacyLog.Log(old(State()), msg)
      ensures stopRequested == old(stopRequested)
    {
      var next := LegacyLog.Log(State(), msg);
      text := next.text;
    }

    /** `barra_progreso(d)`: a `downloading` event formats the message and
        writes it over the cursor's line, if the cursor is set; a `finished`
        event clears the cursor. */
    method ProgressHook(d: ProgressDict)
      requires Valid()
      modifies this
      ensures Valid() && State() == Hook(old(State()), d)
      ensures stopRequested == old(stopRequested)
    {
      if d.status == "downloading" {
        var percent := Field(d.percent, "0%");
        var speed := Field(d.speed, "N/A");
        var eta := Field(d.eta, "N/A");
        var message := StripSgr("Velocidad: " + (speed + " / Tiempo restante: " + eta + " / Progreso: " + percent));
        var lines := Split(text);
        if cursor.Some? {
          lines := lines[cursor.value - 1 := message];
          SplitJoinGrows(lines);
          text := Join(lines);
        }
      } else if d.status == "finished" {
        cursor := None;
      }
    }

    /** One turn of the loop of `procesar_descarga`, for item i of n: the
        cursor is cleared and the start logged; a link that cannot be read
        logs the failure; otherwise the header is written with the cursor on
        its blank last line, the hook sees each event in turn, and the
        outcome is logged. */
    method DownloadItem(i: nat, n: nat, url: string, item: Item)
      requires Valid()
      modifies this
      ensures Valid() && State() == ProcessItem(old(State()), i, n, url, item)
      ensures stopRequested == old(stopRequested)
    {
      cursor := None;
      Log(StartLine(i, n));
      match item {
        case ProbeFailed(f) =>
          Log(FailureNotice(f));
        case Probed(title, events, fetch) =>
          var lines := Split(text) + [HeaderTitle, " - " + url, " - " + GetOr(title, UntitledVideo), ""];
          SplitJoinGrows(lines);
          text := Join(lines);
          cursor := Some(|lines|);
          ghost var h := State();
          var k := 0;
          while k < |events|
            invariant 0 <= k <= |events|
            invariant Valid() && State() == HookAll(h, events[..k])
            invariant stopRequested == old(stopRequested)
          {
            assert events[..k + 1][..k] == events[..k];
            ProgressHook(events[k]);
            k := k + 1;
          }
          assert events[..k] == events;
          Log(FetchNotice(fetch));
      }
    }

    /** `procesar_descarga(urls)`: the flag is lowered, then each link is
        handled in turn; the flag is looked at before each one, and once it
        is up the stop message is logged and the loop ends. The user's click
        during item i + 1, given by `runs[i].userStops`, reaches the flag
        through `StopDownloads`. The whole loop is `LegacyLog.Drive`, which
        `LegacyLog.DriveAttempts` reduces to its outcome. */
    method ProcessDownloads(urls: seq<string>, runs: seq<LegacyRun>)
      requires Valid() && |runs| == |urls|
      modifies this
      ensures Valid()
      ensures State() == Finish(old(State()), urls, runs, Attempted(runs, 0))
      ensures stopRequested == StoppedAfter(runs, Attempted(runs, 0))
    {
      stopRequested := false;
      ghost var start := State();
      ghost var target := Drive(start, false, urls, runs, 0);
      var i := 0;
      while i < |urls|
        invariant i <= Attempted(runs, 0)
        invariant Valid()
        invariant stopRequested == StoppedAfter(runs, i)
        invariant Drive(State(), stopRequested, urls, runs, i) == target
      {
        DriveUnfold(State(), urls, runs, i);
        if stopRequested {
          Log(StopNotice);
          AttemptedAt(runs, i);
          break;
        }
        AttemptedStep(runs, i);
        DownloadItem(i + 1, |urls|, urls[i], runs[i].item);
        if runs[i].userStops {
          StopDownloads();
        }
        i := i + 1;
      }
      if i == |urls| {
        AttemptedAt(runs, i);
      }
      DriveAttempts(start, urls, runs);
    }

    /** `detener_descarga_manual()`: raises the flag; the loop sees it before
        its next item. */
    method StopDownloads()
      modifies this
      ensures stopRequested && State() == old(State())
    {
      stopRequested := true;
    }

    /** `descargar_video()` with the input field's text and the library's
        work on it: a blank link only draws a warning; any other link,
        stripped, is handled as a list of one, which always runs to its end. */
    method DownloadVideo(input: string, run: LegacyRun)
      requires Valid()
      modifies this
      ensures Valid()
      ensures Blank(input) ==>
        State() == LegacyLog.Log(old(State()), BlankLinkWarning) && stopRequested == old(stopRequested)
      ensures !Blank(input) ==>
        State() == ProcessItem(old(State()), 1, 1, Strip(input), run.item) && stopRequested == run.userStops
    {
      var url := PastedLink(input);
      if url.None? {
        Log(BlankLinkWarning);
        return;
      }
      ghost var p := State();
      ProcessDownloads([url.value], [run]);
      assert Attempted([run], 0) == 1;
      assert Items(p, [url.value], [run], 0) == p;
    }

    /** `cargar_archivo_txt()` with the dialog's and the read's result and
        the library's work on each link: nothing if no file was chosen; the
        error if the read failed; a warning if no line holds a link;
        otherwise the links are listed under a heading and handled. */
    method LoadTextFile(choice: FileChoice, runs: seq<LegacyRun>)
      requires Valid()
      requires choice.Read? ==> |runs| == |NormaliseLinks(choice.lines)|
      modifies this
      ensures Valid()
      ensures choice.Cancelled? ==> State() == old(State()) && stopRequested == old(stopRequested)
      ensures choice.ReadFailed? ==>
        State() == LegacyLog.Log(old(State()), ReadErrorNotice(choice.error))
        && stopRequested == old(stopRequested)
      ensures choice.Read? && NormaliseLinks(choice.lines) == [] ==>
        State() == LegacyLog.Log(old(State()), EmptyFileWarning) && stopRequested == old(stopRequested)
      ensures choice.Read? && NormaliseLinks(choice.lines) != [] ==>
        var urls := NormaliseLinks(choice.lines);
        var listed := ListLinks(LegacyLog.Log(old(State()), LinksHeading), urls);
        && State() == Finish(listed, urls, runs, Attempted(runs, 0))
        && stopRequested == StoppedAfter(runs, Attempted(runs, 0))
    {
      match choice {
        case Cancelled =>
        case ReadFailed(e) =>
          Log(ReadErrorNotice(e));
        case Read(raw) =>
          var urls := NormaliseLinks(raw);
          if urls == [] {
            Log(EmptyFileWarning);
            return;
          }
          Log(LinksHeading);
          ghost var heading := State();
          var k := 0;
          while k < |urls|
            invariant 0 <= k <= |urls|
            invariant Valid() && State() == ListLinks(heading, urls[..k])
          {
            assert urls[..k + 1][..k] == urls[..k];
            Log(" - " + urls[k]);
            k := k + 1;
          }
          assert urls[..k] == urls;
          ProcessDownloads(urls, runs);
      }
    }
  }
}
