/** `DownloadThread`: the worker that walks the handle list, fetches each
    handle's page, hands the payload to `download_media` and reports progress.

    The three Qt signals (`update_progress`, `update_log`, `download_complete`)
    become one ordered stream of `Event`s, so that the order in which they are
    emitted is part of the model.  The page and media requests are the
    functions `fetchPage` and `fetch`. */
module Pipeline {
  import opened Inputs
  import opened Text
  import opened Media

  const NoConnectionLine := "Oh Snap! No connection with Snap!"

  datatype Event = Progress(percent: int) | Log(line: string) | Complete

  /** The value emitted after the handle at index idx of n: `(idx + 1) * 100 // n`. */
  function ProgressValue(idx: nat, n: nat): int
    requires idx < n
  {
    (idx + 1) * 100 / n
  }

  /** The progress values a run over n handles emits, in order. */
  function ProgressSeq(n: nat): seq<int>
  {
    seq(n, i requires 0 <= i < n => ProgressValue(i, n))
  }

  /** Log lines as `update_log` emissions. */
  function Logs(lines: seq<string>): (evs: seq<Event>)
    ensures |evs| == |lines| && forall i :: 0 <= i < |lines| ==> evs[i] == Log(lines[i])
  {
    if lines == [] then [] else [Log(lines[0])] + Logs(lines[1..])
  }

  /** The values of the `update_progress` emissions among evs, in order. */
  function Percents(evs: seq<Event>): seq<int>
  {
    if evs == [] then []
    else (if evs[0].Progress? then [evs[0].percent] else []) + Percents(evs[1..])
  }

  /** The number of `download_complete` emissions among evs. */
  function Completions(evs: seq<Event>): nat
  {
    if evs == [] then 0
    else (if evs[0].Complete? then 1 else 0) + Completions(evs[1..])
  }

  /** No emitted log line reports a download. */
  predicate NoDownloadEvents(evs: seq<Event>)
  {
    forall i :: 0 <= i < |evs| && evs[i].Log? ==> !IsDownloadedLine(evs[i].line)
  }

  datatype Stage = Stage(dir: Directory, events: seq<Event>)

  /** One iteration of `run`'s loop: `get_json`, `download_media` when the
      payload is a non-empty dictionary, then the progress value. */
  function HandleStage(dir: Directory, page: Page, fetch: string -> Response, idx: nat, n: nat): Stage
    requires idx < n
  {
    var media :=
      match page
      case NotOk => Stage(dir, [Log(NoConnectionLine)])
      case Ok(tree) =>
        if NonEmpty(tree) then
          var m := MediaOutcome(dir, tree, fetch);
          Stage(m.dir, Logs(m.lines))
        else Stage(dir, []);
    Stage(media.dir, media.events + [Progress(ProgressValue(idx, n))])
  }

  /** The loop of `run` over the first |handles| of n handles. */
  function Pass(dir: Directory, handles: seq<string>, n: nat, fetchPage: string -> Page, fetch: string -> Response): Stage
    requires |handles| <= n
    decreases |handles|
  {
    if handles == [] then Stage(dir, [])
    else
      var s := Pass(dir, handles[..|handles| - 1], n, fetchPage, fetch);
      var h := HandleStage(s.dir, fetchPage(handles[|handles| - 1]), fetch, |handles| - 1, n);
      Stage(h.dir, s.events + h.events)
  }

  /** `run`: the loop over all handles, then the completion signal. */
  function RunStage(dir: Directory, handles: seq<string>, fetchPage: string -> Page, fetch: string -> Response): Stage
  {
    var s := Pass(dir, handles, |handles|, fetchPage, fetch);
    Stage(s.dir, s.events + [Complete])
  }

  /** The names a run over handles saves: those of every non-empty payload. */
  function SavedByRun(handles: seq<string>, fetchPage: string -> Page, fetch: string -> Response): set<string>
    decreases |handles|
  {
    if handles == [] then {}
    else
      var page := fetchPage(handles[|handles| - 1]);
      SavedByRun(handles[..|handles| - 1], fetchPage, fetch)
      + if page.Ok? && NonEmpty(page.tree) then SavedFrom(page.tree, fetch) else {}
  }

  class DownloadThread {
    const userslist: seq<string>
    /** The output directory the thread works in. */
    var directory: Directory
    /** Everything the thread has emitted, in order. */
    var events: seq<Event>

    constructor (userslist: seq<string>, directory: Directory)
      ensures this.userslist == userslist && this.directory == directory && events == []
    {
      this.userslist := userslist;
      this.directory := directory;
      events := [];
    }

    /** `get_json`: a page that is not ok logs the no-connection line and yields nothing. */
    method GetJson(username: string, fetchPage: string -> Page) returns (json: Option<Tree>)
      modifies this
      ensures directory == old(directory)
      ensures fetchPage(username).NotOk? ==> json == None && events == old(events) + [Log(NoConnectionLine)]
      ensures fetchPage(username).Ok? ==> json == Some(fetchPage(username).tree) && events == old(events)
    {
      var r := fetchPage(username);
      if r.NotOk? {
        events := events + [Log(NoConnectionLine)];
        return None;
      }
      json := Some(r.tree);
    }

    /** `download_media`: the loop over "snapList" inside its `try`. */
    method DownloadMedia(tree: Tree, fetch: string -> Response)
      modifies this
      ensures directory == MediaOutcome(old(directory), tree, fetch).dir
      ensures events == old(events) + Logs(MediaOutcome(old(directory), tree, fetch).lines)
    {
      var snapList := SnapList(tree);
      if snapList.None? {
        events := events + [Log(NoStoriesLine)];
        return;
      }
      var recs := snapList.value;
      ghost var dir0, events0 := directory, events;
      var keyError := false;
      var k := 0;
      while k < |recs| && !keyError
        invariant 0 <= k <= |recs|
        invariant var w := Walk(dir0, recs[..k], fetch);
                  keyError == w.halted && directory == w.dir && events == events0 + Logs(w.lines)
      {
        assert recs[..k + 1] == recs[..k] + [recs[k]];
        ghost var w := Walk(dir0, recs[..k], fetch);
        ghost var step := Apply(w.dir, PlanOf(recs[k], fetch));
        keyError := DownloadRecord(recs[k], fetch);
        WalkSnoc(dir0, recs[..k], recs[k], fetch);
        if !keyError {
          LogsAppend(w.lines, step.lines);
          ConcatAssoc(events0, Logs(w.lines), Logs(step.lines));
        }
        k := k + 1;
      }
      if keyError {
        HaltedStays(dir0, recs, k, fetch);
        var lines := Walk(dir0, recs, fetch).lines;
        LogsAppend(lines, [NoStoriesLine]);
        ConcatAssoc(events0, Logs(lines), [Log(NoStoriesLine)]);
        events := events + [Log(NoStoriesLine)];
      } else {
        assert recs[..k] == recs;
      }
    }

    /** One pass of `download_media`'s loop body; `keyError` reports the `KeyError` that ends the loop. */
    method DownloadRecord(rec: Record, fetch: string -> Response) returns (keyError: bool)
      modifies this
      ensures var step := Apply(old(directory), PlanOf(rec, fetch));
              keyError == step.Halt?
              && (keyError ==> directory == old(directory) && events == old(events))
              && (!keyError ==> directory == step.dir && events == old(events) + Logs(step.lines))
    {
      keyError := false;
      if rec.snapUrls.None? {
        return true;
      }
      var mediaUrl := rec.snapUrls.value.mediaUrl;
      if mediaUrl.None? {
        return true;
      }
      var fileUrl := mediaUrl.value;
      if !HasUrl(fileUrl) {
        events := events + [Log(NoUrlLine)];
        return;
      }
      var r := fetch(fileUrl.text);
      if r.contentType.None? {
        return true;
      }
      var name: string;
      if Contains(r.contentType.value, "image") {
        if r.etag.None? {
          return true;
        }
        name := FileName(r.etag.value, Jpeg);
      } else if Contains(r.contentType.value, "video") {
        if r.etag.None? {
          return true;
        }
        name := FileName(r.etag.value, Mp4);
      } else {
        return;
      }
      if name in directory {
        return;
      }
      if r.status == 200 {
        directory := directory[name := r.body];
        events := events + [Log(DownloadedLine(name))];
      } else {
        events := events + [Log(CannotDownloadLine)];
      }
    }

    /** `run`: every handle in order, one progress value after each, then the completion signal. */
    method Run(fetchPage: string -> Page, fetch: string -> Response)
      modifies this
      ensures directory == RunStage(old(directory), userslist, fetchPage, fetch).dir
      ensures events == old(events) + RunStage(old(directory), userslist, fetchPage, fetch).events
    {
      ghost var dir0, events0 := directory, events;
      var n := |userslist|;
      for idx := 0 to n
        invariant directory == Pass(dir0, userslist[..idx], n, fetchPage, fetch).dir
        invariant events == events0 + Pass(dir0, userslist[..idx], n, fetchPage, fetch).events
      {
        ghost var s := Pass(dir0, userslist[..idx], n, fetchPage, fetch);
        ghost var h := HandleStage(s.dir, fetchPage(userslist[idx]), fetch, idx, n);
        PassSnoc(dir0, userslist, idx, n, fetchPage, fetch);
        VisitHandle(idx, fetchPage, fetch);
        ConcatAssoc(events0, s.events, h.events);
      }
      assert userslist[..n] == userslist;
      ghost var fin := Pass(dir0, userslist, n, fetchPage, fetch);
      events := events + [Complete];
      ConcatAssoc(events0, fin.events, [Complete]);
    }

    /** One pass of `run`'s loop body: the handle at index idx, then its progress value. */
    method VisitHandle(idx: nat, fetchPage: string -> Page, fetch: string -> Response)
      requires idx < |userslist|
      modifies this
      ensures var h := HandleStage(old(directory), fetchPage(userslist[idx]), fetch, idx, |userslist|);
              directory == h.dir && events == old(events) + h.events
    {
      var username := userslist[idx];
      var jsonDict := GetJson(username, fetchPage);
      if jsonDict.Some? && NonEmpty(jsonDict.value) {
        DownloadMedia(jsonDict.value, fetch);
      }
      events := events + [Progress((idx + 1) * 100 / |userslist|)];
    }
  }

  lemma ConcatAssoc<T>(a: seq<T>, b: seq<T>, c: seq<T>)
    ensures a + (b + c) == (a + b) + c
  {
  }

  /** The loop over one more handle: that handle's stage follows the earlier ones. */
  lemma PassSnoc(dir: Directory, handles: seq<string>, idx: nat, n: nat, fetchPage: string -> Page, fetch: string -> Response)
    requires idx < |handles| <= n
    ensures var s := Pass(dir, handles[..idx], n, fetchPage, fetch);
            var h := HandleStage(s.dir, fetchPage(handles[idx]), fetch, idx, n);
            Pass(dir, handles[..idx + 1], n, fetchPage, fetch) == Stage(h.dir, s.events + h.events)
  {
    assert handles[..idx + 1][..idx] == handles[..idx];
  }

  // ---------------------------------------------------------------------------
  // The event stream

  lemma LogsAppend(a: seq<string>, b: seq<string>)
    ensures Logs(a + b) == Logs(a) + Logs(b)
  {
  }

  lemma {:induction false} PercentsAppend(a: seq<Event>, b: seq<Event>)
    ensures Percents(a + b) == Percents(a) + Percents(b)
    decreases |a|
  {
    if a == [] {
      assert a + b == b;
    } else {
      assert (a + b)[0] == a[0];
      assert (a + b)[1..] == a[1..] + b;
      PercentsAppend(a[1..], b);
    }
  }

  lemma {:induction false} CompletionsAppend(a: seq<Event>, b: seq<Event>)
    ensures Completions(a + b) == Completions(a) + Completions(b)
    decreases |a|
  {
    if a == [] {
      assert a + b == b;
    } else {
      assert (a + b)[0] == a[0];
      assert (a + b)[1..] == a[1..] + b;
      CompletionsAppend(a[1..], b);
    }
  }

  /** Log emissions carry no progress value and no completion. */
  lemma {:induction false} LogsArePlain(lines: seq<string>)
    ensures Percents(Logs(lines)) == [] && Completions(Logs(lines)) == 0
    decreases |lines|
  {
    if lines != [] {
      LogsArePlain(lines[1..]);
    }
  }

  /** The events one handle contributes hold exactly one progress value and no completion. */
  lemma HandleProgress(dir: Directory, page: Page, fetch: string -> Response, idx: nat, n: nat)
    requires idx < n
    ensures Percents(HandleStage(dir, page, fetch, idx, n).events) == [ProgressValue(idx, n)]
    ensures Completions(HandleStage(dir, page, fetch, idx, n).events) == 0
  {
    var media :=
      match page
      case NotOk => Stage(dir, [Log(NoConnectionLine)])
      case Ok(tree) =>
        if NonEmpty(tree) then Stage(MediaOutcome(dir, tree, fetch).dir, Logs(MediaOutcome(dir, tree, fetch).lines))
        else Stage(dir, []);
    assert [Log(NoConnectionLine)] == Logs([NoConnectionLine]);
    match page
    case NotOk => LogsArePlain([NoConnectionLine]);
    case Ok(tree) => LogsArePlain(MediaOutcome(dir, tree, fetch).lines);
    PercentsAppend(media.events, [Progress(ProgressValue(idx, n))]);
    CompletionsAppend(media.events, [Progress(ProgressValue(idx, n))]);
  }

  /** The loop emits the i-th progress value after the i-th handle and no completion. */
  lemma {:induction false} PassProgress(dir: Directory, handles: seq<string>, n: nat, fetchPage: string -> Page, fetch: string -> Response)
    requires |handles| <= n
    ensures Percents(Pass(dir, handles, n, fetchPage, fetch).events) == ProgressSeq(n)[..|handles|]
    ensures Completions(Pass(dir, handles, n, fetchPage, fetch).events) == 0
    decreases |handles|
  {
    if handles != [] {
      var k := |handles| - 1;
      var s := Pass(dir, handles[..k], n, fetchPage, fetch);
      PassProgress(dir, handles[..k], n, fetchPage, fetch);
      var h := HandleStage(s.dir, fetchPage(handles[k]), fetch, k, n);
      HandleProgress(s.dir, fetchPage(handles[k]), fetch, k, n);
      PercentsAppend(s.events, h.events);
      CompletionsAppend(s.events, h.events);
      assert ProgressSeq(n)[..k + 1] == ProgressSeq(n)[..k] + [ProgressValue(k, n)];
    }
  }

  lemma {:induction false} MulMonotone(n: int, x: int, y: int)
    requires 0 < n && x <= y
    ensures n * x <= n * y
    decreases y - x
  {
    if x < y {
      MulMonotone(n, x, y - 1);
      assert n * y == n * (y - 1) + n;
    }
  }

  lemma DivMonotone(a: int, b: int, n: int)
    requires 0 <= a <= b && 0 < n
    ensures a / n <= b / n
  {
    var qa, qb := a / n, b / n;
    if qb < qa {
      MulMonotone(n, qb + 1, qa);
    }
  }

  /** Progress values never decrease, lie in 0..100, and the last one is 100. */
  lemma ProgressShape(n: nat)
    requires 1 <= n
    ensures |ProgressSeq(n)| == n && ProgressSeq(n)[n - 1] == 100
    ensures forall i :: 0 <= i < n ==> 0 <= ProgressSeq(n)[i] <= 100
    ensures forall i, j :: 0 <= i <= j < n ==> ProgressSeq(n)[i] <= ProgressSeq(n)[j]
  {
    ProgressLast(n);
    forall i, j | 0 <= i <= j < n ensures ProgressSeq(n)[i] <= ProgressSeq(n)[j] {
      ProgressOrdered(i, j, n);
    }
    forall i | 0 <= i < n ensures 0 <= ProgressSeq(n)[i] <= 100 {
      ProgressInRange(i, n);
    }
  }

  lemma ProgressLast(n: nat)
    requires 1 <= n
    ensures ProgressValue(n - 1, n) == 100
  {
    assert n * 100 / n == 100;
  }

  lemma ProgressInRange(i: nat, n: nat)
    requires i < n
    ensures 0 <= ProgressValue(i, n) <= 100
  {
    DivMonotone((i + 1) * 100, n * 100, n);
    ProgressLast(n);
  }

  lemma ProgressOrdered(i: nat, j: nat, n: nat)
    requires i <= j < n
    ensures ProgressValue(i, n) <= ProgressValue(j, n)
  {
    DivMonotone((i + 1) * 100, (j + 1) * 100, n);
  }

  /** For n >= 1 handles, `run` emits exactly n progress values, the i-th being
      `(i + 1) * 100 // n`, and one completion signal, which directly follows the final value 100. */
  lemma RunProgress(dir: Directory, handles: seq<string>, fetchPage: string -> Page, fetch: string -> Response)
    requires 1 <= |handles|
    ensures var evs := RunStage(dir, handles, fetchPage, fetch).events;
            Percents(evs) == ProgressSeq(|handles|) && Completions(evs) == 1
            && 2 <= |evs| && evs[|evs| - 1] == Complete && evs[|evs| - 2] == Progress(100)
  {
    var n := |handles|;
    var s := Pass(dir, handles, n, fetchPage, fetch);
    PassProgress(dir, handles, n, fetchPage, fetch);
    PercentsAppend(s.events, [Complete]);
    CompletionsAppend(s.events, [Complete]);
    assert ProgressSeq(n)[..n] == ProgressSeq(n);
    ProgressShape(n);
    var init := Pass(dir, handles[..n - 1], n, fetchPage, fetch);
    var h := HandleStage(init.dir, fetchPage(handles[n - 1]), fetch, n - 1, n);
    assert s.events == init.events + h.events;
  }

  /** The events of the first j handles come first: a later handle never emits
      before an earlier one has finished. */
  lemma {:induction false} PassPrefix(dir: Directory, handles: seq<string>, j: nat, n: nat, fetchPage: string -> Page, fetch: string -> Response)
    requires j <= |handles| <= n
    ensures var before := Pass(dir, handles[..j], n, fetchPage, fetch).events;
            before <= Pass(dir, handles, n, fetchPage, fetch).events
    decreases |handles|
  {
    if j < |handles| {
      var k := |handles| - 1;
      assert handles[..k][..j] == handles[..j];
      PassPrefix(dir, handles[..k], j, n, fetchPage, fetch);
    } else {
      assert handles[..j] == handles;
    }
  }

  /** A page that is not ok logs exactly the no-connection line, skips
      `download_media` and still emits that handle's progress value. */
  lemma NotOkHandle(dir: Directory, handles: seq<string>, k: nat, fetchPage: string -> Page, fetch: string -> Response)
    requires k < |handles| && fetchPage(handles[k]).NotOk?
    ensures var n := |handles|;
            var before := Pass(dir, handles[..k], n, fetchPage, fetch);
            Pass(dir, handles[..k + 1], n, fetchPage, fetch)
              == Stage(before.dir, before.events + [Log(NoConnectionLine), Progress(ProgressValue(k, n))])
  {
    assert handles[..k + 1][..k] == handles[..k];
  }

  /** An empty payload skips `download_media`: only the progress value is emitted. */
  lemma EmptyPayloadHandle(dir: Directory, handles: seq<string>, k: nat, fetchPage: string -> Page, fetch: string -> Response)
    requires k < |handles| && fetchPage(handles[k]).Ok? && !NonEmpty(fetchPage(handles[k]).tree)
    ensures var n := |handles|;
            var before := Pass(dir, handles[..k], n, fetchPage, fetch);
            Pass(dir, handles[..k + 1], n, fetchPage, fetch)
              == Stage(before.dir, before.events + [Progress(ProgressValue(k, n))])
  {
    assert handles[..k + 1][..k] == handles[..k];
  }

  // ---------------------------------------------------------------------------
  // The directory across a run

  /** A run never rewrites a file and leaves the directory holding what it held plus the saved names. */
  lemma {:induction false} PassGrows(dir: Directory, handles: seq<string>, n: nat, fetchPage: string -> Page, fetch: string -> Response)
    requires |handles| <= n
    ensures var d := Pass(dir, handles, n, fetchPage, fetch).dir;
            d.Keys == dir.Keys + SavedByRun(handles, fetchPage, fetch)
            && forall name :: name in dir ==> d[name] == dir[name]
    decreases |handles|
  {
    if handles != [] {
      var k := |handles| - 1;
      var s := Pass(dir, handles[..k], n, fetchPage, fetch);
      PassGrows(dir, handles[..k], n, fetchPage, fetch);
      var page := fetchPage(handles[k]);
      if page.Ok? && NonEmpty(page.tree) {
        MediaGrows(s.dir, page.tree, fetch);
      }
    }
  }

  /** When every name a run saves is already present, the run changes no file
      and logs no download. */
  lemma {:induction false} PassSettled(dir: Directory, handles: seq<string>, n: nat, fetchPage: string -> Page, fetch: string -> Response)
    requires |handles| <= n && SavedByRun(handles, fetchPage, fetch) <= dir.Keys
    ensures Pass(dir, handles, n, fetchPage, fetch).dir == dir
    ensures NoDownloadEvents(Pass(dir, handles, n, fetchPage, fetch).events)
    decreases |handles|
  {
    if handles != [] {
      var k := |handles| - 1;
      var s := Pass(dir, handles[..k], n, fetchPage, fetch);
      PassSettled(dir, handles[..k], n, fetchPage, fetch);
      var page := fetchPage(handles[k]);
      var h := HandleStage(s.dir, page, fetch, k, n);
      if page.Ok? && NonEmpty(page.tree) {
        MediaSettled(s.dir, page.tree, fetch);
      }
      assert NoDownloadEvents(h.events) by {
        LogLinesAreNotDownloads();
        assert NoConnectionLine[0] == 'O' && DownloadedPrefix[0] == 'D';
      }
      assert forall i :: 0 <= i < |h.events| ==> (s.events + h.events)[|s.events| + i] == h.events[i];
    }
  }

  /** Re-running the pipeline on the same handles and the same responses adds
      no file, changes no file and logs no download. */
  lemma RunIdempotent(dir: Directory, handles: seq<string>, fetchPage: string -> Page, fetch: string -> Response)
    ensures var first := RunStage(dir, handles, fetchPage, fetch);
            var second := RunStage(first.dir, handles, fetchPage, fetch);
            second.dir == first.dir && NoDownloadEvents(second.events)
  {
    var n := |handles|;
    PassGrows(dir, handles, n, fetchPage, fetch);
    var first := RunStage(dir, handles, fetchPage, fetch);
    PassSettled(first.dir, handles, n, fetchPage, fetch);
  }

  /** A payload whose "snapList" holds the one record with media URL url. */
  function OneRecordTree(url: string): Tree
  {
    Tree(Some(Props(Some(PageProps(Some(Story(Some([Record(Some(SnapUrls(Some(Str(url)))))]))))))), 0)
  }

  /** An image record whose ETag is `"e1"` and whose request succeeds is saved as `e1.jpeg`. */
  lemma ImageRecordOutcome(fetch: string -> Response, body: Bytes)
    requires fetch("u") == Response(200, Some("image/jpeg"), Some("\"e1\""), body)
    ensures MediaOutcome(map[], OneRecordTree("u"), fetch) == Outcome(map["e1.jpeg" := body], ["Downloaded e1.jpeg"])
  {
    var rec := Record(Some(SnapUrls(Some(Str("u")))));
    ImageRecordPlan(fetch, body);
    assert [rec][..0] == [];
    assert Walk(map[], [], fetch) == Walked(map[], [], false);
    assert DownloadedLine("e1.jpeg") == "Downloaded e1.jpeg";
    assert Apply(map[], PlanOf(rec, fetch)) == Go(map["e1.jpeg" := body], ["Downloaded e1.jpeg"]);
    assert Walk(map[], [rec], fetch) == Walked(map["e1.jpeg" := body], ["Downloaded e1.jpeg"], false);
  }

  /** The record of the scenario below targets `e1.jpeg`. */
  lemma ImageRecordPlan(fetch: string -> Response, body: Bytes)
    requires fetch("u") == Response(200, Some("image/jpeg"), Some("\"e1\""), body)
    ensures PlanOf(Record(Some(SnapUrls(Some(Str("u"))))), fetch) == Target("e1.jpeg", 200, body)
  {
    assert Classify("image/jpeg") == Some(Jpeg) by {
      assert OccursAt("image/jpeg", "image", 0);
    }
    assert Unquote("\"e1\"") == "e1" by {
      assert "\"e1\""[1..] == "e1\"" && "e1\""[1..] == "1\"" && "1\""[1..] == "\"";
      assert "\""[1..] == [];
    }
    assert "e1" + Suffix(Jpeg) == "e1.jpeg";
  }

  /** The second handle of the scenario below: its one image is saved and 100 is emitted. */
  lemma ImageHandleStage(fetch: string -> Response, body: Bytes)
    requires fetch("u") == Response(200, Some("image/jpeg"), Some("\"e1\""), body)
    ensures HandleStage(map[], Ok(OneRecordTree("u")), fetch, 1, 2)
              == Stage(map["e1.jpeg" := body], [Log("Downloaded e1.jpeg"), Progress(100)])
  {
    ImageRecordOutcome(fetch, body);
    assert ProgressValue(1, 2) == 100;
    assert Logs(["Downloaded e1.jpeg"]) == [Log("Downloaded e1.jpeg")];
  }

  /** The first handle of the scenario below: its page is not ok, so 50 follows the no-connection line. */
  lemma NotOkHandleStage(fetchPage: string -> Page, fetch: string -> Response)
    requires fetchPage("alice") == NotOk
    ensures Pass(map[], ["alice", "bob"][..1], 2, fetchPage, fetch) == Stage(map[], [Log(NoConnectionLine), Progress(50)])
  {
    var handles := ["alice", "bob"];
    assert handles[..0] == [] && handles[0] == "alice";
    PassSnoc(map[], handles, 0, 2, fetchPage, fetch);
    assert ProgressValue(0, 2) == 50;
    assert HandleStage(map[], NotOk, fetch, 0, 2).events == [Log(NoConnectionLine), Progress(50)];
  }

  /** Two handles: the first page is not ok, the second holds one image whose
      ETag is `"e1"`; the run logs the failure, saves `e1.jpeg`, emits
      50 and 100 and completes. */
  lemma TwoHandleScenario(fetchPage: string -> Page, fetch: string -> Response, body: Bytes)
    requires fetchPage("alice") == NotOk && fetchPage("bob") == Ok(OneRecordTree("u"))
    requires fetch("u") == Response(200, Some("image/jpeg"), Some("\"e1\""), body)
    ensures RunStage(map[], ["alice", "bob"], fetchPage, fetch)
              == Stage(map["e1.jpeg" := body],
                       [Log(NoConnectionLine), Progress(50), Log("Downloaded e1.jpeg"), Progress(100), Complete])
  {
    var handles := ["alice", "bob"];
    NotOkHandleStage(fetchPage, fetch);
    ImageHandleStage(fetch, body);
    assert handles[..2] == handles && handles[1] == "bob";
    PassSnoc(map[], handles, 1, 2, fetchPage, fetch);
    assert [Log(NoConnectionLine), Progress(50)] + [Log("Downloaded e1.jpeg"), Progress(100)] + [Complete]
      == [Log(NoConnectionLine), Progress(50), Log("Downloaded e1.jpeg"), Progress(100), Complete];
  }
}
