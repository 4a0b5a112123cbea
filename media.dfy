/** The per-record rules of `DownloadThread.download_media`, stated as
    functions of the output directory, the record list and the network.

    A record first becomes a `Plan` (everything that is decided before the
    directory is consulted: the key lookups, the URL test, the Content-Type
    classification and the file name), then `Apply` decides what the plan does
    to the directory and the log.  `Walk` runs the records in order and stops
    at the first missing key, as the `try` around the loop does. */
module Media {
  import opened Inputs
  import opened Text

  // The two long lines are split to keep the proofs fast.
  const NoUrlLine := "There is a Story " + "but no URL is provided by Snapchat."
  const CannotDownloadLine := "[-] Cannot make " + "connection to download media!"
  const NoStoriesLine := "[-] No stories found for the last 24h.\n"
  const DownloadedPrefix := "Downloaded "

  /** The output directory: the name of each file in it and the bytes it holds. */
  type Directory = map<string, Bytes>

  datatype Extension = Jpeg | Mp4

  function Suffix(x: Extension): string
  {
    match x
    case Jpeg => ".jpeg"
    case Mp4 => ".mp4"
  }

  /** Content-Type classification: a type mentioning "image" is a `.jpeg`
      (tested first), else one mentioning "video" is an `.mp4`, else the record is skipped. */
  function Classify(contentType: string): (r: Option<Extension>)
    ensures r == Some(Jpeg) <==> exists i :: OccursAt(contentType, "image", i)
    ensures r == Some(Mp4) <==>
              (forall i :: !OccursAt(contentType, "image", i)) && exists i :: OccursAt(contentType, "video", i)
    ensures r == None <==>
              forall i :: !OccursAt(contentType, "image", i) && !OccursAt(contentType, "video", i)
  {
    if Contains(contentType, "image") then Some(Jpeg)
    else if Contains(contentType, "video") then Some(Mp4)
    else None
  }

  /** The file name formed from an ETag header value and an extension. */
  function FileName(etag: string, x: Extension): string
  {
    Unquote(etag) + Suffix(x)
  }

  function DownloadedLine(name: string): string
  {
    DownloadedPrefix + name
  }

  predicate IsDownloadedLine(line: string)
  {
    |DownloadedPrefix| <= |line| && line[..|DownloadedPrefix|] == DownloadedPrefix
  }

  /** No line of the log reports a download. */
  predicate NoDownloads(lines: seq<string>)
  {
    forall i :: 0 <= i < |lines| ==> !IsDownloadedLine(lines[i])
  }

  /** What a record leads to before the directory is consulted. */
  datatype Plan =
    | KeyMissing                                     // "snapUrls", "mediaUrl", Content-Type or ETag absent
    | NoUrl                                          // "mediaUrl" is null or empty
    | Unsupported                                    // Content-Type is neither image nor video
    | Target(name: string, status: int, body: Bytes) // a file name was formed

  /** The lookups of one loop iteration, in the order the loop performs them. */
  function PlanOf(rec: Record, fetch: string -> Response): Plan
  {
    match rec.snapUrls
    case None => KeyMissing
    case Some(urls) =>
      match urls.mediaUrl
      case None => KeyMissing
      case Some(url) =>
        if !HasUrl(url) then NoUrl
        else
          var r := fetch(url.text);
          match r.contentType
          case None => KeyMissing
          case Some(ct) =>
            match Classify(ct)
            case None => Unsupported
            case Some(x) =>
              match r.etag
              case None => KeyMissing
              case Some(tag) => Target(FileName(tag, x), r.status, r.body)
  }

  datatype Step = Halt | Go(dir: Directory, lines: seq<string>)

  /** What a plan does to the directory and which log lines it adds. */
  function Apply(dir: Directory, plan: Plan): Step
  {
    match plan
    case KeyMissing => Halt
    case NoUrl => Go(dir, [NoUrlLine])
    case Unsupported => Go(dir, [])
    case Target(name, status, body) =>
      if name in dir then Go(dir, [])
      else if status == 200 then Go(dir[name := body], [DownloadedLine(name)])
      else Go(dir, [CannotDownloadLine])
  }

  datatype Walked = Walked(dir: Directory, lines: seq<string>, halted: bool)

  /** The loop over the record list, up to and including the first missing key. */
  function Walk(dir: Directory, recs: seq<Record>, fetch: string -> Response): Walked
    decreases |recs|
  {
    if recs == [] then Walked(dir, [], false)
    else
      var w := Walk(dir, recs[..|recs| - 1], fetch);
      if w.halted then w
      else
        match Apply(w.dir, PlanOf(recs[|recs| - 1], fetch))
        case Halt => Walked(w.dir, w.lines, true)
        case Go(d, lines) => Walked(d, w.lines + lines, false)
  }

  datatype Outcome = Outcome(dir: Directory, lines: seq<string>)

  /** `download_media` on a decoded payload: a missing key on the path to
      "snapList", or in any record, adds the no-stories line and ends the loop. */
  function MediaOutcome(dir: Directory, tree: Tree, fetch: string -> Response): Outcome
  {
    match SnapList(tree)
    case None => Outcome(dir, [NoStoriesLine])
    case Some(recs) =>
      var w := Walk(dir, recs, fetch);
      Outcome(w.dir, if w.halted then w.lines + [NoStoriesLine] else w.lines)
  }

  /** Some record of recs has a missing key. */
  predicate Halts(recs: seq<Record>, fetch: string -> Response)
  {
    exists k :: 0 <= k < |recs| && PlanOf(recs[k], fetch).KeyMissing?
  }

  /** The names the loop saves when the directory starts empty: the status-200
      targets before the first missing key. */
  function Saved(recs: seq<Record>, fetch: string -> Response): set<string>
    decreases |recs|
  {
    if recs == [] then {}
    else
      var init := recs[..|recs| - 1];
      var p := PlanOf(recs[|recs| - 1], fetch);
      if Halts(init, fetch) || !(p.Target? && p.status == 200) then Saved(init, fetch)
      else Saved(init, fetch) + {p.name}
  }

  /** The names a payload's records save. */
  function SavedFrom(tree: Tree, fetch: string -> Response): set<string>
  {
    match SnapList(tree)
    case None => {}
    case Some(recs) => Saved(recs, fetch)
  }

  // ---------------------------------------------------------------------------
  // File names

  /** A file name never contains a quote and always ends with its extension. */
  lemma FileNameShape(etag: string, x: Extension)
    ensures '"' !in FileName(etag, x)
    ensures var n := FileName(etag, x); |Suffix(x)| <= |n| && n[|n| - |Suffix(x)|..] == Suffix(x)
  {
    var u, sfx := Unquote(etag), Suffix(x);
    assert (u + sfx)[|u|..] == sfx;
    assert '"' !in sfx by {
      if x == Jpeg {
        assert sfx == ".jpeg";
      } else {
        assert sfx == ".mp4";
      }
    }
    assert forall c :: c in u + sfx ==> c in u || c in sfx;
  }

  /** A file name is a path (relative or absolute, possibly leaving the output
      directory) rather than a plain name exactly when its ETag holds a `/`:
      removing quotes keeps every slash, and no extension has one. */
  lemma FileNameFlat(etag: string, x: Extension)
    ensures '/' in FileName(etag, x) <==> '/' in etag
  {
    var u, sfx := Unquote(etag), Suffix(x);
    UnquoteCounts(etag, '/');
    assert '/' in u <==> multiset(u)['/'] > 0;
    assert '/' in etag <==> multiset(etag)['/'] > 0;
    assert '/' !in sfx by {
      if x == Jpeg {
        assert sfx == ".jpeg";
      } else {
        assert sfx == ".mp4";
      }
    }
    assert forall c :: c in u + sfx <==> c in u || c in sfx;
  }

  /** A character allowed inside an opaque tag (`etagc`, section 8.8.3 of RFC 9110). */
  predicate IsEtagChar(c: char)
  {
    c == '!' || ('#' <= c <= '~') || ('\U{80}' <= c <= '\U{FF}')
  }

  /** `opaque-tag = DQUOTE *etagc DQUOTE` (section 8.8.3 of RFC 9110). */
  predicate IsOpaqueTag(s: string)
  {
    2 <= |s| && s[0] == '"' && s[|s| - 1] == '"' && forall i :: 1 <= i < |s| - 1 ==> IsEtagChar(s[i])
  }

  /** `entity-tag = [ weak ] opaque-tag` with `weak = "W/"` (section 8.8.3 of RFC 9110). */
  predicate IsEntityTag(s: string)
  {
    IsOpaqueTag(s) || (2 <= |s| && s[..2] == "W/" && IsOpaqueTag(s[2..]))
  }

  /** For a well-formed entity tag the file name is the tag's opaque content and
      the extension; a weak tag keeps its `W/` prefix. */
  lemma FileNameOfEntityTag(etag: string, x: Extension)
    requires IsEntityTag(etag)
    ensures IsOpaqueTag(etag) ==> FileName(etag, x) == etag[1..|etag| - 1] + Suffix(x)
    ensures !IsOpaqueTag(etag) ==> FileName(etag, x) == "W/" + etag[3..|etag| - 1] + Suffix(x)
  {
    if IsOpaqueTag(etag) {
      OpaqueContent(etag);
    } else {
      var tag := etag[2..];
      assert etag == "W/" + tag;
      assert '"' !in "W/";
      UnquoteAppend("W/", tag);
      UnquoteNoQuote("W/");
      OpaqueContent(tag);
      assert tag[1..|tag| - 1] == etag[3..|etag| - 1];
    }
  }

  lemma OpaqueContent(tag: string)
    requires IsOpaqueTag(tag)
    ensures Unquote(tag) == tag[1..|tag| - 1]
  {
    var inner := tag[1..|tag| - 1];
    assert tag == ['"'] + inner + ['"'];
    assert forall i :: 0 <= i < |inner| ==> inner[i] == tag[i + 1];
    UnquoteAppend(['"'] + inner, ['"']);
    UnquoteAppend(['"'], inner);
    UnquoteNoQuote(inner);
  }

  // ---------------------------------------------------------------------------
  // One more record

  /** Walking one more record: nothing happens after a halt; otherwise the
      record's step is applied to the directory reached so far. */
  lemma WalkSnoc(dir: Directory, recs: seq<Record>, rec: Record, fetch: string -> Response)
    ensures var w := Walk(dir, recs, fetch);
            Walk(dir, recs + [rec], fetch) ==
              if w.halted then w
              else match Apply(w.dir, PlanOf(rec, fetch))
                case Halt => Walked(w.dir, w.lines, true)
                case Go(d, lines) => Walked(d, w.lines + lines, false)
  {
    assert (recs + [rec])[..|recs|] == recs;
  }

  /** A record whose "mediaUrl" is null or empty adds exactly the no-URL line,
      writes nothing and lets the loop go on. */
  lemma NoUrlRecord(dir: Directory, recs: seq<Record>, rec: Record, fetch: string -> Response)
    requires rec.snapUrls.Some? && rec.snapUrls.value.mediaUrl.Some?
    requires !HasUrl(rec.snapUrls.value.mediaUrl.value)
    ensures var w := Walk(dir, recs, fetch);
            !w.halted ==> Walk(dir, recs + [rec], fetch) == Walked(w.dir, w.lines + [NoUrlLine], false)
  {
    WalkSnoc(dir, recs, rec, fetch);
  }

  /** A Content-Type mentioning neither image nor video changes neither the directory nor the log. */
  lemma UnsupportedRecord(dir: Directory, recs: seq<Record>, rec: Record, fetch: string -> Response)
    requires rec.snapUrls.Some? && rec.snapUrls.value.mediaUrl.Some?
    requires var url := rec.snapUrls.value.mediaUrl.value;
             HasUrl(url) && fetch(url.text).contentType.Some?
             && var ct := fetch(url.text).contentType.value;
                !Contains(ct, "image") && !Contains(ct, "video")
    ensures Walk(dir, recs + [rec], fetch) == Walk(dir, recs, fetch)
  {
    WalkSnoc(dir, recs, rec, fetch);
    var w := Walk(dir, recs, fetch);
    if !w.halted {
      assert w.lines + [] == w.lines;
    }
  }

  /** Dedup: a record whose file name is already in the directory changes
      neither the directory nor the log. */
  lemma ExistingFileRecord(dir: Directory, recs: seq<Record>, rec: Record, fetch: string -> Response)
    requires PlanOf(rec, fetch).Target? && PlanOf(rec, fetch).name in Walk(dir, recs, fetch).dir
    ensures Walk(dir, recs + [rec], fetch) == Walk(dir, recs, fetch)
  {
    WalkSnoc(dir, recs, rec, fetch);
    var w := Walk(dir, recs, fetch);
    if !w.halted {
      assert w.lines + [] == w.lines;
    }
  }

  /** A new file name: status 200 adds exactly that file, with the response
      body, and the "Downloaded" line; any other status adds only the
      cannot-connect line. */
  lemma NewFileRecord(dir: Directory, recs: seq<Record>, rec: Record, fetch: string -> Response)
    requires PlanOf(rec, fetch).Target? && PlanOf(rec, fetch).name !in Walk(dir, recs, fetch).dir
    requires !Walk(dir, recs, fetch).halted
    ensures var w := Walk(dir, recs, fetch);
            var p := PlanOf(rec, fetch);
            Walk(dir, recs + [rec], fetch) ==
              if p.status == 200 then Walked(w.dir[p.name := p.body], w.lines + [DownloadedLine(p.name)], false)
              else Walked(w.dir, w.lines + [CannotDownloadLine], false)
  {
    WalkSnoc(dir, recs, rec, fetch);
  }

  // ---------------------------------------------------------------------------
  // Missing keys

  /** Once the loop has stopped, later records change nothing. */
  lemma {:induction false} HaltedStays(dir: Directory, recs: seq<Record>, j: nat, fetch: string -> Response)
    requires j <= |recs| && Walk(dir, recs[..j], fetch).halted
    ensures Walk(dir, recs, fetch) == Walk(dir, recs[..j], fetch)
    decreases |recs| - j
  {
    if j < |recs| {
      WalkSnoc(dir, recs[..j], recs[j], fetch);
      assert recs[..j] + [recs[j]] == recs[..j + 1];
      HaltedStays(dir, recs, j + 1, fetch);
    } else {
      assert recs[..j] == recs;
    }
  }

  /** The loop stops exactly when some record has a missing key. */
  lemma {:induction false} WalkHalts(dir: Directory, recs: seq<Record>, fetch: string -> Response)
    ensures Walk(dir, recs, fetch).halted <==> Halts(recs, fetch)
    decreases |recs|
  {
    if recs != [] {
      var init := recs[..|recs| - 1];
      WalkHalts(dir, init, fetch);
      assert forall k :: 0 <= k < |init| ==> init[k] == recs[k];
      var w := Walk(dir, init, fetch);
      if !w.halted && PlanOf(recs[|recs| - 1], fetch).KeyMissing? {
        assert Halts(recs, fetch);
      }
      if Halts(recs, fetch) && !Halts(init, fetch) {
        var k :| 0 <= k < |recs| && PlanOf(recs[k], fetch).KeyMissing?;
        assert k == |recs| - 1;
      }
    }
  }

  /** The first record with a missing key ends the handle: the effects of the
      records before it are kept, no later record is looked at, and exactly one
      no-stories line follows. */
  lemma KeyErrorStops(dir: Directory, tree: Tree, k: nat, fetch: string -> Response)
    requires SnapList(tree).Some? && k < |SnapList(tree).value|
    requires var recs := SnapList(tree).value;
             PlanOf(recs[k], fetch).KeyMissing?
             && forall j :: 0 <= j < k ==> !PlanOf(recs[j], fetch).KeyMissing?
    ensures var w := Walk(dir, SnapList(tree).value[..k], fetch);
            MediaOutcome(dir, tree, fetch) == Outcome(w.dir, w.lines + [NoStoriesLine])
  {
    var recs := SnapList(tree).value;
    var init := recs[..k];
    WalkHalts(dir, init, fetch);
    var w := Walk(dir, init, fetch);
    assert !w.halted;
    WalkSnoc(dir, init, recs[k], fetch);
    assert init + [recs[k]] == recs[..k + 1];
    HaltedStays(dir, recs, k + 1, fetch);
  }

  // ---------------------------------------------------------------------------
  // The directory

  /** Files already in the directory are never rewritten, so the directory only grows. */
  lemma {:induction false} WalkKeeps(dir: Directory, recs: seq<Record>, fetch: string -> Response)
    ensures var d := Walk(dir, recs, fetch).dir;
            forall n :: n in dir ==> n in d && d[n] == dir[n]
    decreases |recs|
  {
    if recs != [] {
      WalkKeeps(dir, recs[..|recs| - 1], fetch);
    }
  }

  /** The loop leaves the directory holding what it held plus the saved names. */
  lemma {:induction false} WalkFiles(dir: Directory, recs: seq<Record>, fetch: string -> Response)
    ensures Walk(dir, recs, fetch).dir.Keys == dir.Keys + Saved(recs, fetch)
    decreases |recs|
  {
    if recs != [] {
      var init := recs[..|recs| - 1];
      WalkFiles(dir, init, fetch);
      WalkHalts(dir, init, fetch);
    }
  }

  lemma LogLinesAreNotDownloads()
    ensures !IsDownloadedLine(NoUrlLine) && !IsDownloadedLine(CannotDownloadLine)
    ensures !IsDownloadedLine(NoStoriesLine)
  {
    assert DownloadedPrefix[0] == 'D' && NoStoriesLine[0] == '[';
  }

  lemma NoDownloadsAppend(a: seq<string>, b: seq<string>)
    requires NoDownloads(a) && NoDownloads(b)
    ensures NoDownloads(a + b)
  {
    forall i | 0 <= i < |a + b| ensures !IsDownloadedLine((a + b)[i]) {
      if i < |a| { assert (a + b)[i] == a[i]; } else { assert (a + b)[i] == b[i - |a|]; }
    }
  }

  /** When every name the records save is already present, the loop changes no
      file and reports no download. */
  lemma {:induction false} WalkSettled(dir: Directory, recs: seq<Record>, fetch: string -> Response)
    requires Saved(recs, fetch) <= dir.Keys
    ensures Walk(dir, recs, fetch).dir == dir
    ensures NoDownloads(Walk(dir, recs, fetch).lines)
    decreases |recs|
  {
    if recs != [] {
      var init := recs[..|recs| - 1];
      WalkSettled(dir, init, fetch);
      WalkHalts(dir, init, fetch);
      LogLinesAreNotDownloads();
      var w := Walk(dir, init, fetch);
      if !w.halted {
        var step := Apply(w.dir, PlanOf(recs[|recs| - 1], fetch));
        if step.Go? {
          assert NoDownloads(step.lines);
          NoDownloadsAppend(w.lines, step.lines);
        }
      }
    }
  }

  /** `download_media` never rewrites a file and only adds the saved names. */
  lemma MediaGrows(dir: Directory, tree: Tree, fetch: string -> Response)
    ensures var d := MediaOutcome(dir, tree, fetch).dir;
            d.Keys == dir.Keys + SavedFrom(tree, fetch)
            && forall n :: n in dir ==> d[n] == dir[n]
  {
    if SnapList(tree).Some? {
      WalkKeeps(dir, SnapList(tree).value, fetch);
      WalkFiles(dir, SnapList(tree).value, fetch);
    }
  }

  /** When every name the payload's records save is already present,
      `download_media` changes no file and reports no download. */
  lemma MediaSettled(dir: Directory, tree: Tree, fetch: string -> Response)
    requires SavedFrom(tree, fetch) <= dir.Keys
    ensures MediaOutcome(dir, tree, fetch).dir == dir
    ensures NoDownloads(MediaOutcome(dir, tree, fetch).lines)
  {
    LogLinesAreNotDownloads();
    if SnapList(tree).Some? {
      var recs := SnapList(tree).value;
      WalkSettled(dir, recs, fetch);
      NoDownloadsAppend(Walk(dir, recs, fetch).lines, [NoStoriesLine]);
    }
  }

  /** Run twice on the same responses, `download_media` adds no file and no
      "Downloaded" line the second time. */
  lemma MediaIdempotent(dir: Directory, tree: Tree, fetch: string -> Response)
    ensures var first := MediaOutcome(dir, tree, fetch);
            var second := MediaOutcome(first.dir, tree, fetch);
            second.dir == first.dir && NoDownloads(second.lines)
  {
    MediaGrows(dir, tree, fetch);
    MediaSettled(MediaOutcome(dir, tree, fetch).dir, tree, fetch);
  }
}
