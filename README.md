# Snapchat story downloader: the download pipeline

This project models the download pipeline of a desktop tool that saves the
public stories of a list of Snapchat handles. The model is written in Dafny.
The tool's worker thread takes the handles in order. For each handle it asks
for the handle's story page and decodes the embedded JSON payload. It then
walks the payload's `snapList`. Each record's media is fetched, classified by
its Content-Type, and named from its ETag. When the name is not yet in the
output directory and the media request returns status 200, the file is
saved there; any other status logs the cannot-connect line instead. The
worker reports through three signals: a progress percentage after each
handle, log lines, and a final completion signal. Around the worker, the
window keeps the handle list free of duplicates and empty names. It also
refuses to start the worker on an empty list.

Modules:

- `Text`: the three Python string operations the pipeline uses:
  - substring `in`: `Contains`;
  - `replace('"', '')`: `Unquote`;
  - `strip()`: `Strip`.
- `Inputs`: what the outside world delivers, as values.
  - `Page` is a page response: not ok, or ok with its decoded payload `Tree`.
  - `Response` is a media response: status, Content-Type, ETag and body.
  - A dictionary key that may be missing is an `Option` field. A missing key
    is what raises `KeyError` in the source.
- `Media`: the per-record rules of `download_media`, as specification
  functions.
  - `PlanOf` is what a record leads to before the directory is consulted.
  - `Apply` is what that plan does to the directory and the log.
  - `Walk` runs the loop over the records.
  - `MediaOutcome` gives the whole call, including the `KeyError` handler.

  The lemmas about these functions cover the file name, dedup, the error
  lines, the stop on a missing key, and the directory only growing.
- `Pipeline`: the class `DownloadThread`.
  - Its fields are the handle list, the output directory (a map from file
    name to bytes) and the ordered stream of emitted `Event`s.
  - `GetJson` states its result outright for both branches.
  - `DownloadMedia` is proved equal to `Media.MediaOutcome`, and its loop
    body `DownloadRecord` to `Apply` of `PlanOf`.
  - `Run`, with its loop body `VisitHandle`, is proved against the
    specification functions `Pass`, `HandleStage` and `RunStage`.
  - The lemmas cover the progress values, the handling of bad pages,
    ordering, and idempotence of a re-run.
- `Users`: the class `SnapchatDownloader` with its `userslist`, and the list
  guards `AddUser`, `RemoveUser` and `StartDownload`.

The network is two functions given to the methods as parameters:
`fetchPage` from handle to `Page`, and `fetch` from URL to `Response`.
So the remote is deterministic within one call. Every lemma holds for all
such functions.

Three behaviours of the code that a reader might not expect, all modelled
as the code has them:

- `Run` has no precondition of a non-empty list. With an empty list the
  Python loop never divides, so it emits just the completion signal. The
  progress lemmas assume at least one handle, which `StartDownload`
  guarantees.
- Only a `mediaUrl` that is present but null or empty logs the "no URL"
  line and moves on to the next record. A record without a `snapUrls` or
  `mediaUrl` key raises `KeyError`. That stops the handle with the
  "no stories" line.
- The ETag header is looked up only after the Content-Type has been
  classified. An unsupported type with no ETag is skipped silently. An image
  or video with no ETag stops the handle.

## Model

| member | source | states |
|---|---|---|
| Text.Contains | snapchatdownloader.py:63-65 | `t in s` holds exactly when `t` occurs in `s` at some index |
| Text.Unquote | snapchatdownloader.py:64 | the result of `replace('"', '')` holds no quote and is no longer than its input |
| Text.UnquoteAppend | snapchatdownloader.py:64 | removing quotes distributes over concatenation |
| Text.UnquoteNoQuote | snapchatdownloader.py:64 | a string without quotes is unchanged |
| Text.UnquoteCounts | snapchatdownloader.py:64 | the quote count drops to zero and every other character keeps its count |
| Text.Strip | snapchatdownloader.py:170 | the result is `s` with a maximal leading and a maximal trailing run of whitespace removed, so it neither starts nor ends with whitespace |
| Text.StripIdempotent | snapchatdownloader.py:170 | stripping a stripped name changes nothing |
| Media.Classify | snapchatdownloader.py:63-68 | `.jpeg` exactly when the type contains "image"; `.mp4` exactly when it contains "video" but not "image"; none exactly when it contains neither |
| Media.FileNameShape | snapchatdownloader.py:63-66 | a file name holds no quote and ends with its extension |
| Media.FileNameOfEntityTag | snapchatdownloader.py:64-66 | for an RFC 9110 entity tag, the name is the opaque content plus the extension; a weak tag keeps its `W/` |
| Media.OpaqueContent | snapchatdownloader.py:64 | removing quotes from an opaque tag leaves the characters between its quotes |
| Media.NoUrlRecord | snapchatdownloader.py:57-59 | a null or empty media URL adds exactly the "no URL" line, writes nothing, and the loop goes on |
| Media.UnsupportedRecord | snapchatdownloader.py:63-68 | a type with neither "image" nor "video" changes neither the directory nor the log |
| Media.ExistingFileRecord | snapchatdownloader.py:70-71 | a name already in the directory changes neither the directory nor the log |
| Media.NewFileRecord | snapchatdownloader.py:75-81 | for a new name, status 200 adds exactly that file with the response body and logs "Downloaded name"; any other status leaves the directory alone and logs the cannot-connect line |
| Media.HaltedStays | snapchatdownloader.py:82-83 | after a missing key, the later records change nothing |
| Media.WalkHalts | snapchatdownloader.py:53-83 | the loop stops exactly when some record has a missing key |
| Media.KeyErrorStops | snapchatdownloader.py:53-83 | at the first record with a missing key, the effects of the earlier records are kept, exactly one "no stories" line follows, and the rest is skipped |
| Media.WalkKeeps | snapchatdownloader.py:70-71 | every existing file is kept with unchanged contents |
| Media.WalkFiles | snapchatdownloader.py:70-79 | the names after the loop are the old ones plus `Saved`, the status-200 targets before the first missing key |
| Media.MediaGrows | snapchatdownloader.py:52-83 | `download_media` only adds files, exactly the names in `SavedFrom`, and never rewrites one |
| Media.MediaSettled | snapchatdownloader.py:70-71 | when all those names exist already, the directory is unchanged and no "Downloaded" line is logged |
| Media.MediaIdempotent | snapchatdownloader.py:70-71 | a second `download_media` on the same responses adds no file and logs no download |
| Pipeline.DownloadThread.constructor | snapchatdownloader.py:19-21 | the thread holds the given list and directory and has emitted nothing |
| Pipeline.DownloadThread.GetJson | snapchatdownloader.py:42-50 | a page that is not ok yields nothing and logs exactly the no-connection line; an ok page yields its payload and logs nothing |
| Pipeline.DownloadThread.DownloadMedia | snapchatdownloader.py:52-83 | the loop leaves exactly the directory and log lines of `MediaOutcome` |
| Pipeline.DownloadThread.DownloadRecord | snapchatdownloader.py:54-81 | one record does what `Apply` on its `PlanOf` says; it reports a missing key and then changes nothing |
| Pipeline.DownloadThread.VisitHandle | snapchatdownloader.py:29-32 | one handle does what `HandleStage` says: the media step only for an ok, non-empty payload, then its progress value |
| Pipeline.DownloadThread.Run | snapchatdownloader.py:23-34 | the thread ends with the directory and events of `RunStage`: every handle in order, then the completion signal |
| Pipeline.HandleProgress | snapchatdownloader.py:29-32 | each handle emits exactly one progress value, `(idx + 1) * 100 // n`, and no completion |
| Pipeline.PassProgress | snapchatdownloader.py:28-32 | the first k handles emit the first k progress values in order, and no completion |
| Pipeline.ProgressShape | snapchatdownloader.py:32 | there are n values, each within 0..100, non-decreasing, the last exactly 100 |
| Pipeline.ProgressLast | snapchatdownloader.py:32 | the last handle's value is 100 |
| Pipeline.ProgressInRange | snapchatdownloader.py:32 | each value lies in 0..100 |
| Pipeline.ProgressOrdered | snapchatdownloader.py:32 | a later handle's value is never smaller |
| Pipeline.RunProgress | snapchatdownloader.py:28-34 | for n >= 1 handles, the emitted progress values are exactly `(i + 1) * 100 // n` for i < n; there is one completion signal; it is the last event and directly follows Progress(100) |
| Pipeline.PassPrefix | snapchatdownloader.py:28-32 | the events of earlier handles are a prefix of the events of later ones |
| Pipeline.NotOkHandle | snapchatdownloader.py:29-32 | a page that is not ok adds exactly the no-connection line and its progress value, and leaves the directory alone |
| Pipeline.EmptyPayloadHandle | snapchatdownloader.py:29-32 | an empty payload skips `download_media` and adds only its progress value |
| Pipeline.PassGrows | snapchatdownloader.py:28-31 | a run only adds files, exactly `SavedByRun`, and never rewrites one |
| Pipeline.PassSettled | snapchatdownloader.py:28-31 | when all those names exist already, the run changes no file and logs no download |
| Pipeline.RunIdempotent | snapchatdownloader.py:23-34 | a second run on the same handles and responses leaves the directory unchanged and logs no download |
| Pipeline.ImageRecordPlan | snapchatdownloader.py:55-66 | an image response with ETag `"e1"` targets `e1.jpeg` |
| Pipeline.ImageRecordOutcome | snapchatdownloader.py:52-83 | that record alone saves `e1.jpeg` with the body and logs "Downloaded e1.jpeg" |
| Pipeline.ImageHandleStage | snapchatdownloader.py:29-32 | as the second of two handles, it then emits 100 |
| Pipeline.NotOkHandleStage | snapchatdownloader.py:29-32 | a first handle of two whose page is not ok logs the no-connection line, then 50 |
| Pipeline.TwoHandleScenario | snapchatdownloader.py:23-34 | a failing page, then one image: the no-connection line, 50, "Downloaded e1.jpeg", 100, completion, with only `e1.jpeg` saved |
| Users.SnapchatDownloader.constructor | snapchatdownloader.py:87-89 | the window starts with an empty, well-formed list |
| Users.SnapchatDownloader.AddUser | snapchatdownloader.py:169-176 | the stripped text is appended exactly when it is non-empty and not yet listed; otherwise the list is unchanged; the list stays duplicate-free and holds only non-empty stripped names |
| Users.SnapchatDownloader.RemoveUser | snapchatdownloader.py:178-184 | exactly the selected names are removed and the others keep their order; the list shrinks by the selection's size and stays well formed |
| Users.SnapchatDownloader.RemoveOne | snapchatdownloader.py:183 | `list.remove` of a listed name takes out its one entry and keeps the others in order |
| Users.SnapchatDownloader.StartDownload | snapchatdownloader.py:186-198 | an empty list starts no worker; otherwise a fresh worker over the list runs to the state `RunStage` gives, with n progress values and one completion |
| Users.RemoveFirstOfDistinct | snapchatdownloader.py:183 | in a duplicate-free list, removing the first occurrence removes every occurrence |
| Users.WithoutMembers | snapchatdownloader.py:182-183 | after removal, a name is listed exactly when it was listed before and was not removed |
| Users.WithoutWellFormed | snapchatdownloader.py:182-183 | removing names keeps the list duplicate-free and free of empty or unstripped names |
| Users.WithoutTwice | snapchatdownloader.py:182-183 | removing one name after others equals removing them all at once |
| Media.FileNameFlat | snapchatdownloader.py:64-66 | a file name contains `/`, and so is a path rather than a plain name inside the output directory, exactly when its ETag does |
| Inputs.NonEmpty | snapchatdownloader.py:30 | the truthiness of the decoded payload: the dictionary has at least one key; `EmptyPayloadHandle` states what a falsy payload does |
| Inputs.HasUrl | snapchatdownloader.py:57 | the truthiness of the `mediaUrl` value: a non-empty string; `NoUrlRecord` states what a falsy value does |
| Inputs.SnapList | snapchatdownloader.py:54 | the lookup path `props`, `pageProps`, `story`, `snapList`, with none when a key on it is missing; `KeyErrorStops` and `MediaOutcome` use it |
| Media.FileName | snapchatdownloader.py:64-66 | the ETag with every quote removed, then the extension; `FileNameShape`, `FileNameOfEntityTag` and `FileNameFlat` characterise it |
| Media.PlanOf | snapchatdownloader.py:55-68 | what a record leads to, in the source's lookup order: a missing key, no URL, an unsupported type, or a target name with the response's status and body; `UnsupportedRecord` and `KeyErrorStops` use it |
| Media.Apply | snapchatdownloader.py:70-81 | what a plan does: halt on a missing key, otherwise the new directory and the log lines; `NoUrlRecord`, `ExistingFileRecord` and `NewFileRecord` state each branch through `Walk` |
| Media.Walk | snapchatdownloader.py:53-81 | the loop over the records up to and including the first missing key; `WalkHalts`, `HaltedStays`, `WalkKeeps` and `WalkFiles` characterise it |
| Media.MediaOutcome | snapchatdownloader.py:52-83 | `download_media` with its `KeyError` handler, which adds the no-stories line; `DownloadMedia` is proved equal to it, and `KeyErrorStops`, `MediaGrows` and `MediaIdempotent` are about it |
| Pipeline.ProgressValue | snapchatdownloader.py:32 | the emitted value `(idx + 1) * 100 // n`; `ProgressLast`, `ProgressInRange` and `ProgressOrdered` characterise it |
| Pipeline.HandleStage | snapchatdownloader.py:29-32 | one handle: the no-connection line for a page that is not ok, `MediaOutcome` for a non-empty payload, then the progress value; `VisitHandle` is proved equal to it and `HandleProgress` is about it |
| Pipeline.Pass | snapchatdownloader.py:28-32 | the loop over the first handles, in order; `PassProgress`, `PassPrefix`, `PassGrows` and `PassSettled` characterise it |
| Pipeline.RunStage | snapchatdownloader.py:23-34 | the loop over all handles, then the completion signal; `Run` is proved equal to it, and `RunProgress` and `RunIdempotent` are about it |
| Users.RemoveFirst | snapchatdownloader.py:183 | Python's `list.remove`: the first occurrence taken out, one entry shorter; `RemoveFirstOfDistinct` relates it to `Without` |

## Left out

- The PyQt interface is not modelled: widgets, layout, style sheet, icon, and
  the slots that show progress and log lines. `QMessageBox` warnings become
  the `false` result of `AddUser` and the `null` result of `StartDownload`.
- `StartDownload`: the log-area clear, the progress-bar reset and the
  disabled button are widget state and are not modelled.
- `QThread` concurrency: `StartDownload` runs the worker to completion
  in-line. The window and the worker share one Python list object; the
  model copies the list into the worker, so later edits to the list while
  the worker runs are not modelled. In the source, Add User and Remove stay
  enabled during a run and `len(self.userslist)` is read again on every
  pass, so such an edit can skip a handle (removing the current one makes
  the next one move into its place) or send a progress value above 100
  (removing `a` and `b` from `[a, b, c]` while `c` is processed sends
  (2 + 1) * 100 // 1 = 300); the 0 to 100 bound of `ProgressShape` and the
  final 100 of `RunProgress` are therefore not promises of the source when
  the list is edited during a run.
- The HTTP requests, the BeautifulSoup HTML parsing and `json.loads` are
  not modelled. They are foreign library calls, so the model takes their
  results as the values `Page` and `Response`.
- Exceptions the source does not catch are not modelled: transport errors
  from `requests`, a missing `__NEXT_DATA__` element, malformed JSON, and a
  `TypeError` from a non-dictionary value along a key path. The input types
  exclude them.
- `sleep(0.3)` is omitted: it only adds a delay.
- The `Desktop/snap` folder's path, `makedirs` and `chdir` are not modelled.
  The directory is a flat map from file name to contents: the model treats
  each name as a plain file name in the output folder, and two names are
  the same file exactly when they are equal as strings, compared exactly
  and case-sensitively.
- A file name that the file system does not treat as a plain,
  case-sensitive name in the output folder is not modelled as the source
  behaves. The main case is a file name containing `/`. Such a
  name comes from an ETag with a `/` in it, such as a weak one `W/"x"` or a
  strong one `"a/b"`, `"../x"` or `"/x"`. `Media.FileNameFlat` states exactly
  when it arises. The model saves the file under that key, logs the download
  and goes on. In the source, the name is a relative or absolute path, and
  `os.path.isfile` and `open` use it as one. It may point into a
  subdirectory of the output folder, into a parent folder, or anywhere on
  disk. A path into an existing folder the user may write to, such as
  `../x.jpeg`, is written there, outside the output folder, and the loop
  goes on. A path into a folder that does not exist makes `open` raise
  `FileNotFoundError`, and a path the user may not write to, such as
  `/x.jpeg` for a normal user, makes it raise `PermissionError`. Neither is
  caught by `except KeyError`, so the worker stops. No later record or
  handle is then processed, and no further progress value or completion
  signal is sent. Other names the file system does not treat as plain ones:
  on Windows `\` is also a separator, `:` names an NTFS alternate data
  stream, and `*`, `?`, `<`, `>` and `|` make `open` fail; on a
  case-insensitive file system (the default on macOS and Windows) the ETags
  `"Ab"` and `"ab"` give two files in the model, while `os.path.isfile`
  makes the source skip the second as already downloaded; and a
  subdirectory with the name of the file makes `isfile` false and `open`
  raise `IsADirectoryError`. `RunProgress`, `ExistingFileRecord`,
  `NewFileRecord`, `WalkFiles`, `MediaGrows`, `RunIdempotent` and the
  lemmas built on them therefore describe the source only for runs in
  which the file system treats every name that reaches the directory check
  as a plain file name in the output folder, compared exactly: no `/`; on
  Windows no `\`, `:`, `*`, `?`, `<`, `>` or `|`; on a case-insensitive
  file system no two names equal up to case; and no subdirectory of that
  name.
- `mediaUrl` is assumed to be a string or JSON null. Python's `not file_url`
  also treats `0`, `false`, `[]` and `{}` as no URL, and a truthy value that
  is not a string makes `requests.get` raise. Neither case is modelled.
- Chunked streaming to the file is not modelled: a write stores the whole
  response body at once.
- `RemoveUser`: it requires selected names that are distinct and listed.
  The source takes them from the list widget, which shows exactly the list.
  The widget's `takeItem` is not modelled.
