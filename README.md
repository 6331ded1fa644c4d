# stemify, modelled in Dafny

stemify splits a song into four stems (vocals, drums, bass, other). The browser side accepts
an upload and drives a seven-stage progress display while the file goes to the backend. It
then shows the stems, plays them back, and downloads them on request. The Flask backend
checks the upload, runs the separator, and lists the stem files it finds.

This project models the decision logic and state of that core:

- `Types`: the shared records and enumerations.
- `ApiService`: the client's API calls, reduced to their URL composition and choice of error
  message. How the HTTP call came back is an input.
- `AudioUtils`: the helper library:
  - the format and size checks;
  - the `mm:ss` clock rendering;
  - the fixed event script that the stem-separation call reports;
  - the mapping of backend stems to client stems;
  - the staggered download schedule.
- `IndexPage`: the page that owns the job. It is a class whose methods are the page's event
  handlers:
  - `HandleProgressUpdate` is proved equal to the pure step `ProgressStep` on a snapshot of the
    page;
  - `HandleFileSelected` is proved equal to a run of those steps (`RunEvents`) over the
    separation's event script;
  - `SeparationSucceeded` and `SeparationFailed` state the fields they set and leave the rest
    of the snapshot as it was;
  - `SelectFile`, `ProcessAnotherFile` and `TryAgain` state each field they set directly;
  - `HandleDownloadAll` returns the schedule of `DownloadAllStems`.
- `UploadZone`: the drop zone's accept/reject procedure.
- `ProcessingStatusView`: what the progress panel shows.
- `AudioPlayer`: the preview player's play/mute/volume state. It is kept in step with its
  `<audio>` element.
- `Backend`: the separation endpoint:
  - the extension check;
  - the order of the request checks;
  - the loop that collects the stem files.
- `Text`: a helper module that models JavaScript's decimal rendering of integers below 1e21
  and `padStart`.

Numbers are exact reals and unbounded integers. JavaScript's `Math.floor`, `Math.ceil`,
`Math.round` and `%` are written out. No claim is made about double rounding.

### Behaviour worth knowing

- Overall progress is not clamped to [0, 100]. It stays in range only for in-stage percents in
  [0, 100] (`IndexPage.OverallProgressBounds`).
- A stage that reports 100 percent stays `processing`. Only a later stage's event completes it.
- A successful separation sets neither the stages to completed nor the progress to 100. The
  last event of the script leaves "Finalizing" processing at 100 (`IndexPage.SeparationTraceOutcome`).
- Nothing guards against the result of a superseded job. There is no job-generation counter.
- No handler sets the job status to `processing`. `IndexPage.JobPage.Valid` records this.
- The per-stage percent may go down when a stage repeats with a smaller value.
- The progress handler reads the selected file from the render that created it.
  `handleFileSelected` is only reachable from the idle page, where that file is null. So from
  idle, progress events never update the remaining-time estimate.
  `IndexPage.JobPage.HandleFileSelected` passes the handler that earlier file's duration.
- The stage script of `separateStems` reports "Processing". No stage has that name, so the
  event is ignored (`IndexPage.RegistryPositions`).

## Model

| member | source | states |
|---|---|---|
| `Types.StemTypeName` | src/lib/types.ts:4 | every stem type is one of the four wire names |
| `Types.FormatName` | src/lib/types.ts:2 | every format is one of the four wire names |
| `Types.NamesDistinct` | src/lib/types.ts:2-4 | no two stem types and no two formats share a name |
| `Text.NatToString` | src/lib/audio-utils.ts:17 | `toString` of a whole number: digits only, no leading zero, one digit exactly below 10 |
| `Text.IntToString` | src/components/ProcessingStatus.tsx:36-37 | the rendering of an integer starts with '-' exactly when it is negative |
| `Text.PadStart2` | src/lib/audio-utils.ts:17 | `padStart(2, '0')`: length at least 2, the text kept at the end, zeros before it |
| `Text.ParseNatToString` | src/lib/audio-utils.ts:17 | reading back the rendering of n gives n |
| `Text.ReadNumeralDigits` | src/lib/audio-utils.ts:17 | reading a numeral succeeds exactly on digits, with the numeral's value |
| `Text.ParsePadded` | src/lib/audio-utils.ts:17 | padding never changes the value a numeral spells |
| `ApiService.GetStemUrl` | src/lib/api-service.ts:33-35 | the URL is the stems prefix of the base URL followed by the path, untouched |
| `ApiService.GetStemUrlInjective` | src/lib/api-service.ts:33-35 | different paths never share a URL |
| `ApiService.ErrorOr` | src/lib/api-service.ts:25-28 | the server's `error` text when it is present and non-empty, the fallback otherwise |
| `ApiService.ReplyOutcome` | src/lib/api-service.ts:16-46 | how both JSON calls settle: resolved exactly on an OK reply, with its body; otherwise rejected with the server's message, the call's fallback, or the exception's message |
| `ApiService.SeparateAudioFile` | src/lib/api-service.ts:16-31 | resolves exactly on an OK reply, with its body; otherwise rejects with the server's message, 'Failed to separate audio', or the exception's message |
| `ApiService.GetJobStatus` | src/lib/api-service.ts:37-46 | as above, with the fallback 'Failed to get job status' |
| `ApiService.CheckBackendHealth` | src/lib/api-service.ts:48-56 | true exactly for a reply that came back OK; an unreachable backend gives false, never an exception |
| `AudioUtils.IsValidAudioFormat` | src/lib/audio-utils.ts:20-23 | accepted exactly for audio/wav, audio/mpeg, audio/flac, audio/aac, audio/mp4 and audio/x-m4a |
| `AudioUtils.IsValidFileSize` | src/lib/audio-utils.ts:25-28 | accepted exactly up to 524,288,000 bytes, the limit included |
| `AudioUtils.GetAudioFormat` | src/lib/audio-utils.ts:20-36 | a format exactly for the six accepted MIME types; wav, mpeg, flac map to their formats and aac, mp4, x-m4a to aac |
| `AudioUtils.GetAudioDetails` | src/lib/audio-utils.ts:38-70 | the decoded duration and rate; 30 s at 44100 Hz when decoding fails; a rejection exactly when reading fails |
| `AudioUtils.FormatDuration` | src/lib/audio-utils.ts:13-18 | at least five characters; "00:00" for zero; a negative duration shows negative minutes (its round trip is `FormatDurationRoundTrip`) |
| `AudioUtils.ClockFields` | src/lib/audio-utils.ts:15-16 | for positive seconds, the minutes are the floor of seconds/60 and the remainder's floor r lies in 0..59, with 60·minutes + r the whole seconds |
| `AudioUtils.FormatDurationClock` | src/lib/audio-utils.ts:13-18 | a positive duration's text is the `mm:ss` clock of whole minutes m and seconds r in 0..59, with 60·m + r its whole seconds |
| `AudioUtils.ClockTextRoundTrip` | src/lib/audio-utils.ts:17 | minutes and seconds below 60, padded and joined by ':', read back as their total |
| `AudioUtils.FormatDurationRoundTripPositive` | src/lib/audio-utils.ts:13-18 | reading a rendered positive duration back as minutes and seconds gives its whole seconds |
| `AudioUtils.FormatDurationRoundTrip` | src/lib/audio-utils.ts:13-18 | the same for every non-negative duration, 0 included ("00:00") |
| `AudioUtils.StemTypeOf` | src/lib/audio-utils.ts:95-98 | the four known type names map to their types; every other name maps to other |
| `AudioUtils.StemDuration` | src/lib/audio-utils.ts:107 | the file's duration when known and non-zero, 30 otherwise |
| `AudioUtils.ToStem` | src/lib/audio-utils.ts:100-110 | id, name and size copied; type mapped; URL built from the path; wav, 44100 Hz, two channels |
| `AudioUtils.MapStems` | src/lib/audio-utils.ts:93-111 | one stem per descriptor, in order, each its `ToStem` |
| `AudioUtils.UploadTicks` | src/lib/audio-utils.ts:81-84 | n upload events at 0, 10, 20, … percent |
| `AudioUtils.SeparationTrace` | src/lib/audio-utils.ts:78-114 | 14 events on success and 13 on failure; the last one is "Finalizing" exactly on success |
| `AudioUtils.SeparationTraceShape` | src/lib/audio-utils.ts:78-114 | the script: Uploading 0, Uploading 0…100 by tens, Processing 0, then Finalizing 100 only on success; 14 or 13 events, every percent in [0, 100] |
| `AudioUtils.SeparateStems` | src/lib/audio-utils.ts:72-121 | reports exactly that script; resolves exactly when the backend call does, with its stems mapped; otherwise rejects with the call's message |
| `AudioUtils.DownloadAllStems` | src/lib/audio-utils.ts:128-135 | one download per stem, in order, the i-th after i·1000 ms, delays strictly increasing |
| `IndexPage.Registry` | src/pages/Index.tsx:24-32 | seven stages, all pending at 0, named Uploading, Analyzing, Separating vocals, drums, bass and other instruments, and Finalizing, in that order |
| `IndexPage.RegistryNamesDistinct` | src/pages/Index.tsx:24-32 | no two stages share a name |
| `IndexPage.FindStage` | src/pages/Index.tsx:68-69 | the first stage with the name, or none when no stage has it |
| `IndexPage.FindStageByNames` | src/pages/Index.tsx:68 | the lookup depends only on the stage names, so any progress or status gives the same index |
| `IndexPage.RegistryPositions` | src/pages/Index.tsx:24-32 | "Uploading" is stage 0, "Finalizing" stage 6, "Processing" no stage |
| `IndexPage.OverallProgress` | src/pages/Index.tsx:98-102 | n times the overall value is 100 per stage before stage k plus stage k's percent |
| `IndexPage.OverallProgressBounds` | src/pages/Index.tsx:98-102 | with the percent in [0, 100], stage k's overall value lies in the k-th of seven equal slices of [0, 100] |
| `IndexPage.OverallProgressMonotone` | src/pages/Index.tsx:98-102 | a later stage, or a larger percent on the same stage, never lowers the overall value |
| `IndexPage.RemainingTime` | src/pages/Index.tsx:104-109 | twice the duration at 0 percent, 0 at 100 percent, falling linearly between |
| `IndexPage.RemainingTimeBounds` | src/pages/Index.tsx:104-109 | the estimate stays between 0 and twice the duration |
| `IndexPage.InitialEstimate` | src/pages/Index.tsx:40 | twice the duration exactly when the duration is known and non-zero, none otherwise |
| `IndexPage.Sweep` | src/pages/Index.tsx:75-95 | same length, ids and names; stage k processing, a later stage processing only if it already was, every earlier stage not |
| `IndexPage.ProgressStep` | src/pages/Index.tsx:66-110 | an unmatched event changes nothing; a matched one sets the current stage; the stages keep their number, ids and names |
| `IndexPage.RunEvents` | src/pages/Index.tsx:66-110 | events handled in order, earliest first, keep the stages' number, ids and names |
| `IndexPage.UnknownStageIgnored` | src/pages/Index.tsx:68-69 | an event for an unknown stage changes nothing |
| `IndexPage.MatchedStageSwept` | src/pages/Index.tsx:72-109 | an event for stage k: earlier stages completed at 100, stage k processing at the percent, later ones untouched, current stage and overall progress set, the estimate recomputed only with a duration |
| `IndexPage.ProgressStepKeepsRegistry` | src/pages/Index.tsx:75-95 | an event keeps every stage's id and name and their order |
| `IndexPage.RunEventsKeepsRegistry` | src/pages/Index.tsx:75-95 | so does any sequence of events |
| `IndexPage.LastMatchIsAMatch` | src/pages/Index.tsx:68-69 | the last matched stage is named by some event |
| `IndexPage.SweepFromPending` | src/pages/Index.tsx:75-95 | from an all-pending registry an event leaves stage k the one in progress |
| `IndexPage.SweepForward` | src/pages/Index.tsx:75-95 | an event for the same or a later stage moves the one in progress forward |
| `IndexPage.SweptToSingleProcessing` | src/pages/Index.tsx:75-95 | once swept to k, stage k is the only one processing |
| `IndexPage.RunEventsSnoc` | src/pages/Index.tsx:66-110 | handling one more event is one more step |
| `IndexPage.PhaseStep` | src/pages/Index.tsx:66-95 | an event that does not go back a stage keeps the registry all pending or swept to the last stage matched |
| `IndexPage.SweepAlongEventsPhase` | src/pages/Index.tsx:75-95 | along events that never go back a stage, the registry is all pending or swept to the last matched stage |
| `IndexPage.SweepAlongEvents` | src/pages/Index.tsx:75-95 | after such events at most one stage is processing, and it is the last one matched |
| `IndexPage.SeparationTraceOutcome` | src/pages/Index.tsx:66-110 | a successful script leaves stages 0–5 completed at 100, "Finalizing" processing at 100, overall 100 |
| `IndexPage.JobPage.constructor` | src/pages/Index.tsx:23-33 | the mounted page: idle, no file, no stems, the registry installed |
| `IndexPage.JobPage.SelectFile` | src/pages/Index.tsx:36-48 | uploading, the file kept, progress 0 at "Uploading", the initial estimate, no stems, every stage reset to pending at 0 |
| `IndexPage.JobPage.HandleProgressUpdate` | src/pages/Index.tsx:66-110 | the page after the for-loop rewrite is the pure step of the event; file, status and stems untouched |
| `IndexPage.JobPage.SeparationSucceeded` | src/pages/Index.tsx:56-57 | the stems shown and the job completed; stages, progress and estimate untouched |
| `IndexPage.JobPage.SeparationFailed` | src/pages/Index.tsx:61 | the job in error; nothing else changes |
| `IndexPage.JobPage.HandleFileSelected` | src/pages/Index.tsx:35-64 | start the job; the page then shows the script's events run from the reset page; completed with the mapped stems on success, in error with no stems otherwise (the handler of the current render; the drop path is under "Left out") |
| `IndexPage.JobPage.HandleDownloadAll` | src/pages/Index.tsx:112-117 | nothing without stems, otherwise the staggered schedule of all of them |
| `IndexPage.JobPage.ProcessAnotherFile` | src/pages/Index.tsx:194-199 | idle, no file, progress 0, no stems; stages, stage name and estimate kept |
| `IndexPage.JobPage.TryAgain` | src/pages/Index.tsx:221-225 | idle, no file, progress 0; the stem list is left as it was |
| `UploadZone.Screen` | src/components/UploadZone.tsx:47-102 | rejected for an unsupported type; too large only after the type passed; never "unknown format"; otherwise accepted with the name, size and type-derived format, and the probed duration and rate; a warning for rates other than 44.1/48 kHz; no details and a warning when reading failed |
| `UploadZone.RejectionMessage` | src/components/UploadZone.tsx:48-63 | each rejection has its own toast, told apart by its first character |
| `UploadZone.RejectionMessageInjective` | src/components/UploadZone.tsx:48-63 | no two rejections share a toast |
| `UploadZone.Zone.ProcessFile` | src/components/UploadZone.tsx:41-109 | ignored while a file is in hand; otherwise the screen's outcome, the file passed on exactly when accepted, the flag cleared again (as the browse button calls it; the drop path is under "Left out") |
| `ProcessingStatusView.Ceil` | src/components/ProcessingStatus.tsx:36-37 | the least integer not below x |
| `ProcessingStatusView.Round` | src/components/ProcessingStatus.tsx:68 | the nearest integer, halves up |
| `ProcessingStatusView.EstimateLabelOf` | src/components/ProcessingStatus.tsx:34-38 | "calculating" exactly for no or a zero estimate; seconds rounded up below a minute, within 1..60 for positive values; otherwise whole minutes rounded up, at least 1 |
| `ProcessingStatusView.FormatEstimatedTime` | src/components/ProcessingStatus.tsx:34-38 | no or a zero estimate reads "Calculating..." |
| `ProcessingStatusView.EstimateLine` | src/components/ProcessingStatus.tsx:44-46 | the line is shown exactly when an estimate exists, with its text |
| `ProcessingStatusView.StagePercent` | src/components/ProcessingStatus.tsx:67-69 | a percentage exactly for a processing stage, its progress rounded |
| `ProcessingStatusView.StatusIcon` | src/components/ProcessingStatus.tsx:21-32 | no icon exactly for a pending stage |
| `ProcessingStatusView.StatusIconInjective` | src/components/ProcessingStatus.tsx:21-32 | the three other statuses have three different icons |
| `AudioPlayer.AppliedVolume` | src/components/AudioPlayer.tsx:50-54 | 0 when muted, the volume otherwise |
| `AudioPlayer.Initial` | src/components/AudioPlayer.tsx:12-16 | paused at 0, volume 0.7, not muted, the element at 0.7 |
| `AudioPlayer.TogglePlayStep` | src/components/AudioPlayer.tsx:56-66 | nothing without an element; otherwise the flag flips and the element is played or paused to match, its volume and time kept; nothing else changes |
| `AudioPlayer.ToggleMuteStep` | src/components/AudioPlayer.tsx:68-70 | the mute flag flips; the element stays present or absent and gets the volume or 0, its playing flag and time kept; nothing else changes |
| `AudioPlayer.VolumeChangeStep` | src/components/AudioPlayer.tsx:80-86 | the volume set; mute cleared exactly for a positive value while muted; a zero value keeps the flag; the element gets the new applied volume, its playing flag and time kept |
| `AudioPlayer.EndedStep` | src/components/AudioPlayer.tsx:32-36 | not playing, player and element back at 0 |
| `AudioPlayer.TimeUpdateStep` | src/components/AudioPlayer.tsx:28-30 | the player shows the element's time |
| `AudioPlayer.LoadedDataStep` | src/components/AudioPlayer.tsx:24-26 | the player takes the element's duration |
| `AudioPlayer.ToggleMuteTwice` | src/components/AudioPlayer.tsx:68-70 | muting twice restores player and element |
| `AudioPlayer.TogglePlayTwice` | src/components/AudioPlayer.tsx:56-66 | pressing play twice restores player and element |
| `AudioPlayer.VolumeChangeApplies` | src/components/AudioPlayer.tsx:80-86 | after a slider change the element plays at exactly the slider's value |
| `AudioPlayer.Player.ApplyVolume` | src/components/AudioPlayer.tsx:50-54 | the element, when present, gets 0 when muted and the volume otherwise; nothing else changes |
| `AudioPlayer.Player.constructor` | src/components/AudioPlayer.tsx:12-16 | the mounted player is the initial state, and the invariant holds |
| `AudioPlayer.Player.TogglePlay` | src/components/AudioPlayer.tsx:56-66 | the player is the play step of its old state, invariant kept |
| `AudioPlayer.Player.ToggleMute` | src/components/AudioPlayer.tsx:68-70 | the mute step, invariant kept |
| `AudioPlayer.Player.HandleVolumeChange` | src/components/AudioPlayer.tsx:127-135 | for slider values in [0, 1], the volume step, invariant kept |
| `AudioPlayer.Player.HandleEnded` | src/components/AudioPlayer.tsx:32-36 | the ended step, invariant kept |
| `AudioPlayer.Player.HandleTimeUpdate` | src/components/AudioPlayer.tsx:28-30 | the time-update step, invariant kept |
| `AudioPlayer.Player.HandleLoadedData` | src/components/AudioPlayer.tsx:24-26 | the loaded-data step, invariant kept |
| `Backend.AllowedFile` | backend/app.py:30-31 | true only for a name with a dot whose text after the last dot, lower-cased, is an allowed extension |
| `Backend.AllowedFileMeaning` | backend/app.py:30-31 | true exactly when the name has a last dot and the lower-cased text after it is wav, mp3, flac, aac or m4a |
| `Backend.LastDotOfLower` | backend/app.py:31 | lower-casing a name leaves its last dot where it was |
| `Backend.AllowedFileIgnoresCase` | backend/app.py:31 | lower-casing the name never changes the verdict |
| `Backend.UpperCaseExtensionAllowed` | backend/app.py:31 | "A.WAV" passes |
| `Backend.InnerExtensionIgnored` | backend/app.py:31 | "a.wav.txt" fails: only the last dot counts |
| `Backend.NoDotRejected` | backend/app.py:31 | "noext" fails |
| `Backend.LowerChar` | backend/app.py:31 | upper-case ASCII letters to lower case, every other character unchanged |
| `Backend.Lower` | backend/app.py:31 | the same length, each character lower-cased |
| `Backend.LastIndex` | backend/app.py:31 | the position of the last occurrence of a character, none exactly when it does not occur |
| `Backend.SplitExtRoot` | backend/app.py:103 | the base name is a prefix of the name; it is shorter exactly when the last component has a last dot with a non-dot character before it, and then it ends just before that dot |
| `Backend.ExtensionDotFound` | backend/app.py:103 | the test on the last dot and the last '/' holds exactly when there is a dot `splitext` cuts at |
| `Backend.SplitExtRootExamples` | backend/app.py:103 | "a.b" gives "a"; ".profile" is kept whole |
| `Backend.StemPath` | backend/app.py:109-118 | the path starts with the job id, the base name and `htdemucs_ft` and ends with the type and `.mp3` |
| `Backend.StemPathInjective` | backend/app.py:109-118 | in one job folder, different stem types never share a path |
| `Backend.MakeEntry` | backend/app.py:121-129 | id job id + "_" + type, name base + "_" + type + ".mp3", the loop's type, its path and size |
| `Backend.CollectStems` | backend/app.py:99-131 | no more stems than types, each of a listed type |
| `Backend.CollectStemsPositions` | backend/app.py:99-131 | the stems are the entries of the types whose file exists, in the order of the types, none missing |
| `Backend.CollectedMembership` | backend/app.py:106-129 | a type's entry is collected exactly when the type is listed and its file exists |
| `Backend.CollectedIdsDistinct` | backend/app.py:124 | with distinct types, no two stems share an id |
| `Backend.ResponseStemsOrdered` | backend/app.py:99-131 | the response lists vocals, drums, bass, other in that order |
| `Backend.ResponseStems` | backend/app.py:99-131 | at most four stems, one of a type exactly when its file exists, ids pairwise distinct |
| `Backend.StatusCode` | backend/app.py:52-154 | 200 exactly for success; 400 for the three upload errors; 500 for the separator, run and other errors |
| `Backend.ErrorText` | backend/app.py:146-154 | a failed run reports "Error during separation: " and the error; any other exception its own text |
| `Backend.UploadAccepted` | backend/app.py:52-60 | past the upload checks exactly when there is a file part whose name passes `allowed_file`: an empty name never passes it |
| `Backend.SeparateAnswer` | backend/app.py:51-144 | no file part, then empty name, then disallowed type, then no separator, each checked only when the earlier ones passed; then run errors; otherwise the stems for the job id, with metadata carrying the same id and stems |
| `Backend.BuildStems` | backend/app.py:99-131 | the loop collects exactly the stems of the four types whose files exist |
| `Backend.SeparateAudio` | backend/app.py:51-154 | answers as `SeparateAnswer`; the job id is drawn and the job folder created exactly when all four checks pass |

## Left out

- I/O and the browser or server runtime are inputs or omitted: `fetch`, `FileReader`,
  `AudioContext`, `subprocess`, the file system, `uuid4`, toasts, logging, timers and JSX layout.
  The outcomes of these calls are parameters:
  - `Reply`, `HealthReply`, `DecodeOutcome`, `RunOutcome`;
  - file existence as a predicate and file size as a function.
- `getAudioDetails` never settles when the reader's load event carries no result. The model
  has no outcome for a promise that never resolves.
- Text.NatToString: JavaScript writes numbers from 1e21 up in exponent notation. The model
  always writes plain digits; durations and estimates never come near that size.
- `formatFileSize` is not modelled. Its rendering depends on floating-point `toFixed` and
  logarithms.
- NaN and infinities are not modelled. `formatDuration`'s NaN check and the `|| 0`
  fall-backs therefore have no counterpart.
- The seek on a progress-bar click is not modelled. Neither are the progress-bar widths. Both
  are layout arithmetic on the client's coordinates.
- The `File` handle inside `AudioFile` is not modelled. Only its name, size, type and probed
  details are.
- The outer error handler of `processFile` is not modelled. Once the derived duration and rate
  are in the model, nothing in the modelled steps raises an exception.
- React's batching and re-rendering are modelled as one step per handler, with the
  volume effect run at the end of the handler that changes volume or mute.
- `audio.play()` failing (its rejected promise) is not modelled.
- IndexPage.JobPage.HandleFileSelected: the drag-and-drop path is not modelled. `handleDrop`
  is memoised once (src/components/UploadZone.tsx:111-120), so it keeps the first render's
  `processFile` and, through it, the first render's `handleFileSelected`. In that render the
  page's `stages` is still empty (src/pages/Index.tsx:19, filled by the effect at :23-33). So
  for the first file dropped after the page loads, no progress event finds a stage
  (src/pages/Index.tsx:68-69). The page stays at 0% on "Uploading" with every stage pending
  until the job completes or fails. The model always runs the handler with the live stages,
  which is what the browse button and a zone mounted after a reset do.
- UploadZone.Zone.ProcessFile: for the same reason, the `isProcessing` guard seen by the
  drop path (src/components/UploadZone.tsx:42) is always false. A second file dropped while
  one is being checked is processed as well. The model's guard reads the live flag.
- `secure_filename` is an input: the method receives the name it produced.
- Backend.SplitExtRoot: `os.path.join` and `relpath` normalisation are not modelled. The base
  name is taken as one ordinary path component, which `secure_filename` ensures.
- Backend.ErrorText: for a disallowed type, only the fixed opening of the message is modelled.
  The list of formats that follows it is in the iteration order of a Python set.
- Backend.LowerChar: only ASCII letters are lower-cased. No other character lower-cases to a
  letter of an allowed extension, so `allowed_file` gives the same verdict.
- Exceptions raised before the separation's error handler are not modelled: creating the job
  folder and saving the upload. Removing the uploaded file afterwards is not modelled either.
- `get_stem`, `get_job` and `health_check` on the backend are not part of this model. They
  are file lookups and a process probe.
