/** Upload validation, duration text, the stem mapping, the progress events a separation
    emits, and the download schedule (src/lib/audio-utils.ts). */
module AudioUtils {
  import opened Types
  import opened Text
  import opened ApiService

  /** 500 MiB, the largest accepted upload. */
  const MaxFileSize: int := 500 * 1024 * 1024

  /** The MIME types the client accepts, in `validTypes` order. */
  const ValidTypes: seq<string> := ["audio/wav", "audio/mpeg", "audio/flac", "audio/aac", "audio/mp4", "audio/x-m4a"]

  function IsValidAudioFormat(mimeType: string): (ok: bool)
    ensures ok <==> mimeType == "audio/wav" || mimeType == "audio/mpeg" || mimeType == "audio/flac"
                    || mimeType == "audio/aac" || mimeType == "audio/mp4" || mimeType == "audio/x-m4a"
  {
    mimeType in ValidTypes
  }

  function IsValidFileSize(size: int): (ok: bool)
    ensures ok <==> size <= 524_288_000
  {
    size <= MaxFileSize
  }

  /** The format a MIME type stands for; absent exactly for the types `IsValidAudioFormat` refuses. */
  function GetAudioFormat(mimeType: string): (f: Option<AudioFormat>)
    ensures f.Some? <==> IsValidAudioFormat(mimeType)
    ensures f == Some(Wav) <==> mimeType == "audio/wav"
    ensures f == Some(Mp3) <==> mimeType == "audio/mpeg"
    ensures f == Some(Flac) <==> mimeType == "audio/flac"
    ensures f == Some(Aac) <==> mimeType in {"audio/aac", "audio/mp4", "audio/x-m4a"}
  {
    if mimeType == "audio/wav" then Some(Wav)
    else if mimeType == "audio/mpeg" then Some(Mp3)
    else if mimeType == "audio/flac" then Some(Flac)
    else if mimeType == "audio/aac" || mimeType == "audio/mp4" || mimeType == "audio/x-m4a" then Some(Aac)
    else None
  }

  /** What the browser's decoder reported for a file: its details, a decode error, or a read error. */
  datatype DecodeOutcome = Decoded(duration: real, sampleRate: int) | DecodeFailed | ReadFailed

  datatype AudioDetails = AudioDetails(duration: real, sampleRate: int)

  /** `getAudioDetails`: a decode error still resolves, with 30 s at 44.1 kHz; only a read
      error rejects (`None`). */
  function GetAudioDetails(outcome: DecodeOutcome): (d: Option<AudioDetails>)
    ensures d.None? <==> outcome.ReadFailed?
    ensures outcome.Decoded? ==> d == Some(AudioDetails(outcome.duration, outcome.sampleRate))
    ensures outcome.DecodeFailed? ==> d == Some(AudioDetails(30.0, 44100))
  {
    match outcome
    case Decoded(duration, rate) => Some(AudioDetails(duration, rate))
    case DecodeFailed => Some(AudioDetails(30.0, 44100))
    case ReadFailed => None
  }

  /** JavaScript's `Math.trunc`. */
  function Trunc(x: real): int
  {
    if x >= 0.0 then x.Floor else -((-x).Floor)
  }

  /** JavaScript's `%` on numbers: the remainder takes the sign of the dividend. */
  function JsRem(a: real, b: real): real
    requires b != 0.0
  {
    a - b * (Trunc(a / b) as real)
  }

  /** The "mm:ss" layout: each number rendered and padded to two characters. */
  function ClockText(minutes: int, seconds: int): string
  {
    PadStart2(IntToString(minutes)) + ":" + PadStart2(IntToString(seconds))
  }

  /** `formatDuration` ("mm:ss"); NaN, which exact reals lack, is not modelled. */
  function FormatDuration(seconds: real): (text: string)
    ensures |text| >= 5
    ensures seconds == 0.0 ==> text == "00:00"
    // a negative duration shows negative minutes
    ensures seconds < 0.0 ==> text[0] == '-'
  {
    if seconds == 0.0 then "00:00"
    else ClockText((seconds / 60.0).Floor, JsRem(seconds, 60.0).Floor)
  }

  /** Reads "m…m:ss" back as a number of whole seconds. */
  function ClockSeconds(text: string): Option<int>
  {
    if |text| >= 3 && text[|text| - 3] == ':' then
      match (ReadNumeral(text[..|text| - 3]), ReadNumeral(text[|text| - 2..]))
      case (Some(minutes), Some(seconds)) => Some(60 * minutes + seconds)
      case _ => None
    else None
  }

  lemma FloorShift(x: real, k: int)
    ensures (x - k as real).Floor == x.Floor - k
  {
  }

  /** The two numbers `formatDuration` computes for a positive duration: its whole minutes, and
      the whole seconds 0..59 left over. */
  lemma ClockFields(seconds: real) returns (m: nat, r: nat)
    requires seconds > 0.0
    ensures m == (seconds / 60.0).Floor && r == JsRem(seconds, 60.0).Floor
    ensures r < 60 && 60 * m + r == seconds.Floor
  {
    m := (seconds / 60.0).Floor;
    assert Trunc(seconds / 60.0) == m;
    var rem := JsRem(seconds, 60.0);
    assert rem == seconds - (60 * m) as real;
    FloorShift(seconds, 60 * m);
    r := rem.Floor;
  }

  /** Reading a text made of two numerals around a colon, the second of two characters. */
  lemma ClockRead(text: string, head: string, tail: string, minutes: nat, seconds: nat)
    requires text == head + ":" + tail && |tail| == 2
    requires ReadNumeral(head) == Some(minutes) && ReadNumeral(tail) == Some(seconds)
    ensures ClockSeconds(text) == Some(60 * minutes + seconds)
  {
    assert text[..|text| - 3] == head;
    assert text[|text| - 2..] == tail;
  }

  /** Minutes, and seconds below a minute, laid out as `formatDuration` lays them out, read back as
      their total. */
  lemma ClockTextRoundTrip(m: nat, r: nat)
    requires r < 60
    ensures ClockSeconds(ClockText(m, r)) == Some(60 * m + r)
  {
    var head, tail := PadStart2(NatToString(m)), PadStart2(NatToString(r));
    assert ClockText(m, r) == head + ":" + tail by {
      assert IntToString(m) == NatToString(m);
      assert IntToString(r) == NatToString(r);
    }
    assert ReadNumeral(head) == Some(m) by {
      ParsePadded(m);
      ReadNumeralDigits(head);
    }
    assert ReadNumeral(tail) == Some(r) && |tail| == 2 by {
      ParsePadded(r);
      ReadNumeralDigits(tail);
    }
    ClockRead(ClockText(m, r), head, tail, m, r);
  }

  /** A positive duration's text is the clock of its whole minutes and leftover seconds. */
  lemma FormatDurationClock(seconds: real) returns (m: nat, r: nat)
    requires seconds > 0.0
    ensures FormatDuration(seconds) == ClockText(m, r)
    ensures r < 60 && 60 * m + r == seconds.Floor
  {
    m, r := ClockFields(seconds);
  }

  lemma FormatDurationRoundTripPositive(seconds: real)
    requires seconds > 0.0
    ensures ClockSeconds(FormatDuration(seconds)) == Some(seconds.Floor)
  {
    var m, r := ClockFields(seconds);
    assert FormatDuration(seconds) == ClockText(m, r);
    assert ClockSeconds(ClockText(m, r)) == Some(60 * m + r) by {
      ClockTextRoundTrip(m, r);
    }
  }

  /** Reading the text back gives the whole seconds of any non-negative duration. */
  lemma FormatDurationRoundTrip(seconds: real)
    requires seconds >= 0.0
    ensures ClockSeconds(FormatDuration(seconds)) == Some(seconds.Floor)
  {
    if seconds == 0.0 {
      assert ReadNumeral("00") == Some(0) by {
        assert "00"[..1] == "0";
        assert "0"[..0] == "";
      }
      ClockRead(FormatDuration(seconds), "00", "00", 0, 0);
    } else {
      FormatDurationRoundTripPositive(seconds);
    }
  }

  /** The client's stem type for a wire type name: anything unrecognised is "other". */
  function StemTypeOf(name: string): (t: StemType)
    ensures name in {"vocals", "drums", "bass", "other"} ==> StemTypeName(t) == name
    ensures name !in {"vocals", "drums", "bass"} ==> t == Other
  {
    if name == "vocals" then Vocals
    else if name == "drums" then Drums
    else if name == "bass" then Bass
    else Other
  }

  /** Duration given to every stem: the file's when known and non-zero, else 30 s. */
  function StemDuration(fileDuration: Option<real>): (d: real)
    ensures fileDuration.Some? && fileDuration.value != 0.0 ==> d == fileDuration.value
    ensures fileDuration.None? || fileDuration.value == 0.0 ==> d == 30.0
  {
    if fileDuration.Some? && fileDuration.value != 0.0 then fileDuration.value else 30.0
  }

  /** One backend stem descriptor as a client `Stem`. */
  function ToStem(d: StemDescriptor, fileDuration: Option<real>): (s: Stem)
    ensures s.id == d.id && s.name == d.name && s.size == d.size
    ensures s.stemType == StemTypeOf(d.stemType)
    ensures s.url == GetStemUrl(d.path)
    ensures s.format == Wav && s.sampleRate == 44100 && s.channels == 2
    ensures s.duration == StemDuration(fileDuration)
  {
    Stem(d.id, StemTypeOf(d.stemType), d.name, GetStemUrl(d.path), StemDuration(fileDuration), d.size, Wav, 44100, 2)
  }

  /** The response's stems mapped one for one, in order. */
  function MapStems(descriptors: seq<StemDescriptor>, fileDuration: Option<real>): (stems: seq<Stem>)
    ensures |stems| == |descriptors|
    ensures forall i :: 0 <= i < |stems| ==> stems[i] == ToStem(descriptors[i], fileDuration)
  {
    seq(|descriptors|, i requires 0 <= i < |descriptors| => ToStem(descriptors[i], fileDuration))
  }

  /** One call of the progress callback. */
  datatype ProgressEvent = ProgressEvent(stage: string, percent: real)

  /** The first `n` simulated upload ticks: "Uploading" at 0, 10, 20, … percent. */
  function UploadTicks(n: nat): (ticks: seq<ProgressEvent>)
    ensures |ticks| == n
    ensures forall i :: 0 <= i < n ==> ticks[i] == ProgressEvent("Uploading", (10 * i) as real)
  {
    if n == 0 then [] else UploadTicks(n - 1) + [ProgressEvent("Uploading", (10 * (n - 1)) as real)]
  }

  /** The callbacks `separateStems` makes: an opening "Uploading" at 0, eleven upload ticks,
      "Processing" at 0, then "Finalizing" at 100 only when the backend call succeeded. */
  function SeparationTrace(succeeded: bool): (t: seq<ProgressEvent>)
    ensures |t| == if succeeded then 14 else 13
    ensures t[|t| - 1].stage == "Finalizing" <==> succeeded
  {
    [ProgressEvent("Uploading", 0.0)] + UploadTicks(11) + [ProgressEvent("Processing", 0.0)]
    + (if succeeded then [ProgressEvent("Finalizing", 100.0)] else [])
  }

  lemma SeparationTraceShape(succeeded: bool)
    ensures var t := SeparationTrace(succeeded);
            && |t| == (if succeeded then 14 else 13)
            && (forall i :: 0 <= i < |t| ==> 0.0 <= t[i].percent <= 100.0)
            && t[0] == ProgressEvent("Uploading", 0.0)
            && (forall i :: 1 <= i <= 11 ==> t[i] == ProgressEvent("Uploading", (10 * (i - 1)) as real))
            && t[12] == ProgressEvent("Processing", 0.0)
            && (succeeded ==> t[13] == ProgressEvent("Finalizing", 100.0))
  {
    var t := SeparationTrace(succeeded);
    var ticks := UploadTicks(11);
    forall i | 1 <= i <= 11 ensures t[i] == ticks[i - 1] {
    }
  }

  /** `separateStems`.  The upload ticks come from `separateStems`'s counting loop; the backend
      call's settlement is the input `reply`.  A failed call rejects with the call's message,
      after "Processing" was reported and before "Finalizing". */
  method SeparateStems(file: AudioFile, reply: Reply<SeparationResponse>)
    returns (events: seq<ProgressEvent>, result: Outcome<seq<Stem>>)
    ensures events == SeparationTrace(reply.Ok?)
    ensures result.Success? <==> reply.Ok?
    ensures reply.Ok? ==> result.value == MapStems(reply.body.stems, file.duration)
    ensures !reply.Ok? ==> result.message == SeparateAudioFile(reply).message
  {
    events := [ProgressEvent("Uploading", 0.0)];
    var progress := 0;
    while progress <= 100
      invariant 0 <= progress <= 110 && progress % 10 == 0
      invariant events == [ProgressEvent("Uploading", 0.0)] + UploadTicks(progress / 10)
    {
      events := events + [ProgressEvent("Uploading", progress as real)];
      progress := progress + 10;
    }
    events := events + [ProgressEvent("Processing", 0.0)];
    var response := SeparateAudioFile(reply);
    if response.Failure? {
      result := Failure(response.message);
      return;
    }
    var stems := MapStems(response.value.stems, file.duration);
    events := events + [ProgressEvent("Finalizing", 100.0)];
    result := Success(stems);
  }

  /** A delayed `downloadStem`: open `url` after `delayMs` milliseconds. */
  datatype ScheduledDownload = ScheduledDownload(delayMs: nat, url: string)

  /** `downloadAllStems`: stem `i` is opened after `i` seconds. */
  method DownloadAllStems(stems: seq<Stem>) returns (schedule: seq<ScheduledDownload>)
    ensures |schedule| == |stems|
    ensures forall i :: 0 <= i < |stems| ==> schedule[i] == ScheduledDownload(i * 1000, stems[i].url)
    ensures forall i, j :: 0 <= i < j < |schedule| ==> schedule[i].delayMs < schedule[j].delayMs
  {
    schedule := [];
    var index := 0;
    while index < |stems|
      invariant 0 <= index <= |stems| && |schedule| == index
      invariant forall i :: 0 <= i < index ==> schedule[i] == ScheduledDownload(i * 1000, stems[i].url)
    {
      schedule := schedule + [ScheduledDownload(index * 1000, stems[index].url)];
      index := index + 1;
    }
  }
}
