/** The upload drop zone's accept/reject procedure (`processFile` in
    src/components/UploadZone.tsx).  What the browser's decoder makes of the file is an input. */
module UploadZone {
  import opened Types
  import opened AudioUtils

  /** The browser `File` as far as the checks look at it. */
  datatype BrowserFile = BrowserFile(name: string, size: int, mimeType: string)

  /** Why a file is turned away; each reason has its own error toast. */
  datatype Rejection = UnsupportedFormat | FileTooLarge | UnknownFormat

  /** Warnings that let the file through. */
  datatype Warning = NonStandardSampleRate | DetailsUnavailable

  /** Result of one `processFile` call. */
  datatype ZoneOutcome = Ignored | Rejected(reason: Rejection) | Accepted(file: AudioFile, warnings: seq<Warning>)

  /** The error toast for each rejection; no two reasons share a text. */
  function RejectionMessage(reason: Rejection): (m: string)
    ensures |m| > 0
    ensures reason == UnsupportedFormat <==> m[0] == 'U'
    ensures reason == FileTooLarge <==> m[0] == 'F'
    ensures reason == UnknownFormat <==> m[0] == 'C'
  {
    match reason
    case UnsupportedFormat => "Unsupported file format. " + "Please upload WAV, MP3, FLAC, or AAC files."
    case FileTooLarge => "File too large. Maximum file size is 500MB."
    case UnknownFormat => "Could not determine audio format."
  }

  /** Different reasons give different toasts. */
  lemma RejectionMessageInjective(a: Rejection, b: Rejection)
    requires RejectionMessage(a) == RejectionMessage(b)
    ensures a == b
  {
  }

  predicate StandardSampleRate(rate: int) { rate == 44100 || rate == 48000 }

  /** The checks of `processFile` once it runs: format, then size, then the derived format; then the
      file is accepted with the probed duration and rate, or without them when the probe rejected.
      The sample-rate check only warns. */
  function Screen(file: BrowserFile, probe: DecodeOutcome): (o: ZoneOutcome)
    ensures o != Ignored
    // the derived-format check never fails once the format check has passed
    ensures o != Rejected(UnknownFormat)
    ensures o == Rejected(UnsupportedFormat) <==> !IsValidAudioFormat(file.mimeType)
    ensures o == Rejected(FileTooLarge) <==> IsValidAudioFormat(file.mimeType) && !IsValidFileSize(file.size)
    ensures o.Accepted? <==> IsValidAudioFormat(file.mimeType) && IsValidFileSize(file.size)
    ensures o.Accepted? ==>
              && o.file.name == file.name && o.file.size == file.size
              && Some(o.file.format) == GetAudioFormat(file.mimeType)
    ensures o.Accepted? && GetAudioDetails(probe).Some? ==>
              && o.file.duration == Some(GetAudioDetails(probe).value.duration)
              && o.file.sampleRate == Some(GetAudioDetails(probe).value.sampleRate)
              && (NonStandardSampleRate in o.warnings <==> !StandardSampleRate(GetAudioDetails(probe).value.sampleRate))
              && DetailsUnavailable !in o.warnings
    ensures o.Accepted? && GetAudioDetails(probe).None? ==>
              o.file.duration == None && o.file.sampleRate == None && o.warnings == [DetailsUnavailable]
  {
    if !IsValidAudioFormat(file.mimeType) then Rejected(UnsupportedFormat)
    else if !IsValidFileSize(file.size) then Rejected(FileTooLarge)
    else match GetAudioFormat(file.mimeType)
      case None => Rejected(UnknownFormat)
      case Some(format) =>
        match GetAudioDetails(probe)
        case Some(details) =>
          Accepted(AudioFile(file.name, file.size, format, Some(details.duration), Some(details.sampleRate)),
                   if StandardSampleRate(details.sampleRate) then [] else [NonStandardSampleRate])
        case None =>
          Accepted(AudioFile(file.name, file.size, format, None, None), [DetailsUnavailable])
  }

  /** The zone's one piece of state: whether a file is being processed. */
  class Zone {
    var isProcessing: bool

    constructor ()
      ensures !isProcessing
    {
      isProcessing := false;
    }

    /** `processFile`.  While a file is in hand a second call does nothing; otherwise the checks
        run in order, each failure returning early, and the flag is cleared on every path.
        `selected` lists the calls made to `onFileSelected`. */
    method ProcessFile(file: BrowserFile, probe: DecodeOutcome) returns (outcome: ZoneOutcome, selected: seq<AudioFile>)
      modifies this
      ensures outcome == if old(isProcessing) then Ignored else Screen(file, probe)
      ensures selected == if outcome.Accepted? then [outcome.file] else []
      ensures isProcessing == old(isProcessing)
    {
      selected := [];
      if isProcessing {
        outcome := Ignored;
        return;
      }
      isProcessing := true;

      if !IsValidAudioFormat(file.mimeType) {
        outcome := Rejected(UnsupportedFormat);
        isProcessing := false;
        return;
      }

      if !IsValidFileSize(file.size) {
        outcome := Rejected(FileTooLarge);
        isProcessing := false;
        return;
      }

      var format := GetAudioFormat(file.mimeType);
      if format.None? {
        // `processFile` rejects with UnknownFormat here; every type that passed the format
        // check has a format, so this branch is dead.
        assert false;
      }

      var details := GetAudioDetails(probe);
      if details.Some? {
        var warnings := [];
        if !StandardSampleRate(details.value.sampleRate) {
          warnings := warnings + [NonStandardSampleRate];
        }
        var audioFile := AudioFile(file.name, file.size, format.value, Some(details.value.duration), Some(details.value.sampleRate));
        selected := selected + [audioFile];
        outcome := Accepted(audioFile, warnings);
      } else {
        var audioFile := AudioFile(file.name, file.size, format.value, None, None);
        selected := selected + [audioFile];
        outcome := Accepted(audioFile, [DetailsUnavailable]);
      }

      isProcessing := false;
    }
  }
}
