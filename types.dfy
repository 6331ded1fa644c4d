/** The records and enumerations shared by the client (src/lib/types.ts). */
module Types {

  datatype Option<+T> = None | Some(value: T)

  /** Container formats the client distinguishes. */
  datatype AudioFormat = Wav | Mp3 | Flac | Aac

  /** The four kinds of stem the separator produces. */
  datatype StemType = Vocals | Drums | Bass | Other

  /** Status of one processing stage. */
  datatype StageStatus = Pending | Processing | Completed | Failed

  /** Status of the one live job. */
  datatype JobStatus = Idle | Uploading | Processing | Completed | Error

  /** A file the user has chosen; duration and sample rate are known only when the browser
      could read them.  The browser's `File` handle it also carries is not modelled. */
  datatype AudioFile = AudioFile(
    name: string,
    size: int,
    format: AudioFormat,
    duration: Option<real>,
    sampleRate: Option<int>)

  /** One entry of the stage registry. */
  datatype ProcessingStage = ProcessingStage(id: string, name: string, progress: real, status: StageStatus)

  /** A finished stem, every field present. */
  datatype Stem = Stem(
    id: string,
    stemType: StemType,
    name: string,
    url: string,
    duration: real,
    size: int,
    format: AudioFormat,
    sampleRate: int,
    channels: int)

  /** The wire spelling of a stem type. */
  function StemTypeName(t: StemType): (s: string)
    ensures s in {"vocals", "drums", "bass", "other"}
  {
    match t
    case Vocals => "vocals"
    case Drums => "drums"
    case Bass => "bass"
    case Other => "other"
  }

  /** The wire spelling of an audio format. */
  function FormatName(f: AudioFormat): (s: string)
    ensures s in {"wav", "mp3", "flac", "aac"}
  {
    match f
    case Wav => "wav"
    case Mp3 => "mp3"
    case Flac => "flac"
    case Aac => "aac"
  }

  /** Distinct stem types and distinct formats are spelled differently. */
  lemma NamesDistinct()
    ensures forall a: StemType, b: StemType :: StemTypeName(a) == StemTypeName(b) ==> a == b
    ensures forall a: AudioFormat, b: AudioFormat :: FormatName(a) == FormatName(b) ==> a == b
  {
  }
}
