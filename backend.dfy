/** The separation endpoint of the Flask backend (backend/app.py): the upload-name check, the
    order of the request checks, and the stem list built from what the separator wrote.  The
    file system, the separator process and the UUID source are inputs. */
module Backend {
  import opened Types

  const AllowedExtensions: set<string> := {"wav", "mp3", "flac", "aac", "m4a"}

  /** Python's `str.lower` on ASCII letters; every other character is left alone. */
  function LowerChar(c: char): (d: char)
    ensures 'A' <= c <= 'Z' ==> d as int == c as int + 32
    ensures !('A' <= c <= 'Z') ==> d == c
  {
    if 'A' <= c <= 'Z' then (c as int + 32) as char else c
  }

  function Lower(s: string): (r: string)
    ensures |r| == |s|
    ensures forall i :: 0 <= i < |s| ==> r[i] == LowerChar(s[i])
  {
    seq(|s|, i requires 0 <= i < |s| => LowerChar(s[i]))
  }

  /** Position of the last `c` in `s`, if any (`str.rfind`). */
  function LastIndex(s: string, c: char): (k: Option<nat>)
    ensures k.None? <==> c !in s
    ensures k.Some? ==> k.value < |s| && s[k.value] == c
    ensures k.Some? ==> forall j :: k.value < j < |s| ==> s[j] != c
  {
    if s == [] then None
    else if s[|s| - 1] == c then Some(|s| - 1)
    else LastIndex(s[..|s| - 1], c)
  }

  /** `allowed_file`: the name has a dot, and what follows the last dot, lower-cased, is one of
      the allowed extensions. */
  function AllowedFile(filename: string): (ok: bool)
    ensures ok ==> '.' in filename
    ensures ok ==> Lower(filename[LastIndex(filename, '.').value + 1..]) in AllowedExtensions
  {
    var k := LastIndex(filename, '.');
    k.Some? && Lower(filename[k.value + 1..]) in AllowedExtensions
  }

  /** A dot with no dot after it is the last dot. */
  predicate IsLastDot(s: string, i: int)
  {
    0 <= i < |s| && s[i] == '.' && forall j :: i < j < |s| ==> s[j] != '.'
  }

  lemma LastDotUnique(s: string, i: int, k: int)
    requires IsLastDot(s, i) && IsLastDot(s, k)
    ensures i == k
  {
  }

  /** `allowed_file` is true exactly when the name has a last dot and the lower-cased text after
      it is an allowed extension. */
  lemma AllowedFileMeaning(filename: string)
    ensures AllowedFile(filename) <==>
              exists i :: IsLastDot(filename, i) && Lower(filename[i + 1..]) in AllowedExtensions
  {
    var k := LastIndex(filename, '.');
    if k.Some? {
      assert IsLastDot(filename, k.value);
      forall i | IsLastDot(filename, i) ensures i == k.value {
        LastDotUnique(filename, i, k.value);
      }
    }
  }

  /** The extension check does not see letter case. */
  lemma AllowedFileIgnoresCase(filename: string)
    ensures AllowedFile(Lower(filename)) == AllowedFile(filename)
  {
    var l := Lower(filename);
    LastDotOfLower(filename);
    var k := LastIndex(filename, '.');
    if k.Some? {
      assert l[k.value + 1..] == Lower(filename[k.value + 1..]);
      assert Lower(l[k.value + 1..]) == Lower(filename[k.value + 1..]);
    }
  }

  /** Lower-casing keeps every dot where it was and adds none. */
  lemma {:induction false} LastDotOfLower(s: string)
    ensures LastIndex(Lower(s), '.') == LastIndex(s, '.')
    decreases |s|
  {
    if s != [] {
      var init := s[..|s| - 1];
      assert Lower(s)[..|s| - 1] == Lower(init);
      LastDotOfLower(init);
    }
  }

  /** An upper-case extension passes. */
  lemma UpperCaseExtensionAllowed()
    ensures AllowedFile("A.WAV")
  {
    var s := "A.WAV";
    assert s[1] == '.' && s[2] != '.' && s[3] != '.' && s[4] != '.';
    assert s[2..] == "WAV";
    assert Lower("WAV") == "wav";
  }

  /** Only the last dot counts. */
  lemma InnerExtensionIgnored()
    ensures !AllowedFile("a.wav.txt")
  {
    var s := "a.wav.txt";
    var k := LastIndex(s, '.');
    assert s[5] == '.' && s[6] != '.' && s[7] != '.' && s[8] != '.';
    assert k.value == 5;
    assert s[6..] == "txt";
    assert Lower("txt") == "txt";
  }

  /** A name without a dot never passes. */
  lemma NoDotRejected()
    ensures !AllowedFile("noext")
  {
    var s := "noext";
    assert s[0] != '.' && s[1] != '.' && s[2] != '.' && s[3] != '.' && s[4] != '.';
    assert LastIndex(s, '.').None?;
  }

  /** `d` is the dot `os.path.splitext` cuts at: the last dot of `path`, in its last component
      (no '/' after it), with a character other than a dot before it in that component. */
  predicate ExtensionDot(path: string, d: int)
  {
    && 0 <= d < |path| && path[d] == '.'
    && (forall j :: d < j < |path| ==> path[j] != '.' && path[j] != '/')
    && (exists i :: 0 <= i < d && path[i] != '.' && (forall j :: i <= j < d ==> path[j] != '/'))
  }

  /** `os.path.splitext(...)[0]` on a POSIX path: the text before the last dot of the last
      component, unless that dot is preceded only by dots in it (a hidden file keeps its name). */
  function SplitExtRoot(path: string): (root: string)
    ensures |root| <= |path| && root == path[..|root|]
    // an extension is cut exactly when there is a dot to cut at, and then at that dot
    ensures root != path <==> exists d :: ExtensionDot(path, d)
    ensures root != path ==> ExtensionDot(path, |root|)
  {
    var dot := LastIndex(path, '.');
    var start := ComponentStart(path);
    ExtensionDotFound(path);
    if dot.Some? && dot.value >= start && (exists i :: start <= i < dot.value && path[i] != '.') then
      path[..dot.value]
    else
      path
  }

  /** The start of the last path component: just past the last '/'. */
  function ComponentStart(path: string): nat
  {
    var sep := LastIndex(path, '/');
    if sep.Some? then sep.value + 1 else 0
  }

  /** The test `SplitExtRoot` makes on the last dot holds exactly when there is an extension dot. */
  lemma ExtensionDotFound(path: string)
    ensures var dot := LastIndex(path, '.');
            (exists d :: ExtensionDot(path, d)) <==>
              dot.Some? && dot.value >= ComponentStart(path)
              && (exists i :: ComponentStart(path) <= i < dot.value && path[i] != '.')
    ensures LastIndex(path, '.').Some? && LastIndex(path, '.').value >= ComponentStart(path)
              && (exists i :: ComponentStart(path) <= i < LastIndex(path, '.').value && path[i] != '.')
            ==> ExtensionDot(path, LastIndex(path, '.').value)
  {
    var dot := LastIndex(path, '.');
    var start := ComponentStart(path);
    if exists d :: ExtensionDot(path, d) {
      var d :| ExtensionDot(path, d);
      var i :| 0 <= i < d && path[i] != '.' && (forall j :: i <= j < d ==> path[j] != '/');
      assert dot == Some(d);
      assert start <= i;
    }
    if dot.Some? && dot.value >= start && (exists i :: start <= i < dot.value && path[i] != '.') {
      var i :| start <= i < dot.value && path[i] != '.';
      assert forall j :: i <= j < dot.value ==> path[j] != '/';
      assert ExtensionDot(path, dot.value);
    }
  }

  /** `splitext` cuts the last extension of the last component and keeps hidden names whole. */
  lemma SplitExtRootExamples()
    ensures SplitExtRoot("a.b") == "a"
    ensures SplitExtRoot(".profile") == ".profile"
  {
    assert ExtensionDot("a.b", 1) by {
      assert "a.b"[0] != '.';
    }
    var p := ".profile";
    assert p[1] != '.' && p[2] != '.' && p[3] != '.' && p[4] != '.' && p[5] != '.' && p[6] != '.' && p[7] != '.';
    assert LastIndex(p, '.') == Some(0);
  }

  /** The stem types the separator is expected to write, in response order. */
  const StemTypes: seq<string> := ["vocals", "drums", "bass", "other"]

  /** Path of a stem relative to the output folder, as `os.path.relpath` gives it for
      `<output>/<job>/<base>/htdemucs_ft/<type>.mp3`. */
  function StemPath(jobId: string, base: string, stemType: string): (path: string)
    ensures |path| == |jobId| + |base| + 14 + |stemType| + 4
    ensures path[..|jobId| + |base| + 14] == jobId + "/" + base + "/htdemucs_ft/"
    ensures path[|jobId| + |base| + 14..] == stemType + ".mp3"
  {
    jobId + "/" + base + "/htdemucs_ft/" + stemType + ".mp3"
  }

  /** Within one job folder, different stem types never share a path. */
  lemma StemPathInjective(jobId: string, base: string, a: string, b: string)
    requires StemPath(jobId, base, a) == StemPath(jobId, base, b)
    ensures a == b
  {
    var n := |jobId| + |base| + 14;
    assert a + ".mp3" == StemPath(jobId, base, a)[n..];
    assert a == (a + ".mp3")[..|a|];
    assert b == (b + ".mp3")[..|b|];
  }

  /** A stem record of the response. */
  datatype StemEntry = StemEntry(id: string, name: string, stemType: string, path: string, size: nat)

  function MakeEntry(jobId: string, base: string, stemType: string, size: nat): (e: StemEntry)
    ensures e.id == jobId + "_" + stemType
    ensures e.name == base + "_" + stemType + ".mp3"
    ensures e.stemType == stemType && e.size == size
    ensures e.path == StemPath(jobId, base, stemType)
  {
    StemEntry(jobId + "_" + stemType, base + "_" + stemType + ".mp3", stemType, StemPath(jobId, base, stemType), size)
  }

  /** The stems the loop collects over `types`: one entry per type whose file exists, in order. */
  function CollectStems(jobId: string, base: string, types: seq<string>,
                        fileExists: string -> bool, sizeOf: string -> nat): (stems: seq<StemEntry>)
    ensures |stems| <= |types|
    ensures forall k :: 0 <= k < |stems| ==> stems[k].stemType in types
  {
    if types == [] then []
    else
      var rest := CollectStems(jobId, base, types[..|types| - 1], fileExists, sizeOf);
      var t := types[|types| - 1];
      var path := StemPath(jobId, base, t);
      if fileExists(path) then rest + [MakeEntry(jobId, base, t, sizeOf(path))] else rest
  }

  /** The entry the loop appends for `stemType` when its file exists. */
  function Entry(jobId: string, base: string, stemType: string, sizeOf: string -> nat): StemEntry
  {
    MakeEntry(jobId, base, stemType, sizeOf(StemPath(jobId, base, stemType)))
  }

  predicate Found(jobId: string, base: string, stemType: string, fileExists: string -> bool)
  {
    fileExists(StemPath(jobId, base, stemType))
  }

  /** `positions` says which of `types` each of `stems` came from: strictly increasing, each a
      type whose file exists, and missing none of them. */
  ghost predicate Picks(positions: seq<nat>, stems: seq<StemEntry>, jobId: string, base: string,
                        types: seq<string>, fileExists: string -> bool, sizeOf: string -> nat)
  {
    && |positions| == |stems|
    && (forall i :: 0 <= i < |positions| ==>
          && positions[i] < |types|
          && Found(jobId, base, types[positions[i]], fileExists)
          && stems[i] == Entry(jobId, base, types[positions[i]], sizeOf))
    && (forall i, j :: 0 <= i < j < |positions| ==> positions[i] < positions[j])
    && (forall k :: 0 <= k < |types| && Found(jobId, base, types[k], fileExists) ==> k in positions)
  }

  lemma PicksExtend(positions: seq<nat>, stems: seq<StemEntry>, jobId: string, base: string,
                    types: seq<string>, t: string, fileExists: string -> bool, sizeOf: string -> nat)
    requires Picks(positions, stems, jobId, base, types, fileExists, sizeOf)
    ensures Found(jobId, base, t, fileExists) ==>
              Picks(positions + [|types|], stems + [Entry(jobId, base, t, sizeOf)], jobId, base, types + [t], fileExists, sizeOf)
    ensures !Found(jobId, base, t, fileExists) ==>
              Picks(positions, stems, jobId, base, types + [t], fileExists, sizeOf)
  {
    var longer := types + [t];
    assert forall k :: 0 <= k < |types| ==> longer[k] == types[k];
  }

  /** The collected stems are the entries of the types whose file exists, in the order of
      `types`. */
  lemma {:induction false} CollectStemsPositions(jobId: string, base: string, types: seq<string>,
                                                fileExists: string -> bool, sizeOf: string -> nat)
      returns (positions: seq<nat>)
    ensures Picks(positions, CollectStems(jobId, base, types, fileExists, sizeOf), jobId, base, types, fileExists, sizeOf)
    decreases |types|
  {
    if types == [] {
      positions := [];
    } else {
      var prefix := types[..|types| - 1];
      var t := types[|types| - 1];
      assert types == prefix + [t];
      var earlier := CollectStemsPositions(jobId, base, prefix, fileExists, sizeOf);
      PicksExtend(earlier, CollectStems(jobId, base, prefix, fileExists, sizeOf), jobId, base, prefix, t, fileExists, sizeOf);
      positions := if Found(jobId, base, t, fileExists) then earlier + [|prefix|] else earlier;
    }
  }

  /** A type's entry is collected exactly when the type is listed and its file exists. */
  lemma CollectedMembership(jobId: string, base: string, types: seq<string>,
                            fileExists: string -> bool, sizeOf: string -> nat, t: string)
    ensures Entry(jobId, base, t, sizeOf) in CollectStems(jobId, base, types, fileExists, sizeOf)
            <==> t in types && Found(jobId, base, t, fileExists)
  {
    var stems := CollectStems(jobId, base, types, fileExists, sizeOf);
    var positions := CollectStemsPositions(jobId, base, types, fileExists, sizeOf);
    if Entry(jobId, base, t, sizeOf) in stems {
      var i :| 0 <= i < |stems| && stems[i] == Entry(jobId, base, t, sizeOf);
      assert t == types[positions[i]];
    }
    if t in types && Found(jobId, base, t, fileExists) {
      var k :| 0 <= k < |types| && types[k] == t;
      var i :| 0 <= i < |positions| && positions[i] == k;
      assert stems[i] == Entry(jobId, base, t, sizeOf);
    }
  }

  predicate Distinct(xs: seq<string>)
  {
    forall i, j :: 0 <= i < j < |xs| ==> xs[i] != xs[j]
  }

  lemma IdSuffixInjective(jobId: string, a: string, b: string)
    requires jobId + "_" + a == jobId + "_" + b
    ensures a == b
  {
    var n := |jobId| + 1;
    assert a == (jobId + "_" + a)[n..];
    assert b == (jobId + "_" + b)[n..];
  }

  /** With distinct types, no two collected stems share an id. */
  lemma CollectedIdsDistinct(jobId: string, base: string, types: seq<string>,
                             fileExists: string -> bool, sizeOf: string -> nat)
    requires Distinct(types)
    ensures var stems := CollectStems(jobId, base, types, fileExists, sizeOf);
            forall i, j :: 0 <= i < j < |stems| ==> stems[i].id != stems[j].id
  {
    var stems := CollectStems(jobId, base, types, fileExists, sizeOf);
    var positions := CollectStemsPositions(jobId, base, types, fileExists, sizeOf);
    forall i, j | 0 <= i < j < |stems|
      ensures stems[i].id != stems[j].id
    {
      assert types[positions[i]] != types[positions[j]];
      if stems[i].id == stems[j].id {
        IdSuffixInjective(jobId, stems[i].stemType, stems[j].stemType);
      }
    }
  }

  /** The response lists its stems in the order vocals, drums, bass, other. */
  lemma ResponseStemsOrdered(jobId: string, base: string, fileExists: string -> bool, sizeOf: string -> nat)
    ensures var stems := CollectStems(jobId, base, StemTypes, fileExists, sizeOf);
            forall i, j :: 0 <= i < j < |stems| ==> StemTypeRank(stems[i].stemType) < StemTypeRank(stems[j].stemType)
  {
    var stems := CollectStems(jobId, base, StemTypes, fileExists, sizeOf);
    var positions := CollectStemsPositions(jobId, base, StemTypes, fileExists, sizeOf);
    forall i | 0 <= i < |stems|
      ensures StemTypeRank(stems[i].stemType) == positions[i]
    {
      RankOfType(positions[i]);
    }
  }

  /** The response's stems: at most four, one of each type exactly when its file exists, and no
      id twice. */
  lemma ResponseStems(jobId: string, base: string, fileExists: string -> bool, sizeOf: string -> nat)
    ensures var stems := CollectStems(jobId, base, StemTypes, fileExists, sizeOf);
            && |stems| <= 4
            && (forall k :: 0 <= k < 4 ==>
                  (Entry(jobId, base, StemTypes[k], sizeOf) in stems <==> Found(jobId, base, StemTypes[k], fileExists)))
            && (forall i, j :: 0 <= i < j < |stems| ==> stems[i].id != stems[j].id)
  {
    assert Distinct(StemTypes);
    CollectedIdsDistinct(jobId, base, StemTypes, fileExists, sizeOf);
    forall k | 0 <= k < 4
      ensures Entry(jobId, base, StemTypes[k], sizeOf) in CollectStems(jobId, base, StemTypes, fileExists, sizeOf)
              <==> Found(jobId, base, StemTypes[k], fileExists)
    {
      CollectedMembership(jobId, base, StemTypes, fileExists, sizeOf, StemTypes[k]);
    }
  }

  /** Index of a stem type in `StemTypes`. */
  function StemTypeRank(t: string): nat
  {
    if t == "vocals" then 0 else if t == "drums" then 1 else if t == "bass" then 2 else 3
  }

  lemma RankOfType(k: nat)
    requires k < 4
    ensures StemTypeRank(StemTypes[k]) == k
  {
  }

  /** The `file` part of the multipart upload: absent, or present with its file name. */
  datatype UploadRequest = UploadRequest(filePart: Option<string>)

  /** Why `/api/separate` answers with an error. */
  datatype SeparateError =
    | NoFilePart
    | NoSelectedFile
    | FileTypeNotAllowed
    | SeparatorUnavailable
    | SeparationFailed(detail: string)
    | UnexpectedError(detail: string)

  /** How the separation run went: it finished, the separator exited with an error, or
      something else raised an exception. */
  datatype RunOutcome = Finished | ProcessFailed(message: string) | Crashed(message: string)

  /** The `metadata.json` record written to the job folder. */
  datatype Metadata = Metadata(jobId: string, originalFile: string, stems: seq<StemEntry>)

  datatype SeparateResponse =
    | ErrorReply(error: SeparateError)
    | Separated(jobId: string, stems: seq<StemEntry>, metadata: Metadata)

  function StatusCode(r: SeparateResponse): (code: int)
    ensures code == 200 <==> r.Separated?
    ensures r.ErrorReply? && (r.error.NoFilePart? || r.error.NoSelectedFile? || r.error.FileTypeNotAllowed?) ==> code == 400
    ensures r.ErrorReply? && (r.error.SeparatorUnavailable? || r.error.SeparationFailed? || r.error.UnexpectedError?) ==> code == 500
  {
    match r
    case Separated(_, _, _) => 200
    case ErrorReply(e) =>
      if e.NoFilePart? || e.NoSelectedFile? || e.FileTypeNotAllowed? then 400 else 500
  }

  /** The `error` text of a failed response.  For a disallowed type it is the fixed part of the
      message; the list of formats that follows it is in Python's set order. */
  function ErrorText(e: SeparateError): (text: string)
    ensures e.SeparationFailed? ==> text == "Error during separation: " + e.detail
    ensures e.UnexpectedError? ==> text == e.detail
  {
    match e
    case NoFilePart => "No file part"
    case NoSelectedFile => "No selected file"
    case FileTypeNotAllowed => "File type not allowed. Supported formats: "
    case SeparatorUnavailable => "audio-separator is not installed or not in PATH. Please install audio-separator to use this service."
    case SeparationFailed(detail) => "Error during separation: " + detail
    case UnexpectedError(detail) => detail
  }

  /** Whether a request gets past the three upload checks. */
  function UploadAccepted(request: UploadRequest): (ok: bool)
    // a name without a dot fails the type check, so the empty-name check never decides alone
    ensures ok <==> request.filePart.Some? && AllowedFile(request.filePart.value)
  {
    request.filePart.Some? && request.filePart.value != "" && AllowedFile(request.filePart.value)
  }

  /** The endpoint's answer: the upload checks and the separator check in that order, then the
      run, then the stems found under the job folder, with the metadata repeating them. */
  function SeparateAnswer(request: UploadRequest, separatorAvailable: bool, jobId: string,
                          securedName: string, run: RunOutcome,
                          fileExists: string -> bool, sizeOf: string -> nat): (r: SeparateResponse)
    ensures r == ErrorReply(NoFilePart) <==> request.filePart.None?
    ensures r == ErrorReply(NoSelectedFile) <==> request.filePart == Some("")
    ensures r == ErrorReply(FileTypeNotAllowed) <==>
              request.filePart.Some? && request.filePart.value != "" && !AllowedFile(request.filePart.value)
    ensures r == ErrorReply(SeparatorUnavailable) <==> UploadAccepted(request) && !separatorAvailable
    ensures r.ErrorReply? && (r.error.SeparationFailed? || r.error.UnexpectedError?) <==>
              UploadAccepted(request) && separatorAvailable && !run.Finished?
    ensures run.ProcessFailed? && UploadAccepted(request) && separatorAvailable ==>
              ErrorText(r.error) == "Error during separation: " + run.message
    ensures run.Crashed? && UploadAccepted(request) && separatorAvailable ==> ErrorText(r.error) == run.message
    ensures r.Separated? <==> UploadAccepted(request) && separatorAvailable && run.Finished?
    ensures r.Separated? ==>
              && r.jobId == jobId
              && r.stems == CollectStems(jobId, SplitExtRoot(securedName), StemTypes, fileExists, sizeOf)
              && r.metadata == Metadata(jobId, securedName, r.stems)
  {
    if request.filePart.None? then ErrorReply(NoFilePart)
    else if request.filePart.value == "" then ErrorReply(NoSelectedFile)
    else if !AllowedFile(request.filePart.value) then ErrorReply(FileTypeNotAllowed)
    else if !separatorAvailable then ErrorReply(SeparatorUnavailable)
    else match run
      case ProcessFailed(message) => ErrorReply(SeparationFailed(message))
      case Crashed(message) => ErrorReply(UnexpectedError(message))
      case Finished =>
        var stems := CollectStems(jobId, SplitExtRoot(securedName), StemTypes, fileExists, sizeOf);
        Separated(jobId, stems, Metadata(jobId, securedName, stems))
  }

  /** The loop over `StemTypes`. */
  method BuildStems(jobId: string, base: string, fileExists: string -> bool, sizeOf: string -> nat)
      returns (stems: seq<StemEntry>)
    ensures stems == CollectStems(jobId, base, StemTypes, fileExists, sizeOf)
  {
    stems := [];
    for i := 0 to |StemTypes|
      invariant stems == CollectStems(jobId, base, StemTypes[..i], fileExists, sizeOf)
    {
      var stemType := StemTypes[i];
      var stemPath := StemPath(jobId, base, stemType);
      if fileExists(stemPath) {
        var fileSize := sizeOf(stemPath);
        stems := stems + [MakeEntry(jobId, base, stemType, fileSize)];
      }
      assert StemTypes[..i + 1][..i] == StemTypes[..i];
    }
    assert StemTypes[..|StemTypes|] == StemTypes;
  }

  /** `separate_audio`.  `jobId` is the UUID the endpoint would draw and `securedName` what
      `secure_filename` makes of the upload's name; `jobCreated` says whether the endpoint got
      as far as drawing the id and creating the job folder. */
  method SeparateAudio(request: UploadRequest, separatorAvailable: bool, jobId: string,
                       securedName: string, run: RunOutcome,
                       fileExists: string -> bool, sizeOf: string -> nat)
      returns (response: SeparateResponse, jobCreated: bool)
    ensures response == SeparateAnswer(request, separatorAvailable, jobId, securedName, run, fileExists, sizeOf)
    ensures jobCreated <==> UploadAccepted(request) && separatorAvailable
    ensures !jobCreated ==> response.ErrorReply?
  {
    jobCreated := false;
    if request.filePart.None? {
      return ErrorReply(NoFilePart), jobCreated;
    }
    var filename := request.filePart.value;
    if filename == "" {
      return ErrorReply(NoSelectedFile), jobCreated;
    }
    if !AllowedFile(filename) {
      return ErrorReply(FileTypeNotAllowed), jobCreated;
    }
    if !separatorAvailable {
      return ErrorReply(SeparatorUnavailable), jobCreated;
    }
    jobCreated := true;

    match run {
      case ProcessFailed(message) =>
        response := ErrorReply(SeparationFailed(message));
      case Crashed(message) =>
        response := ErrorReply(UnexpectedError(message));
      case Finished =>
        var base := SplitExtRoot(securedName);
        var stems := BuildStems(jobId, base, fileExists, sizeOf);
        response := Separated(jobId, stems, Metadata(jobId, securedName, stems));
    }
  }
}
