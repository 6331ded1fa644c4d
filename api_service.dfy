/** The client's view of the backend API (src/lib/api-service.ts): URL composition, the
    error message chosen for a failed call, and the health probe.  The HTTP exchange
    itself is an input: a `Reply` says how the call came back. */
module ApiService {
  import opened Types

  const ApiBaseUrl: string := "http://localhost:5000/api"

  /** Every stem download URL starts with this. */
  const StemsPrefix: string := ApiBaseUrl + "/stems/"

  /** A stem as the backend describes it; `stemType` is free text on the wire. */
  datatype StemDescriptor = StemDescriptor(id: string, name: string, stemType: string, path: string, size: int)

  /** Body of a successful separation or job-status reply. */
  datatype SeparationResponse = SeparationResponse(jobId: string, stems: seq<StemDescriptor>)

  /** How an HTTP call came back: an OK reply with its decoded body, a non-OK reply with the
      `error` field of its JSON body (absent or present), or an exception from the fetch or
      from decoding the body. */
  datatype Reply<T> = Ok(body: T) | NotOk(errorField: Option<string>) | Thrown(message: string)

  /** A promise's settlement: resolved with a value, or rejected with an error message. */
  datatype Outcome<T> = Success(value: T) | Failure(message: string)

  /** How the health request came back. */
  datatype HealthReply = Responded(ok: bool) | Unreachable

  function GetStemUrl(stemPath: string): (url: string)
    ensures |url| == |StemsPrefix| + |stemPath|
    ensures url[..|StemsPrefix|] == StemsPrefix
    ensures url[|StemsPrefix|..] == stemPath
  {
    StemsPrefix + stemPath
  }

  /** Different stem paths never share a URL. */
  lemma GetStemUrlInjective(p: string, q: string)
    requires GetStemUrl(p) == GetStemUrl(q)
    ensures p == q
  {
    assert p == GetStemUrl(p)[|StemsPrefix|..];
  }

  /** The server's message when it sent a non-empty one, the fallback otherwise. */
  function ErrorOr(errorField: Option<string>, fallback: string): (message: string)
    ensures errorField.Some? && errorField.value != "" ==> message == errorField.value
    ensures errorField.None? || errorField.value == "" ==> message == fallback
  {
    if errorField.Some? && errorField.value != "" then errorField.value else fallback
  }

  /** How both JSON calls settle: the decoded body on an OK reply; otherwise a rejection carrying
      the server's message or the call's own fallback text, or the exception's own message. */
  function ReplyOutcome<T>(reply: Reply<T>, fallback: string): (r: Outcome<T>)
    ensures r.Success? <==> reply.Ok?
    ensures reply.Ok? ==> r.value == reply.body
    ensures reply.NotOk? ==> r.message == ErrorOr(reply.errorField, fallback)
    ensures reply.Thrown? ==> r.message == reply.message
  {
    match reply
    case Ok(body) => Success(body)
    case NotOk(field) => Failure(ErrorOr(field, fallback))
    case Thrown(m) => Failure(m)
  }

  /** `separateAudioFile`, whose fallback is 'Failed to separate audio'. */
  function SeparateAudioFile(reply: Reply<SeparationResponse>): (r: Outcome<SeparationResponse>)
    ensures r.Success? <==> reply.Ok?
    ensures reply.Ok? ==> r.value == reply.body
    ensures reply.NotOk? ==> r.message == ErrorOr(reply.errorField, "Failed to separate audio")
    ensures reply.Thrown? ==> r.message == reply.message
  {
    ReplyOutcome(reply, "Failed to separate audio")
  }

  /** `getJobStatus`, whose fallback is 'Failed to get job status'. */
  function GetJobStatus(reply: Reply<SeparationResponse>): (r: Outcome<SeparationResponse>)
    ensures r.Success? <==> reply.Ok?
    ensures reply.Ok? ==> r.value == reply.body
    ensures reply.NotOk? ==> r.message == ErrorOr(reply.errorField, "Failed to get job status")
    ensures reply.Thrown? ==> r.message == reply.message
  {
    ReplyOutcome(reply, "Failed to get job status")
  }

  /** `checkBackendHealth` never rejects: it is true exactly for an OK reply. */
  function CheckBackendHealth(reply: HealthReply): (healthy: bool)
    ensures healthy <==> reply.Responded? && reply.ok
  {
    match reply
    case Responded(ok) => ok
    case Unreachable => false
  }
}
