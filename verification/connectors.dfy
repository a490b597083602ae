/** Upstream errors, their classification and the retry predicate. */
module Connectors {
  import opened Prelude
  import opened Bytes
  import StreamTranslator

  datatype Kind =
    | RateLimited | Auth | Timeout | Network | Upstream | Truncated | ModelUnavailable | QuotaExhausted

  /** A classified error, one of the sentinel errors by itself, or any other error: whether a deadline
      passed and whether it came from the connection is all that is looked at. */
  datatype Error =
    | UpstreamError(kind: Kind, status: int)
    | Sentinel(kind: Kind)
    | NoCandidate
    | Foreign(deadline: bool, connection: bool)

  predicate Is(e: Error, k: Kind) {
    (e.UpstreamError? || e.Sentinel?) && e.kind == k
  }

  predicate Retryable(e: Option<Error>) {
    if e.None? then false
    else if Is(e.value, RateLimited) then true
    else if Is(e.value, Timeout) then true
    else if Is(e.value, Network) then true
    else if Is(e.value, Truncated) then true
    else if Is(e.value, Upstream) then true
    else false
  }

  function Classify(status: int, e: Option<Error>): Error {
    if e.Some? && e.value.Foreign? && e.value.deadline then UpstreamError(Timeout, status)
    else if e.Some? && e.value.Foreign? && e.value.connection then UpstreamError(Network, status)
    else if status == 429 then UpstreamError(RateLimited, status)
    else if status == 401 || status == 403 then UpstreamError(Auth, status)
    else if status == 404 then UpstreamError(ModelUnavailable, status)
    else if 500 <= status <= 599 then UpstreamError(Upstream, status)
    else if e.Some? then e.value
    else UpstreamError(Upstream, status)
  }

  /** Among bare statuses only 401, 403 and 404 stop the failover: a 400 is tried again elsewhere. */
  lemma StatusesRetried(status: int)
    ensures Retryable(Some(Classify(status, None))) <==> status !in {401, 403, 404}
  {
  }

  /** The kind of a bare status. */
  lemma StatusKinds(status: int)
    ensures var c := Classify(status, None);
            && c.UpstreamError? && c.status == status
            && (c.kind == RateLimited <==> status == 429)
            && (c.kind == Auth <==> status == 401 || status == 403)
            && (c.kind == ModelUnavailable <==> status == 404)
            && (c.kind == Upstream <==> status !in {429, 401, 403, 404})
  {
  }

  /** A passed deadline counts before a broken connection, and either before the status; other errors are
      classified by a status that tells something, and kept otherwise. */
  lemma FailureKinds(status: int, e: Error)
    ensures var c := Classify(status, Some(e));
            && (e.Foreign? && e.deadline ==> c == UpstreamError(Timeout, status))
            && (e.Foreign? && !e.deadline && e.connection ==> c == UpstreamError(Network, status))
            && (!e.Foreign? || (!e.deadline && !e.connection) ==>
                  c == if status in {429, 401, 403, 404} || 500 <= status < 600 then Classify(status, None) else e)
  {
  }

  /** Reclassifying an error without a status keeps a classified error and never loses retryability. */
  lemma ReclassifyKeeps(e: Error)
    ensures !e.Foreign? ==> Classify(0, Some(e)) == e
    ensures Retryable(Some(e)) ==> Retryable(Some(Classify(0, Some(e))))
    ensures e.Foreign? ==> (Retryable(Some(Classify(0, Some(e)))) <==> e.deadline || e.connection)
  {
  }

  /** What the Anthropic streaming connector returns for a verdict of the translator. */
  function AnthropicStreamError(v: StreamTranslator.Verdict): Option<Error> {
    match v
    case Complete => None
    case Truncated => Some(Sentinel(Truncated))
    case Failed(BadStatus(code)) => Some(Classify(code, None))
    case Failed(_) => Some(Foreign(false, false))
  }

  /** No error is no reason to retry; a verdict other than complete is an error, and only truncation and statuses
      are told apart. */
  lemma StreamErrors(v: StreamTranslator.Verdict)
    ensures !Retryable(None) && (AnthropicStreamError(v).None? <==> v.Complete?)
    ensures v.Truncated? ==> AnthropicStreamError(v) == Some(Sentinel(Truncated))
    ensures v.Failed? ==> AnthropicStreamError(v) ==
                            Some(if v.cause.BadStatus? then Classify(v.cause.code, None) else Foreign(false, false))
  {
  }

  /** A status the upstream refuses a streamed Anthropic request with is always tried elsewhere, although
      401, 403 and 404 are not retried when the same status answers an unstreamed request. */
  lemma StreamedRefusalRetried(status: int)
    requires !(200 <= status < 300)
    ensures var v := StreamTranslator.Judge(StreamTranslator.BLANK.finished, BadStatus(status));
            && Retryable(AnthropicStreamError(v))
            && (Retryable(Some(Classify(status, None))) <==> status !in {401, 403, 404})
  {
  }
}
