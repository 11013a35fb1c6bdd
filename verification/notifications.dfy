/**
  A document of the scheduled_notifications collection, the due predicate the
  sweep's query applies to it, the multicast message built from it, and the
  update the sweep writes to it once it has been handled.
 */
module Notifications {
  import opened Wrappers
  import opened Messaging

  /** A Firestore timestamp, as an instant on a single integer scale. */
  type Timestamp = int

  /** Document id in the scheduled_notifications collection. */
  type Id = string

  /** The server-timestamp sentinel: the store fills in the commit time. */
  datatype Stamp = ServerTimestamp

  /** The value written to `data.clickAction` of every message. */
  const ClickAction := "FLUTTER_NOTIFICATION_CLICK"

  /** A scheduled notification. `kind` is the document's `type` field; the last
      four fields are written by the sweep. */
  datatype Notification = Notification(
    title: string,
    body: string,
    kind: string,
    sessionId: Option<string>,
    scheduledFor: Timestamp,
    processed: bool,
    cancelled: bool,
    processedAt: Option<Stamp>,
    successCount: Option<nat>,
    failureCount: Option<nat>,
    error: Option<string>)

  /** The three filters of the sweep's query. */
  predicate Due(n: Notification, now: Timestamp)
  {
    !n.processed && !n.cancelled && n.scheduledFor <= now
  }

  /** `sessionId || ""`: the session id when it is a non-empty string, "" otherwise. */
  function OrEmpty(v: Option<string>): (s: string)
    ensures s == "" <==> v == None || v == Some("")
    ensures s != "" ==> v == Some(s)
  {
    match v
    case Some(x) => x
    case None => ""
  }

  /** The multicast message sent for a notification to the active-token snapshot. */
  function BuildMessage(n: Notification, tokens: seq<Token>): (m: Message)
    ensures m.notification.title == n.title && m.notification.body == n.body
    ensures m.data.kind == n.kind
    ensures m.data.clickAction == ClickAction
    ensures m.data.sessionId == "" <==> n.sessionId == None || n.sessionId == Some("")
    ensures m.data.sessionId != "" ==> n.sessionId == Some(m.data.sessionId)
    ensures m.tokens == tokens
  {
    Message(
      Payload(n.title, n.body),
      Data(n.kind, OrEmpty(n.sessionId), ClickAction),
      tokens)
  }

  /** The fields a `batch.update` of the sweep writes besides `processed` and
      `processedAt`: the response's counts after a send, or the exception's
      message after a failed one. */
  datatype Patch = Counts(successCount: nat, failureCount: nat) | Failure(error: string)

  /** The patch the sweep writes for a send result. The counts are those of the
      batch response and add up to its number of entries. */
  function PatchFor(result: SendResult): (p: Patch)
    ensures result.Sent? <==> p.Counts?
    ensures result.Sent? ==>
      && p.successCount == SuccessCount(result.responses)
      && p.failureCount == FailureCount(result.responses)
      && p.successCount + p.failureCount == |result.responses|
    ensures result.Threw? ==> p == Failure(result.message)
  {
    match result
    case Sent(rs) => CountsPartition(rs); Counts(SuccessCount(rs), FailureCount(rs))
    case Threw(msg) => Failure(msg)
  }

  /** A patch merged into a stored document, as `update` merges fields: the
      document becomes processed with a server timestamp; a count patch sets both
      counts and leaves `error` alone, a failure patch sets `error` and leaves the
      counts alone; every other field is kept. A patched document is never due
      again, so no later query selects it. */
  function ApplyPatch(n: Notification, p: Patch): (m: Notification)
    ensures m.processed && m.processedAt == Some(ServerTimestamp)
    ensures forall now :: !Due(m, now)
    ensures m.title == n.title && m.body == n.body && m.kind == n.kind && m.sessionId == n.sessionId
    ensures m.scheduledFor == n.scheduledFor && m.cancelled == n.cancelled
    ensures p.Counts? ==>
      m.successCount == Some(p.successCount) && m.failureCount == Some(p.failureCount) && m.error == n.error
    ensures p.Failure? ==>
      m.error == Some(p.error) && m.successCount == n.successCount && m.failureCount == n.failureCount
  {
    match p
    case Counts(successes, failures) =>
      n.(processed := true, processedAt := Some(ServerTimestamp),
         successCount := Some(successes), failureCount := Some(failures))
    case Failure(message) =>
      n.(processed := true, processedAt := Some(ServerTimestamp), error := Some(message))
  }
}
