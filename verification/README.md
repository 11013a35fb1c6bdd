# Scheduled push-notification sweep

A Dafny model of the Cloud Function `processScheduledNotifications` of a salon
app's Firebase backend (`functions/index.js`). Once a minute the function
queries the `scheduled_notifications` collection for up to 50 documents that
are unprocessed, not cancelled and due, reads the active device tokens, sends
each selected notification to all of them with a Firebase Cloud Messaging
multicast, marks each document processed in one write batch (with the
response's success and failure counts, or with the exception's message), and
deletes the device-token documents that FCM reported as not registered
(`cleanupInvalidTokens`).

The model has four modules:

- `Wrappers` (`wrappers.dfy`): `Option`, for document fields that may be absent.
- `Messaging` (`messaging.dfy`): the multicast message, the per-token batch
  response, success and failure counts, the failed-token list built by the
  handler's `forEach`/`push` loop, and the `filter`/`map` that yields the
  invalid tokens.
- `Notifications` (`notifications.dfy`): the scheduled-notification document,
  the query's due predicate, the message builder, and the update
  (`processed`, `processedAt`, counts or `error`) written back to a handled document.
- `Sweep` (`sweep.dfy`): the query and the token snapshot, the handler's loop,
  the write batch and its commit, the eviction lists, and the class `Firestore`.
  `Firestore` holds the two collections as maps that its methods update in place:
  id → notification and token → `isActive`.

The clock is the parameter `now`. The transport is the parameter `transport`.
For a document id and the message built for it, `transport` gives the send
result: either the per-token responses, or the message of the exception the
send threw. The store's server timestamp is the sentinel `ServerTimestamp`.

The sweep marks documents with an unconditional batch `update`; no conditional
claim on a document happens before its send. A run that finds no active token
returns at that point and leaves every due document unprocessed.

## Model

| member | source | states |
|---|---|---|
| `Messaging.SuccessCount` | functions/index.js:86-97 | the response's `successCount` is at most the number of entries, and equals it exactly when every entry succeeded |
| `Messaging.FailureCount` | functions/index.js:86-102 | the response's `failureCount` is at most the number of entries, and is 0 exactly when every entry succeeded |
| `Messaging.CountsPartition` | functions/index.js:97-98 | success and failure counts add up to the number of responses |
| `Messaging.ErrorCode` | functions/index.js:108 | the recorded error is never empty, and a non-empty code from the response is kept as it is |
| `Messaging.ErrorCodeDefault` | functions/index.js:108 | a response with no code or an empty code is recorded as "unknown"; any other recorded error is the response's own code |
| `Messaging.FailedTokens` | functions/index.js:103-111 | the failed-token list has one entry per failed response |
| `Messaging.FailedTokenAt` | functions/index.js:103-111 | a failed position i contributes `{token: tokens[i], error}` at index (number of failures before i), which fixes content and index order |
| `Messaging.FailureCountMonotone` | functions/index.js:104-110 | failures at earlier positions come earlier in the failed-token list |
| `Messaging.FailedTokenSource` | functions/index.js:103-111 | every entry of the failed-token list names a failed position i and equals `{tokens[i], code of responses[i]}` |
| `Messaging.FailedTokensExactly` | functions/index.js:103-111 | an entry is in the failed-token list if and only if it is `{tokens[i], code of responses[i]}` for a failed position i |
| `Messaging.CollectFailedTokens` | functions/index.js:103-111 | the `forEach`/`push` loop builds exactly the failed-token list |
| `Messaging.InvalidTokens` | functions/index.js:114-118 | the filtered list is no longer than the failed-token list |
| `Messaging.InvalidTokensExactly` | functions/index.js:114-118 | a token is kept by the filter if and only if it failed with code `messaging/registration-token-not-registered` |
| `Messaging.EvictionsExactly` | functions/index.js:102-122 | the eviction list of a send holds exactly the tokens whose response failed with the not-registered code |
| `Messaging.EvictionsGuardRedundant` | functions/index.js:102 | the `failureCount > 0` guard never changes the eviction list |
| `Messaging.OtherFailureKeepsToken` | functions/index.js:114-118 | a token that failed with any other code, "unknown" included, is not scheduled for eviction |
| `Notifications.OrEmpty` | functions/index.js:79 | `sessionId \|\| ""` is "" exactly when the session id is absent or empty, and is the session id otherwise |
| `Notifications.BuildMessage` | functions/index.js:72-83 | title and body from the document, `data.type` the document's type, `data.sessionId` its session id or "", `clickAction` always `FLUTTER_NOTIFICATION_CLICK`, tokens the full snapshot |
| `Notifications.PatchFor` | functions/index.js:94-132 | a send writes the response's success and failure counts, which add up to its number of entries; an exception writes its message and no counts |
| `Notifications.ApplyPatch` | functions/index.js:94-132 | an updated document is processed, stamped, and never due again; counts or error are set as the patch says; every other field is kept |
| `Sweep.QueryDue` | functions/index.js:31-37 | at most 50 distinct documents, each as stored, unprocessed, not cancelled and due; if fewer than 50, all due documents |
| `Sweep.ActiveTokens` | functions/index.js:49-54 | the snapshot lists every active token exactly once and nothing else |
| `Sweep.Writes` | functions/index.js:94-132 | the batch has one update per selected document, in order, each for that document's id |
| `Sweep.WritesAt` | functions/index.js:94-132 | the i-th update of the batch carries the patch of the i-th document's own send result |
| `Sweep.Commit` | functions/index.js:137 | committing a batch of updates creates and deletes no document |
| `Sweep.CommitDistinct` | functions/index.js:137 | with distinct targets, each updated document ends as its stored value with its patch merged, and the others are unchanged |
| `Sweep.CommitOutcome` | functions/index.js:94-137 | after the commit every selected document is processed with the patch of its own send, on the send path and on the exception path; every other document is unchanged |
| `Sweep.SendCleanups` | functions/index.js:120-122 | one send schedules at most one cleanup, and never an empty one |
| `Sweep.SendCleanupsExactly` | functions/index.js:102-122 | one send schedules exactly the tokens it reports as not registered |
| `Sweep.Cleanups` | functions/index.js:120-121 | a run schedules at most one cleanup per selected document |
| `Sweep.Scheduled` | functions/index.js:138 | the tokens of a list of cleanups are exactly those named in one of them |
| `Sweep.EvictedExactly` | functions/index.js:102-122 | a run evicts a token if and only if some selected document's send reported it as not registered |
| `Sweep.SendAll` | functions/index.js:67-134 | the handler's loop produces exactly the run's write batch and its list of cleanups |
| `Sweep.Firestore.CleanupInvalidTokens` | functions/index.js:151-160 | deletes exactly the listed token documents; every other token and every notification is untouched |
| `Sweep.Firestore.AwaitCleanups` | functions/index.js:138 | after all cleanups the device tokens are the old ones minus every scheduled token |
| `Sweep.Firestore.ProcessScheduledNotifications` | functions/index.js:26-138 | selects per `QueryDue`. With nothing selected or no active token, nothing changes. Otherwise the notifications become the commit of the run's batch, and the device tokens lose exactly the scheduled tokens |

## Left out

- Firebase initialisation, global options and every `logger` call (functions/index.js:1-14 and throughout): configuration and logging.
- The query engine: which 50 documents come back when more qualify (the query has no ordering), and Firestore's rule that a `!=` filter excludes documents without the `cancelled` field. `cancelled` is modelled as a boolean that every document has.
- The FCM transport `sendEachForMulticast`: it is the parameter `transport`. Its contract, one response per token in token order, is the precondition `TransportAligned`. The counts `successCount` and `failureCount` are derived from the responses, as FCM derives them.
- `FieldValue.serverTimestamp()`: the opaque sentinel `ServerTimestamp`.
- `await`, `Promise.all`, and concurrent runs racing on the same document. The model is one sequential run. It makes no claim of exactly-once delivery across overlapping runs, and the code has no conditional claim that could give one. The cleanups run concurrently with the handler's loop in the code; the model applies them after the notification batch is committed. They touch a different collection and deletions commute, so the final state is the same.
- Failure of the query, of the batch commit or of a cleanup commit: the outer `catch` logs and rethrows (functions/index.js:141-144). The model assumes every store call succeeds. Every document the batch updates exists, because the query returned it.
- The device-token document id is assumed equal to its `token` field. The snapshot reads the field; `cleanupInvalidTokens` deletes by id.
- `Sweep.QueryDue`, `Sweep.ActiveTokens`: visit the map in a nondeterministic order; the store's internal document order is not modelled.
- Field values of other JavaScript types (a non-string `sessionId`, a missing `type`) are not modelled; `sessionId` is an optional string.
- The `testNotification` handler (functions/index.js:167-222): a manual diagnostic that sends one message and deletes its document.
