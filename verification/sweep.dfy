/**
  The periodic sweep over scheduled notifications: the store's two collections,
  the query for due notifications, the active-token snapshot, the per-item send
  and bookkeeping, and the eviction of tokens reported as not registered.
 */
module Sweep {
  import opened Messaging
  import opened Notifications

  /** The query's `limit`: at most this many notifications are handled per run. */
  const BatchLimit := 50

  /** The transport, for one run: what the multicast send for a given notification
      and message produces. */
  type Transport = (Id, Message) -> SendResult

  /** A document returned by a query: its id and its data as read. */
  datatype Doc = Doc(id: Id, data: Notification)

  predicate Distinct<T(==)>(s: seq<T>)
  {
    forall i, j :: 0 <= i < j < |s| ==> s[i] != s[j]
  }

  predicate DistinctIds(docs: seq<Doc>)
  {
    forall i, j :: 0 <= i < j < |docs| ==> docs[i].id != docs[j].id
  }

  /** What the due query may return: at most 50 documents of the collection, as
      stored, each satisfying all three filters, and every due document whenever
      fewer than 50 came back. Which 50 are returned when more qualify is left open. */
  predicate DueSelection(selected: seq<Doc>, notes: map<Id, Notification>, now: Timestamp)
  {
    && |selected| <= BatchLimit
    && DistinctIds(selected)
    && (forall i :: 0 <= i < |selected| ==>
          selected[i].id in notes && notes[selected[i].id] == selected[i].data && Due(selected[i].data, now))
    && (|selected| < BatchLimit ==>
          forall id :: id in notes && Due(notes[id], now) ==> exists i :: 0 <= i < |selected| && selected[i].id == id)
  }

  /** What the active-token query and its map to `token` produce: every active
      token once, in some order. */
  ghost predicate ActiveSnapshot(tokens: seq<Token>, devices: map<Token, bool>)
  {
    && Distinct(tokens)
    && (forall t :: t in tokens <==> t in devices && devices[t])
  }

  /** Every send keeps the transport's contract. */
  ghost predicate TransportAligned(transport: Transport)
  {
    forall id, m :: Aligned(transport(id, m), m)
  }

  /** The query for due notifications, limited to 50; documents are visited in an
      unspecified order. */
  method QueryDue(notes: map<Id, Notification>, now: Timestamp) returns (selected: seq<Doc>)
    ensures DueSelection(selected, notes, now)
  {
    selected := [];
    var unread := notes.Keys;
    while unread != {} && |selected| < BatchLimit
      invariant unread <= notes.Keys
      invariant |selected| <= BatchLimit
      invariant DistinctIds(selected)
      invariant forall i :: 0 <= i < |selected| ==>
        && selected[i].id in notes && selected[i].id !in unread
        && notes[selected[i].id] == selected[i].data && Due(selected[i].data, now)
      invariant forall id :: id in notes && id !in unread && Due(notes[id], now) ==>
        exists i :: 0 <= i < |selected| && selected[i].id == id
      decreases unread
    {
      var id :| id in unread;
      if Due(notes[id], now) {
        ghost var before := selected;
        selected := selected + [Doc(id, notes[id])];
        assert forall i :: 0 <= i < |before| ==> selected[i] == before[i];
        assert selected[|selected| - 1].id == id;
      }
      unread := unread - {id};
    }
  }

  /** The active-token snapshot: the `token` of every device document with
      `isActive == true`, in an unspecified order. */
  method ActiveTokens(devices: map<Token, bool>) returns (tokens: seq<Token>)
    ensures ActiveSnapshot(tokens, devices)
  {
    tokens := [];
    var unread := devices.Keys;
    while unread != {}
      invariant unread <= devices.Keys
      invariant Distinct(tokens)
      invariant forall t :: t in tokens <==> t in devices && t !in unread && devices[t]
      decreases unread
    {
      var t :| t in unread;
      if devices[t] {
        tokens := tokens + [t];
      }
      unread := unread - {t};
    }
  }

  /** The send result for one selected document. */
  function ResultFor(doc: Doc, tokens: seq<Token>, transport: Transport): SendResult
  {
    transport(doc.id, BuildMessage(doc.data, tokens))
  }

  /** One operation of a write batch: `update` of a document with a patch. */
  datatype Write = Update(id: Id, patch: Patch)

  /** The write batch one run accumulates: one update per selected document, in
      selection order. */
  function Writes(docs: seq<Doc>, tokens: seq<Token>, transport: Transport): (batch: seq<Write>)
    ensures |batch| == |docs|
    ensures forall j :: 0 <= j < |docs| ==> batch[j].id == docs[j].id
    decreases |docs|
  {
    if docs == [] then []
    else
      var k := |docs| - 1;
      Writes(docs[..k], tokens, transport) + [Update(docs[k].id, PatchFor(ResultFor(docs[k], tokens, transport)))]
  }

  /** Every write of the run's batch updates the document it was made for, with the
      patch of that document's send result. */
  lemma {:induction false} WritesAt(docs: seq<Doc>, tokens: seq<Token>, transport: Transport, i: nat)
    requires i < |docs|
    ensures Writes(docs, tokens, transport)[i] == Update(docs[i].id, PatchFor(ResultFor(docs[i], tokens, transport)))
    decreases |docs|
  {
    var k := |docs| - 1;
    if i < k {
      WritesAt(docs[..k], tokens, transport, i);
    }
  }

  /** Committing a write batch: each update merges its patch into the document as
      it stands; every document the batch names must exist. */
  function Commit(notes: map<Id, Notification>, batch: seq<Write>): (after: map<Id, Notification>)
    requires forall j :: 0 <= j < |batch| ==> batch[j].id in notes
    ensures after.Keys == notes.Keys
    decreases |batch|
  {
    if batch == [] then notes
    else
      var k := |batch| - 1;
      var before := Commit(notes, batch[..k]);
      before[batch[k].id := ApplyPatch(before[batch[k].id], batch[k].patch)]
  }

  /** Committing a batch that updates distinct documents: each named document gets
      its patch merged into its stored value, and every other document is kept. */
  lemma {:induction false} CommitDistinct(notes: map<Id, Notification>, batch: seq<Write>, id: Id)
    requires forall j :: 0 <= j < |batch| ==> batch[j].id in notes
    requires forall j, l :: 0 <= j < l < |batch| ==> batch[j].id != batch[l].id
    requires id in notes
    ensures forall j :: 0 <= j < |batch| && batch[j].id == id ==>
      Commit(notes, batch)[id] == ApplyPatch(notes[id], batch[j].patch)
    ensures (forall j :: 0 <= j < |batch| ==> batch[j].id != id) ==> Commit(notes, batch)[id] == notes[id]
    decreases |batch|
  {
    if batch != [] {
      var k := |batch| - 1;
      var prefix := batch[..k];
      CommitDistinct(notes, prefix, id);
      if batch[k].id != id {
        forall j | 0 <= j < k && batch[j].id == id
          ensures Commit(notes, batch)[id] == ApplyPatch(notes[id], batch[j].patch)
        {
          assert prefix[j] == batch[j];
        }
        if forall j :: 0 <= j < |batch| ==> batch[j].id != id {
          assert forall j :: 0 <= j < |prefix| ==> prefix[j].id != id;
        }
      } else {
        assert forall j :: 0 <= j < |prefix| ==> prefix[j].id != id;
      }
    }
  }

  /** The eviction list one send schedules, if any: only a response that reports
      a failure and yields a non-empty invalid-token list schedules one. */
  function SendCleanups(result: SendResult, tokens: seq<Token>): (lists: seq<seq<Token>>)
    requires result.Sent? ==> |result.responses| == |tokens|
    ensures |lists| <= 1
    ensures forall j :: 0 <= j < |lists| ==> lists[j] != []
  {
    match result
    case Sent(rs) => (var invalid := Evictions(tokens, rs); if |invalid| > 0 then [invalid] else [])
    case Threw(_) => []
  }

  /** The eviction lists one run schedules, in selection order. */
  function Cleanups(docs: seq<Doc>, tokens: seq<Token>, transport: Transport): (lists: seq<seq<Token>>)
    requires TransportAligned(transport)
    ensures |lists| <= |docs|
    decreases |docs|
  {
    if docs == [] then []
    else
      var k := |docs| - 1;
      var message := BuildMessage(docs[k].data, tokens);
      assert Aligned(transport(docs[k].id, message), message);
      Cleanups(docs[..k], tokens, transport) + SendCleanups(ResultFor(docs[k], tokens, transport), tokens)
  }

  /** All tokens named by a list of eviction lists. */
  function Scheduled(lists: seq<seq<Token>>): (evicted: set<Token>)
    ensures forall t :: t in evicted <==> exists j :: 0 <= j < |lists| && t in lists[j]
    decreases |lists|
  {
    if lists == [] then {}
    else
      var k := |lists| - 1;
      Scheduled(lists[..k]) + set t | t in lists[k]
  }

  /** A send result reports token t as not registered. */
  predicate ReportsNotRegistered(result: SendResult, tokens: seq<Token>, t: Token)
  {
    && result.Sent?
    && |result.responses| == |tokens|
    && exists i :: 0 <= i < |tokens| && tokens[i] == t
         && !result.responses[i].success && ErrorCode(result.responses[i]) == NotRegistered
  }

  /** One send schedules exactly the tokens it reports as not registered. */
  lemma SendCleanupsExactly(result: SendResult, tokens: seq<Token>, t: Token)
    requires result.Sent? ==> |result.responses| == |tokens|
    ensures t in Scheduled(SendCleanups(result, tokens)) <==> ReportsNotRegistered(result, tokens, t)
  {
    if result.Sent? {
      EvictionsExactly(tokens, result.responses, t);
      var lists := SendCleanups(result, tokens);
      assert t in Scheduled(lists) <==> t in Evictions(tokens, result.responses) by {
        if lists != [] {
          assert lists[0] == Evictions(tokens, result.responses);
        }
      }
    }
  }

  /** Scheduling two runs of lists schedules the tokens of both. */
  lemma ScheduledAppend(before: seq<seq<Token>>, last: seq<seq<Token>>, t: Token)
    ensures t in Scheduled(before + last) <==> t in Scheduled(before) || t in Scheduled(last)
  {
    var lists := before + last;
    if t in Scheduled(lists) {
      var j :| 0 <= j < |lists| && t in lists[j];
      if j >= |before| {
        assert lists[j] == last[j - |before|];
      }
    }
    if t in Scheduled(before) {
      var j :| 0 <= j < |before| && t in before[j];
      assert lists[j] == before[j];
    }
    if t in Scheduled(last) {
      var j :| 0 <= j < |last| && t in last[j];
      assert lists[|before| + j] == last[j];
    }
  }

  /** Some document of the list has a send result that reports t as not registered. */
  predicate SomeReports(docs: seq<Doc>, tokens: seq<Token>, transport: Transport, t: Token)
  {
    exists i :: 0 <= i < |docs| && ReportsNotRegistered(ResultFor(docs[i], tokens, transport), tokens, t)
  }

  /** Some element of a non-empty sequence satisfies p exactly when some element
      of the sequence without its last element does, or the last one does. */
  lemma ExistsStep<T>(s: seq<T>, prefix: seq<T>, p: T -> bool)
    requires s != [] && prefix == s[..|s| - 1]
    ensures (exists i :: 0 <= i < |s| && p(s[i])) <==>
      (exists i :: 0 <= i < |prefix| && p(prefix[i])) || p(s[|s| - 1])
  {
    if exists i :: 0 <= i < |s| && p(s[i]) {
      var i :| 0 <= i < |s| && p(s[i]);
      if i < |prefix| {
        assert prefix[i] == s[i];
      }
    }
    if exists i :: 0 <= i < |prefix| && p(prefix[i]) {
      var i :| 0 <= i < |prefix| && p(prefix[i]);
      assert prefix[i] == s[i];
    }
  }

  lemma SomeReportsStep(docs: seq<Doc>, tokens: seq<Token>, transport: Transport, t: Token)
    requires docs != []
    ensures SomeReports(docs, tokens, transport, t) <==>
      || SomeReports(docs[..|docs| - 1], tokens, transport, t)
      || ReportsNotRegistered(ResultFor(docs[|docs| - 1], tokens, transport), tokens, t)
  {
    var prefix := docs[..|docs| - 1];
    var p := (d: Doc) => ReportsNotRegistered(ResultFor(d, tokens, transport), tokens, t);
    ExistsStep(docs, prefix, p);
    assert SomeReports(docs, tokens, transport, t) <==> exists i :: 0 <= i < |docs| && p(docs[i]);
    assert SomeReports(prefix, tokens, transport, t) <==> exists i :: 0 <= i < |prefix| && p(prefix[i]);
  }

  /** A run evicts exactly the tokens that some selected notification's send
      reported as not registered; no other failure evicts a token. */
  lemma {:induction false} EvictedExactly(docs: seq<Doc>, tokens: seq<Token>, transport: Transport, t: Token)
    requires TransportAligned(transport)
    ensures t in Scheduled(Cleanups(docs, tokens, transport)) <==> SomeReports(docs, tokens, transport, t)
    decreases |docs|
  {
    if docs != [] {
      var k := |docs| - 1;
      var prefix := docs[..k];
      var message := BuildMessage(docs[k].data, tokens);
      var result := ResultFor(docs[k], tokens, transport);
      assert Aligned(result, message);
      var before := Cleanups(prefix, tokens, transport);
      var last := SendCleanups(result, tokens);
      assert Cleanups(docs, tokens, transport) == before + last;
      EvictedExactly(prefix, tokens, transport, t);
      SendCleanupsExactly(result, tokens, t);
      ScheduledAppend(before, last, t);
      SomeReportsStep(docs, tokens, transport, t);
    }
  }

  /** After the run's batch is committed, every selected notification is processed
      and carries the patch of its own send result (on the send path and on the
      exception path alike); every other document is as it was, and no document
      appears or disappears. */
  lemma CommitOutcome(notes: map<Id, Notification>, docs: seq<Doc>, tokens: seq<Token>, transport: Transport, id: Id)
    requires forall i :: 0 <= i < |docs| ==> docs[i].id in notes
    requires DistinctIds(docs)
    requires id in notes
    ensures forall j :: 0 <= j < |Writes(docs, tokens, transport)| ==> Writes(docs, tokens, transport)[j].id in notes
    ensures Commit(notes, Writes(docs, tokens, transport)).Keys == notes.Keys
    ensures forall i :: 0 <= i < |docs| && docs[i].id == id ==>
      && Commit(notes, Writes(docs, tokens, transport))[id] == ApplyPatch(notes[id], PatchFor(ResultFor(docs[i], tokens, transport)))
      && Commit(notes, Writes(docs, tokens, transport))[id].processed
    ensures (forall i :: 0 <= i < |docs| ==> docs[i].id != id) ==>
      Commit(notes, Writes(docs, tokens, transport))[id] == notes[id]
  {
    var batch := Writes(docs, tokens, transport);
    forall j | 0 <= j < |batch|
      ensures batch[j] == Update(docs[j].id, PatchFor(ResultFor(docs[j], tokens, transport)))
    {
      WritesAt(docs, tokens, transport, j);
    }
    CommitDistinct(notes, batch, id);
  }

  /** The handler's loop over the selected documents: for each, build the message,
      send it, add the document's update to the batch and, when the response
      reports failures with not-registered tokens, schedule their eviction. */
  method SendAll(docs: seq<Doc>, tokens: seq<Token>, transport: Transport)
    returns (batch: seq<Write>, promises: seq<seq<Token>>)
    requires TransportAligned(transport)
    ensures batch == Writes(docs, tokens, transport)
    ensures promises == Cleanups(docs, tokens, transport)
  {
    batch, promises := [], [];
    for i := 0 to |docs|
      invariant batch == Writes(docs[..i], tokens, transport)
      invariant promises == Cleanups(docs[..i], tokens, transport)
    {
      assert docs[..i + 1][..i] == docs[..i];
      var doc := docs[i];
      var notification := doc.data;
      var message := BuildMessage(notification, tokens);
      var result := transport(doc.id, message);
      assert Aligned(result, message);
      match result {
        case Sent(responses) =>
          CountsPartition(responses);
          batch := batch + [Update(doc.id, Counts(SuccessCount(responses), FailureCount(responses)))];
          if FailureCount(responses) > 0 {
            var failed := CollectFailedTokens(tokens, responses);
            var invalid := InvalidTokens(failed);
            if |invalid| > 0 {
              promises := promises + [invalid];
            }
          }
        case Threw(msg) =>
          batch := batch + [Update(doc.id, Failure(msg))];
      }
    }
    assert docs[..|docs|] == docs;
  }

  /** The store: the scheduled_notifications and device_tokens collections. */
  class Firestore {
    /** scheduled_notifications, by document id. */
    var notifications: map<Id, Notification>
    /** device_tokens: token -> isActive. */
    var deviceTokens: map<Token, bool>

    /** Deletes the given device-token documents in one batch. */
    method CleanupInvalidTokens(invalidTokens: seq<Token>)
      modifies this
      ensures deviceTokens == old(deviceTokens) - set t | t in invalidTokens
      ensures notifications == old(notifications)
    {
      var deletes: set<Token> := {};
      for i := 0 to |invalidTokens|
        invariant deletes == set t | t in invalidTokens[..i]
      {
        assert invalidTokens[..i + 1] == invalidTokens[..i] + [invalidTokens[i]];
        deletes := deletes + {invalidTokens[i]};
      }
      assert invalidTokens[..|invalidTokens|] == invalidTokens;
      deviceTokens := deviceTokens - deletes;
    }

    /** Runs every scheduled token cleanup (the `Promise.all` over them). */
    method AwaitCleanups(promises: seq<seq<Token>>)
      modifies this
      ensures deviceTokens == old(deviceTokens) - Scheduled(promises)
      ensures notifications == old(notifications)
    {
      for j := 0 to |promises|
        invariant notifications == old(notifications)
        invariant deviceTokens == old(deviceTokens) - Scheduled(promises[..j])
      {
        assert promises[..j + 1][..j] == promises[..j];
        CleanupInvalidTokens(promises[j]);
      }
      assert promises[..|promises|] == promises;
    }

    /** One run of the sweep at time `now`. It returns, as ghost values, the
        documents its query selected and the token snapshot it sent to (the latter
        read only when something was selected). With nothing selected, or with no
        active token, nothing changes. Otherwise every selected document receives
        its processed-update, the rest are untouched, and the device tokens lose
        exactly the tokens scheduled for eviction. */
    method ProcessScheduledNotifications(now: Timestamp, transport: Transport)
      returns (ghost selected: seq<Doc>, ghost tokens: seq<Token>)
      requires TransportAligned(transport)
      modifies this
      ensures DueSelection(selected, old(notifications), now)
      ensures selected != [] ==> ActiveSnapshot(tokens, old(deviceTokens))
      ensures selected == [] || tokens == [] ==>
        notifications == old(notifications) && deviceTokens == old(deviceTokens)
      ensures selected != [] && tokens != [] ==>
        && notifications == Commit(old(notifications), Writes(selected, tokens, transport))
        && deviceTokens == old(deviceTokens) - Scheduled(Cleanups(selected, tokens, transport))
    {
      var due := QueryDue(notifications, now);
      selected, tokens := due, [];
      if due == [] {
        return;
      }
      var active := ActiveTokens(deviceTokens);
      tokens := active;
      if active == [] {
        return;
      }
      var batch, promises := SendAll(due, active, transport);
      notifications := Commit(notifications, batch);
      AwaitCleanups(promises);
    }
  }
}
