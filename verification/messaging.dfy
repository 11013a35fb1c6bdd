/**
  The part of Firebase Cloud Messaging the sweep relies on: the multicast
  message it builds, the per-token responses of a multicast send, and the
  classification of failed tokens that decides which device tokens are evicted.
  The transport itself is not modelled; a send is represented by its result.
 */
module Messaging {
  import opened Wrappers

  /** A device registration token; also the key of its device_tokens document. */
  type Token = string

  /** The error code with which FCM reports a token that will never be reachable again. */
  const NotRegistered := "messaging/registration-token-not-registered"

  /** The code recorded for a failure that carries no error code. */
  const Unknown := "unknown"

  /** The `notification` part of a multicast message. */
  datatype Payload = Payload(title: string, body: string)

  /** The `data` part of a multicast message: its three string entries `type`,
      `sessionId` and `clickAction` (`kind` stands for `type`). */
  datatype Data = Data(kind: string, sessionId: string, clickAction: string)

  /** A multicast message: display payload, data entries, and the target tokens. */
  datatype Message = Message(notification: Payload, data: Data, tokens: seq<Token>)

  /** One per-token entry of a batch response; `errorCode` is None when the entry
      has no error object or its error has no code. */
  datatype SendResponse = SendResponse(success: bool, errorCode: Option<string>)

  /** What a multicast send produced: the per-token responses, or the message of
      the exception it threw. */
  datatype SendResult = Sent(responses: seq<SendResponse>) | Threw(message: string)

  /** An entry of the failed-token list built for one send. */
  datatype FailedToken = FailedToken(token: Token, error: string)

  /** The transport's contract: a batch response has one entry per target token,
      in the order of the message's token list. */
  predicate Aligned(result: SendResult, message: Message)
  {
    result.Sent? ==> |result.responses| == |message.tokens|
  }

  /** Number of successful entries of a batch response (its `successCount`). */
  function SuccessCount(rs: seq<SendResponse>): (n: nat)
    ensures n <= |rs|
    ensures n == |rs| <==> forall i :: 0 <= i < |rs| ==> rs[i].success
    decreases |rs|
  {
    if rs == [] then 0
    else SuccessCount(rs[..|rs| - 1]) + (if rs[|rs| - 1].success then 1 else 0)
  }

  /** Number of failed entries of a batch response (its `failureCount`). */
  function FailureCount(rs: seq<SendResponse>): (n: nat)
    ensures n <= |rs|
    ensures n == 0 <==> forall i :: 0 <= i < |rs| ==> rs[i].success
    decreases |rs|
  {
    if rs == [] then 0
    else FailureCount(rs[..|rs| - 1]) + (if rs[|rs| - 1].success then 0 else 1)
  }

  /** Every entry of a batch response is counted exactly once, as a success or a failure. */
  lemma {:induction false} CountsPartition(rs: seq<SendResponse>)
    ensures SuccessCount(rs) + FailureCount(rs) == |rs|
    decreases |rs|
  {
    if rs != [] {
      CountsPartition(rs[..|rs| - 1]);
    }
  }

  /** The error recorded for a failed entry: its code, or "unknown" when there is
      no code or the code is empty (JavaScript treats "" as false). */
  function ErrorCode(r: SendResponse): (code: string)
    ensures code != ""
    ensures r.errorCode.Some? && r.errorCode.value != "" ==> code == r.errorCode.value
  {
    match r.errorCode
    case Some(c) => if c != "" then c else Unknown
    case None => Unknown
  }

  /** A failure with no code, or an empty one, is recorded as "unknown"; any other
      recorded code is the entry's own. */
  lemma ErrorCodeDefault(r: SendResponse)
    ensures r.errorCode == None || r.errorCode == Some("") ==> ErrorCode(r) == Unknown
    ensures ErrorCode(r) == Unknown || r.errorCode == Some(ErrorCode(r))
  {
  }

  /** The failed-token list of one send: walking the responses in order, every entry
      that is not a success contributes the token at the same position and its code. */
  function FailedTokens(ts: seq<Token>, rs: seq<SendResponse>): (failed: seq<FailedToken>)
    requires |ts| == |rs|
    ensures |failed| == FailureCount(rs)
    decreases |rs|
  {
    if rs == [] then []
    else
      var k := |rs| - 1;
      FailedTokens(ts[..k], rs[..k])
        + (if rs[k].success then [] else [FailedToken(ts[k], ErrorCode(rs[k]))])
  }

  /** Each failed position i has its entry at position FailureCount(rs[..i]) of the
      list, i.e. after exactly the failures that precede it: content and index order. */
  lemma {:induction false} FailedTokenAt(ts: seq<Token>, rs: seq<SendResponse>, i: nat)
    requires |ts| == |rs| && i < |rs| && !rs[i].success
    ensures FailureCount(rs[..i]) < |FailedTokens(ts, rs)|
    ensures FailedTokens(ts, rs)[FailureCount(rs[..i])] == FailedToken(ts[i], ErrorCode(rs[i]))
    decreases |rs|
  {
    var k := |rs| - 1;
    var prefix := FailedTokens(ts[..k], rs[..k]);
    var entry := FailedToken(ts[k], ErrorCode(rs[k]));
    assert FailedTokens(ts, rs) == prefix + (if rs[k].success then [] else [entry]);
    if i < k {
      FailedTokenAt(ts[..k], rs[..k], i);
      assert rs[..k][..i] == rs[..i];
      assert ts[..k][i] == ts[i] && rs[..k][i] == rs[i];
    } else {
      assert rs[..i] == rs[..k];
    }
  }

  /** Failures earlier in the response list come earlier in the failed-token list. */
  lemma {:induction false} FailureCountMonotone(rs: seq<SendResponse>, i: nat, j: nat)
    requires i < j <= |rs| && !rs[i].success
    ensures FailureCount(rs[..i]) < FailureCount(rs[..j])
    decreases j
  {
    if j == i + 1 {
      assert rs[..j][..i] == rs[..i];
    } else {
      FailureCountMonotone(rs, i, j - 1);
      assert rs[..j][..j - 1] == rs[..j - 1];
    }
  }

  /** Every entry of the failed-token list comes from a failed position: this
      lemma returns that position. */
  lemma {:induction false} FailedTokenSource(ts: seq<Token>, rs: seq<SendResponse>, ft: FailedToken)
    returns (i: nat)
    requires |ts| == |rs| && ft in FailedTokens(ts, rs)
    ensures i < |rs| && !rs[i].success && ft == FailedToken(ts[i], ErrorCode(rs[i]))
    decreases |rs|
  {
    var k := |rs| - 1;
    var prefix := FailedTokens(ts[..k], rs[..k]);
    var entry := FailedToken(ts[k], ErrorCode(rs[k]));
    assert FailedTokens(ts, rs) == prefix + (if rs[k].success then [] else [entry]);
    if ft in prefix {
      i := FailedTokenSource(ts[..k], rs[..k], ft);
      assert ts[..k][i] == ts[i] && rs[..k][i] == rs[i];
    } else {
      i := k;
    }
  }

  /** The failed-token list holds nothing but entries for failed positions, and an
      entry for every failed position. */
  lemma FailedTokensExactly(ts: seq<Token>, rs: seq<SendResponse>, ft: FailedToken)
    requires |ts| == |rs|
    ensures ft in FailedTokens(ts, rs) <==>
      exists i :: 0 <= i < |rs| && !rs[i].success && ft == FailedToken(ts[i], ErrorCode(rs[i]))
  {
    if exists i :: 0 <= i < |rs| && !rs[i].success && ft == FailedToken(ts[i], ErrorCode(rs[i])) {
      var i :| 0 <= i < |rs| && !rs[i].success && ft == FailedToken(ts[i], ErrorCode(rs[i]));
      FailedTokenAt(ts, rs, i);
    }
    if ft in FailedTokens(ts, rs) {
      var i := FailedTokenSource(ts, rs, ft);
    }
  }

  /** The forEach/push loop that builds the failed-token list of one send. */
  method CollectFailedTokens(ts: seq<Token>, rs: seq<SendResponse>) returns (failed: seq<FailedToken>)
    requires |ts| == |rs|
    ensures failed == FailedTokens(ts, rs)
  {
    failed := [];
    var idx := 0;
    while idx < |rs|
      invariant 0 <= idx <= |rs|
      invariant failed == FailedTokens(ts[..idx], rs[..idx])
    {
      assert ts[..idx + 1][..idx] == ts[..idx] && rs[..idx + 1][..idx] == rs[..idx];
      if !rs[idx].success {
        failed := failed + [FailedToken(ts[idx], ErrorCode(rs[idx]))];
      }
      idx := idx + 1;
    }
    assert ts[..idx] == ts && rs[..idx] == rs;
  }

  /** The tokens of the failed entries whose error is the not-registered code, in order
      (the filter and map applied to the failed-token list). */
  function InvalidTokens(failed: seq<FailedToken>): (invalid: seq<Token>)
    ensures |invalid| <= |failed|
    decreases |failed|
  {
    if failed == [] then []
    else
      var k := |failed| - 1;
      InvalidTokens(failed[..k])
        + (if failed[k].error == NotRegistered then [failed[k].token] else [])
  }

  /** A token is in the invalid list exactly when it failed with the not-registered code. */
  lemma {:induction false} InvalidTokensExactly(failed: seq<FailedToken>, t: Token)
    ensures t in InvalidTokens(failed) <==> FailedToken(t, NotRegistered) in failed
    decreases |failed|
  {
    if failed != [] {
      var k := |failed| - 1;
      InvalidTokensExactly(failed[..k], t);
      assert failed == failed[..k] + [failed[k]];
    }
  }

  /** The tokens one send schedules for eviction: computed only when the response
      reports a failure. `EvictionsExactly` is its specification, and
      `EvictionsGuardRedundant` shows the guard changes nothing. */
  function Evictions(ts: seq<Token>, rs: seq<SendResponse>): seq<Token>
    requires |ts| == |rs|
  {
    if FailureCount(rs) > 0 then InvalidTokens(FailedTokens(ts, rs)) else []
  }

  /** The eviction list of a send holds exactly the tokens whose entry failed with the
      not-registered code. */
  lemma EvictionsExactly(ts: seq<Token>, rs: seq<SendResponse>, t: Token)
    requires |ts| == |rs|
    ensures t in Evictions(ts, rs) <==>
      exists i :: 0 <= i < |rs| && ts[i] == t && !rs[i].success && ErrorCode(rs[i]) == NotRegistered
  {
    InvalidTokensExactly(FailedTokens(ts, rs), t);
    FailedTokensExactly(ts, rs, FailedToken(t, NotRegistered));
    if exists i :: 0 <= i < |rs| && ts[i] == t && !rs[i].success && ErrorCode(rs[i]) == NotRegistered {
      var i :| 0 <= i < |rs| && ts[i] == t && !rs[i].success && ErrorCode(rs[i]) == NotRegistered;
      assert !(forall j :: 0 <= j < |rs| ==> rs[j].success);
    }
  }

  /** The `failureCount > 0` guard never changes the eviction list: with no failure
      the failed-token list, hence the invalid list, is empty anyway. */
  lemma EvictionsGuardRedundant(ts: seq<Token>, rs: seq<SendResponse>)
    requires |ts| == |rs|
    ensures Evictions(ts, rs) == InvalidTokens(FailedTokens(ts, rs))
  {
  }

  /** A token whose only entry failed with any other code, "unknown" included, is
      not scheduled for eviction. */
  lemma OtherFailureKeepsToken(ts: seq<Token>, rs: seq<SendResponse>, i: nat)
    requires |ts| == |rs| && i < |rs|
    requires forall j :: 0 <= j < |ts| && j != i ==> ts[j] != ts[i]
    requires !rs[i].success && ErrorCode(rs[i]) != NotRegistered
    ensures ts[i] !in Evictions(ts, rs)
  {
    EvictionsExactly(ts, rs, ts[i]);
  }
}
