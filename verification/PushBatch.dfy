/** One batch of push notifications: repeated `SendAll` attempts against FCM while three index
    sets record what happened to each notification, then one answer per notification
    (notifications/push/batch.go). FCM is an arbitrary oracle: a script of rounds. */
module PushBatch {
  import opened Wrappers

  datatype Payload = Payload(data: map<string, string>, target: string, title: string, body: string, imageUrl: string)

  datatype Message = Message(data: map<string, string>, token: string, title: string, body: string, imageUrl: string)

  datatype Notification = Notification(payload: Payload, responder: Option<nat>)

  datatype FcmError = InvalidArgument | Unregistered | SenderIdMismatch | OtherError(code: int)

  datatype Response = Response(success: bool, error: Option<FcmError>)

  /** What FCM does in one attempt: refuse the whole call, with the error of an expired context or
      with another one, or reply to each message (`replies[i]` is the reply for notification `i`,
      used only when `i` is among the messages of the attempt). */
  datatype Round = Refused(deadline: bool) | Answered(replies: seq<Response>)

  datatype SendError = InvalidDeviceToken | SendFailed(cause: FcmError) | NotAttempted

  datatype Attempt = Finished | Retry | Permanent

  /** What is known about one notification. */
  datatype Verdict = Untried | Sent | BadToken | Failed(cause: FcmError)

  predicate WellFormed(rounds: seq<Round>, n: nat) {
    forall r :: 0 <= r < |rounds| && rounds[r].Answered? ==> |rounds[r].replies| == n
  }

  function Judge(reply: Response): Verdict {
    if !reply.success && reply.error.Some? then
      if reply.error.value.OtherError? then Failed(reply.error.value) else BadToken
    else
      Sent
  }

  predicate Terminal(v: Verdict) {
    v.Sent? || v.BadToken?
  }

  /** Notification `i` of a batch of `n` still has to be sent. */
  predicate Open(rounds: seq<Round>, n: nat, i: nat) {
    i < n && !Terminal(VerdictOf(rounds, i))
  }

  /** The view of one notification on its own: keep the newest reply until one is terminal. */
  function VerdictOf(rounds: seq<Round>, i: nat): Verdict {
    if rounds == [] then Untried else
    var before := VerdictOf(rounds[..|rounds| - 1], i);
    var last := rounds[|rounds| - 1];
    if Terminal(before) || last.Refused? || i >= |last.replies| then before else Judge(last.replies[i])
  }

  function AnswerOf(rounds: seq<Round>, i: nat): Option<SendError> {
    match VerdictOf(rounds, i)
    case Sent => None
    case BadToken => Some(InvalidDeviceToken)
    case Failed(cause) => Some(SendFailed(cause))
    case Untried => Some(NotAttempted)
  }

  predicate AllTerminal(rounds: seq<Round>, n: nat) {
    forall i :: 0 <= i < n ==> Terminal(VerdictOf(rounds, i))
  }

  /** Retrying is over once the last attempt finished the batch or met the expired context. */
  predicate Over(rounds: seq<Round>, n: nat) {
    rounds != [] &&
    var last := rounds[|rounds| - 1];
    last == Refused(true) || (last.Answered? && AllTerminal(rounds, n))
  }

  /** FCM names the token itself as the problem. */
  predicate BlamesToken(reply: Response) {
    !reply.success && reply.error in [Some(InvalidArgument), Some(Unregistered), Some(SenderIdMismatch)]
  }

  /** Neither a success nor an error: FCM's documentation rules it out, its types do not. */
  predicate Silent(reply: Response) {
    !reply.success && reply.error.None?
  }

  predicate Settles(reply: Response) {
    reply.success || BlamesToken(reply) || Silent(reply)
  }

  /** `rounds[r]` is the first attempt whose reply settles notification `i`. */
  ghost predicate SettledAt(rounds: seq<Round>, i: nat, r: nat) {
    && r < |rounds|
    && rounds[r].Answered? && i < |rounds[r].replies| && Settles(rounds[r].replies[i])
    && forall q :: 0 <= q < r && rounds[q].Answered? && i < |rounds[q].replies| ==> !Settles(rounds[q].replies[i])
  }

  /** Some attempt has settled notification `i`. */
  ghost predicate Settled(rounds: seq<Round>, i: nat) {
    exists r: nat :: SettledAt(rounds, i, r)
  }

  ghost predicate AllSettled(rounds: seq<Round>, n: nat) {
    forall i: nat :: i < n ==> Settled(rounds, i)
  }

  /** `rounds[r]` is the last attempt with a reply for notification `i`. */
  ghost predicate LastReplied(rounds: seq<Round>, i: nat, r: nat) {
    && r < |rounds|
    && rounds[r].Answered? && i < |rounds[r].replies|
    && forall q :: r < q < |rounds| && rounds[q].Answered? ==> i >= |rounds[q].replies|
  }

  lemma {:induction false} NothingSettled(rounds: seq<Round>, i: nat)
    requires !Terminal(VerdictOf(rounds, i))
    ensures forall r :: 0 <= r < |rounds| && rounds[r].Answered? && i < |rounds[r].replies|
                        ==> !Settles(rounds[r].replies[i])
  {
    if rounds != [] {
      var init := rounds[..|rounds| - 1];
      NothingSettled(init, i);
      assert forall r :: 0 <= r < |init| ==> init[r] == rounds[r];
    }
  }

  lemma {:induction false} SettlingAttempt(rounds: seq<Round>, i: nat) returns (r: nat)
    requires Terminal(VerdictOf(rounds, i))
    ensures SettledAt(rounds, i, r) && Judge(rounds[r].replies[i]) == VerdictOf(rounds, i)
  {
    var init := rounds[..|rounds| - 1];
    if Terminal(VerdictOf(init, i)) {
      r := SettlingAttempt(init, i);
    } else {
      NothingSettled(init, i);
      r := |init|;
    }
  }

  /** A caller gets the invalid-token error exactly when the first attempt that settles the
      notification blames the token, and nil exactly when that attempt reports success or is silent.
      So nil means that FCM reported success iff that attempt is not silent. */
  lemma AnswerMeaning(rounds: seq<Round>, i: nat)
    ensures AnswerOf(rounds, i) == Some(InvalidDeviceToken) <==>
            exists r: nat :: SettledAt(rounds, i, r) && BlamesToken(rounds[r].replies[i])
    ensures AnswerOf(rounds, i) == None <==>
            exists r: nat :: SettledAt(rounds, i, r) && (rounds[r].replies[i].success || Silent(rounds[r].replies[i]))
    ensures (AnswerOf(rounds, i) == None <==> exists r: nat :: SettledAt(rounds, i, r) && rounds[r].replies[i].success)
       <==> !exists r: nat :: SettledAt(rounds, i, r) && Silent(rounds[r].replies[i])
  {
    if Terminal(VerdictOf(rounds, i)) {
      var r := SettlingAttempt(rounds, i);
      assert forall q: nat :: SettledAt(rounds, i, q) ==> q == r;
    } else {
      NothingSettled(rounds, i);
    }
  }

  lemma TerminalMeaning(rounds: seq<Round>, i: nat)
    ensures Terminal(VerdictOf(rounds, i)) <==> Settled(rounds, i)
  {
    if Terminal(VerdictOf(rounds, i)) {
      var r := SettlingAttempt(rounds, i);
    } else {
      NothingSettled(rounds, i);
    }
  }

  /** When retrying is over, on FCM's own replies: the last attempt met the expired context, or it was
      answered and every notification is settled. A refusal for any other reason ends nothing. */
  lemma OverMeaning(rounds: seq<Round>, n: nat)
    ensures Over(rounds, n) <==>
            rounds != [] && (rounds[|rounds| - 1] == Refused(true) ||
                             (rounds[|rounds| - 1].Answered? && forall i: nat :: i < n ==> Settled(rounds, i)))
  {
    forall i: nat
      ensures Terminal(VerdictOf(rounds, i)) <==> Settled(rounds, i)
    {
      TerminalMeaning(rounds, i);
    }
  }

  lemma {:induction false} FailedLast(rounds: seq<Round>, i: nat) returns (r: nat)
    requires VerdictOf(rounds, i).Failed?
    ensures LastReplied(rounds, i, r) && rounds[r].replies[i] == Response(false, Some(VerdictOf(rounds, i).cause))
  {
    var init, last := rounds[..|rounds| - 1], rounds[|rounds| - 1];
    if last.Answered? && i < |last.replies| {
      r := |init|;
    } else {
      r := FailedLast(init, i);
    }
  }

  lemma {:induction false} UntriedMeaning(rounds: seq<Round>, i: nat)
    ensures VerdictOf(rounds, i).Untried? <==>
            forall r :: 0 <= r < |rounds| && rounds[r].Answered? ==> i >= |rounds[r].replies|
  {
    if rounds != [] {
      var init := rounds[..|rounds| - 1];
      UntriedMeaning(init, i);
      assert forall r :: 0 <= r < |init| ==> init[r] == rounds[r];
    }
  }

  /** The two other errors: a notification that FCM never replied for was not attempted, and one that
      it did reply for without settling it failed with the error of the last reply. */
  lemma FailureMeaning(rounds: seq<Round>, i: nat, cause: FcmError)
    ensures AnswerOf(rounds, i) == Some(NotAttempted) <==>
            forall r :: 0 <= r < |rounds| && rounds[r].Answered? ==> i >= |rounds[r].replies|
    ensures AnswerOf(rounds, i) == Some(SendFailed(cause)) <==>
            !Settled(rounds, i) &&
            exists r: nat :: LastReplied(rounds, i, r) && rounds[r].replies[i].error == Some(cause)
  {
    UntriedMeaning(rounds, i);
    TerminalMeaning(rounds, i);
    if VerdictOf(rounds, i).Failed? {
      var r := FailedLast(rounds, i);
      assert forall q: nat :: LastReplied(rounds, i, q) ==> q == r;
    }
  }

  /** What FCM replied for notification `i`, attempt after attempt, as long as it was asked. */
  function RepliesTo(rounds: seq<Round>, i: nat): seq<Response> {
    if rounds == [] then [] else
    var init, last := rounds[..|rounds| - 1], rounds[|rounds| - 1];
    RepliesTo(init, i) +
    if Terminal(VerdictOf(init, i)) || last.Refused? || i >= |last.replies| then [] else [last.replies[i]]
  }

  /** The error that is true to what FCM replied: nil after a success or a silent reply, an invalid token
      after one that blames it, no attempt without replies, and else the error of the last reply. Only
      the last reply may settle the matter, so after it nothing is sent again. */
  ghost predicate TrueTo(told: seq<Response>, err: Option<SendError>) {
    && (err == None <==> exists reply :: reply in told && (reply.success || Silent(reply)))
    && (err == Some(InvalidDeviceToken) <==> exists reply :: reply in told && BlamesToken(reply))
    && (err == Some(NotAttempted) <==> told == [])
    && (forall cause :: err == Some(SendFailed(cause)) <==>
                        told != [] && told[|told| - 1].error == Some(cause) && forall r :: r in told ==> !Settles(r))
    && (forall q :: 0 <= q < |told| - 1 ==> !Settles(told[q]))
  }

  lemma {:induction false} VerdictTells(rounds: seq<Round>, i: nat)
    ensures var told, v := RepliesTo(rounds, i), VerdictOf(rounds, i);
            && (told == [] <==> v.Untried?)
            && (told != [] ==> v == Judge(told[|told| - 1]))
            && (forall q :: 0 <= q < |told| - 1 ==> !Settles(told[q]))
  {
    if rounds != [] {
      VerdictTells(rounds[..|rounds| - 1], i);
    }
  }

  lemma AnswerIsTrue(rounds: seq<Round>, i: nat)
    ensures TrueTo(RepliesTo(rounds, i), AnswerOf(rounds, i))
  {
    VerdictTells(rounds, i);
    var told := RepliesTo(rounds, i);
    if told != [] {
      assert told[|told| - 1] in told;
      assert forall r :: r in told && Settles(r) ==> r == told[|told| - 1];
    }
  }

  /** A silent reply is answered with nil although FCM reported no success. */
  lemma SilentCountsAsSuccess()
    ensures var reply := Response(false, None); !reply.success && AnswerOf([Answered([reply])], 0) == None
  {
    var rounds := [Answered([Response(false, None)])];
    assert rounds[..0] == [];
  }

  /** Either no attempt was answered and nothing is known, or everything is known. */
  lemma {:induction false} UntriedTogether(rounds: seq<Round>, n: nat, i: nat)
    requires WellFormed(rounds, n) && i < n
    ensures VerdictOf(rounds, i).Untried? <==> forall r :: 0 <= r < |rounds| ==> rounds[r].Refused?
  {
    if rounds != [] {
      var init := rounds[..|rounds| - 1];
      assert forall r :: 0 <= r < |init| ==> init[r] == rounds[r];
      UntriedTogether(init, n, i);
    }
  }

  /** What is settled stays as it is: no later attempt sends the notification again or changes what
      is known about it. */
  lemma {:induction false} SettledForGood(rounds: seq<Round>, j: nat, k: nat, i: nat)
    requires j <= k <= |rounds| && Terminal(VerdictOf(rounds[..j], i))
    ensures VerdictOf(rounds[..k], i) == VerdictOf(rounds[..j], i)
  {
    if j < k {
      SettledForGood(rounds, j, k - 1, i);
      assert rounds[..k][..k - 1] == rounds[..k - 1];
    }
  }

  /** While retrying is not over, some notification is still open, so no request is empty. */
  lemma {:induction false} OpenOne(rounds: seq<Round>, n: nat) returns (open: nat)
    requires n > 0 && WellFormed(rounds, n) && !Over(rounds, n)
    requires forall k :: 0 < k < |rounds| ==> !Over(rounds[..k], n)
    ensures open < n && !Terminal(VerdictOf(rounds, open))
  {
    open := 0;
    if rounds != [] {
      var last := rounds[|rounds| - 1];
      if last.Answered? {
        open :| 0 <= open < n && !Terminal(VerdictOf(rounds, open));
      } else {
        var init := rounds[..|rounds| - 1];
        assert forall k :: 0 < k <= |init| ==> init[..k] == rounds[..k];
        assert init == [] || !Over(rounds[..|init|], n);
        open := OpenOne(init, n);
      }
    }
  }

  // Cardinality facts behind the two size comparisons of the source.

  function UpTo(n: nat): (s: set<nat>)
    ensures forall i :: i in s <==> 0 <= i < n
    ensures |s| == n
  {
    if n == 0 then {} else UpTo(n - 1) + {n - 1}
  }

  lemma {:induction false} SubsetSize<T>(small: set<T>, big: set<T>)
    requires small <= big
    ensures |small| <= |big|
    ensures |small| == |big| ==> small == big
  {
    assert big == small + (big - small);
    assert |big| == |small| + |big - small|;
  }

  /** Two disjoint sets of indices below `n` have `n` elements together iff they cover all. */
  lemma SplitSize(a: set<nat>, b: set<nat>, n: nat)
    requires a !! b
    requires forall i :: i in a || i in b ==> i < n
    ensures |a| + |b| == n <==> forall i :: 0 <= i < n ==> i in a || i in b
  {
    var all := UpTo(n);
    assert a + b <= all;
    assert |a + b| == |a| + |b|;
    SubsetSize(a + b, all);
    if forall i :: 0 <= i < n ==> i in a || i in b {
      assert a + b == all;
    }
    if |a| + |b| == n {
      assert forall i :: 0 <= i < n ==> i in all;
    }
  }

  /** The message carries its notification's own contents, each where it belongs. */
  predicate Carries(m: Message, p: Payload) {
    m.data == p.data && m.token == p.target && m.title == p.title && m.body == p.body && m.imageUrl == p.imageUrl
  }

  predicate Ascending(s: seq<nat>) {
    forall j, k :: 0 <= j < k < |s| ==> s[j] < s[k]
  }

  class NotificationBatch {
    const notifications: seq<Notification>
    var invalid: set<nat>
    var notified: set<nat>
    var failed: map<nat, SendError>
    ghost var rounds: seq<Round>

    /** The three index sets say about notification `i` exactly what `v` says. */
    ghost predicate Records(i: nat, v: Verdict)
      reads this
    {
      && (i in notified <==> v.Sent?)
      && (i in invalid <==> v.BadToken?)
      && (i in failed <==> v.BadToken? || v.Failed?)
      && (v.BadToken? ==> failed[i] == InvalidDeviceToken)
      && (v.Failed? ==> failed[i] == SendFailed(v.cause))
    }

    ghost predicate InRange()
      reads this
    {
      && (forall i :: i in notified ==> i < |notifications|)
      && (forall i :: i in invalid ==> i < |notifications|)
      && (forall i :: i in failed ==> i < |notifications|)
    }

    ghost predicate Valid()
      reads this
    {
      && InRange()
      && WellFormed(rounds, |notifications|)
      && forall i: nat :: i < |notifications| ==> Records(i, VerdictOf(rounds, i))
    }

    /** What the index sets satisfy between attempts. */
    lemma Bookkeeping()
      requires Valid()
      ensures notified !! failed.Keys && invalid <= failed.Keys
      ensures notified + failed.Keys == {} || notified + failed.Keys == UpTo(|notifications|)
    {
      assert forall i :: i in notified || i in invalid || i in failed ==> Records(i, VerdictOf(rounds, i));
      if i: nat, j: nat :| i < |notifications| && j < |notifications| && (i in notified || i in failed) &&
                           j !in notified && j !in failed {
        assert Records(i, VerdictOf(rounds, i)) && Records(j, VerdictOf(rounds, j));
        UntriedTogether(rounds, |notifications|, i);
        UntriedTogether(rounds, |notifications|, j);
      }
    }

    constructor (notifications: seq<Notification>)
      ensures Valid() && this.notifications == notifications && rounds == []
    {
      this.notifications := notifications;
      invalid, notified, failed := {}, {}, map[];
      rounds := [];
    }

    method BuildFcmMessages() returns (messages: seq<Message>, indices: seq<nat>)
      ensures Ascending(indices)
      ensures forall i :: i in indices <==> 0 <= i < |notifications| && i !in invalid && i !in notified
      ensures |messages| == |indices|
      ensures forall k :: 0 <= k < |indices| ==>
                            indices[k] < |notifications| && Carries(messages[k], notifications[indices[k]].payload)
    {
      messages, indices := [], [];
      for idx := 0 to |notifications|
        invariant Ascending(indices)
        invariant forall i :: i in indices <==> 0 <= i < idx && i !in invalid && i !in notified
        invariant |messages| == |indices|
        invariant forall k :: 0 <= k < |indices| ==>
                                indices[k] < idx && Carries(messages[k], notifications[indices[k]].payload)
      {
        if idx !in invalid && idx !in notified {
          indices := indices + [idx];
          var p := notifications[idx].payload;
          messages := messages + [Message(p.data, p.target, p.title, p.body, p.imageUrl)];
        }
      }
    }

    /** What the loop over the replies does with one of them. */
    method Record(i: nat, resp: Response)
      requires InRange() && i < |notifications| && i !in notified && i !in invalid
      modifies this`invalid, this`notified, this`failed
      ensures InRange() && Records(i, Judge(resp))
      ensures forall k: nat, v :: k != i && old(Records(k, v)) ==> Records(k, v)
    {
      if !resp.success && resp.error.Some? {
        if resp.error.value.OtherError? {
          failed := failed[i := SendFailed(resp.error.value)];
        } else {
          invalid := invalid + {i};
          failed := failed[i := InvalidDeviceToken];
        }
      } else {
        failed := failed - {i};
        notified := notified + {i};
      }
    }

    /** One attempt. Exactly the notifications not yet settled are sent, in order. */
    method FcmSendAll(round: Round) returns (outcome: Attempt, messages: seq<Message>, indices: seq<nat>)
      requires Valid() && WellFormed([round], |notifications|)
      modifies this
      ensures Valid() && rounds == old(rounds) + [round]
      ensures Ascending(indices)
      ensures forall i :: i in indices <==> Open(old(rounds), |notifications|, i)
      ensures |messages| == |indices|
      ensures forall k :: 0 <= k < |indices| ==>
                            indices[k] < |notifications| && Carries(messages[k], notifications[indices[k]].payload)
      ensures outcome.Finished? <==> round.Answered? && AllTerminal(rounds, |notifications|)
      ensures outcome.Permanent? <==> round == Refused(true)
    {
      ghost var before := rounds;
      messages, indices := BuildFcmMessages();
      rounds := rounds + [round];
      assert rounds[..|rounds| - 1] == before;
      if round.Refused? {
        outcome := if round.deadline then Permanent else Retry;
        return;
      }
      assert [round][0] == round;
      for idx := 0 to |indices|
        invariant InRange()
        invariant rounds == before + [round]
        invariant forall i: nat :: i < |notifications| ==>
                                     Records(i, if i in indices[..idx] then Judge(round.replies[i])
                                             else VerdictOf(before, i))
      {
        var i := indices[idx];
        assert i !in indices[..idx];
        assert indices[..idx + 1] == indices[..idx] + [i];
        assert Records(i, VerdictOf(before, i));
        Record(i, round.replies[i]);
      }
      assert indices[..|indices|] == indices;
      assert forall i: nat :: i < |notifications| ==> Records(i, VerdictOf(rounds, i));
      forall i: nat | i < |notifications|
        ensures (i in invalid || i in notified) <==> Terminal(VerdictOf(rounds, i))
      {
        assert Records(i, VerdictOf(rounds, i));
      }
      assert forall i :: i in notified ==> Records(i, VerdictOf(rounds, i));
      SplitSize(invalid, notified, |notifications|);
      outcome := if |notifications| == |invalid| + |notified| then Finished else Retry;
    }

    /** What the responder of notification `i` is told. */
    function Answer(i: nat): Option<SendError>
      reads this
    {
      if i in failed then Some(failed[i]) else None
    }

    /** What `Process` does, on FCM's own replies. */
    lemma StopsOnlyWhenOver(script: seq<Round>, requests: seq<seq<nat>>)
      requires 1 <= |rounds| <= |script| && rounds == script[..|rounds|] && |requests| == |rounds|
      requires forall k :: 0 < k < |rounds| ==> !Over(rounds[..k], |notifications|)
      requires forall k, i :: 0 <= k < |requests| ==> (i in requests[k] <==> Open(rounds[..k], |notifications|, i))
      ensures Over(rounds, |notifications|) ==>
                script[|rounds| - 1] == Refused(true) ||
                (script[|rounds| - 1].Answered? && AllSettled(rounds, |notifications|))
      ensures forall k :: 0 <= k < |rounds| - 1 ==>
                            script[k] != Refused(true) &&
                            (script[k].Answered? ==> !AllSettled(script[..k + 1], |notifications|))
      ensures forall k, i: nat :: 0 <= k < |requests| ==>
                                    (i in requests[k] <==> i < |notifications| && !Settled(script[..k], i))
    {
      OverMeaning(rounds, |notifications|);
      forall k | 0 <= k < |rounds| - 1
        ensures script[k] != Refused(true)
        ensures script[k].Answered? ==> !AllSettled(script[..k + 1], |notifications|)
      {
        assert rounds[..k + 1] == script[..k + 1];
        OverMeaning(script[..k + 1], |notifications|);
      }
      forall k, i: nat | 0 <= k < |requests|
        ensures i in requests[k] <==> i < |notifications| && !Settled(script[..k], i)
      {
        assert rounds[..k] == script[..k];
        TerminalMeaning(script[..k], i);
      }
    }

    /** All attempts, then the deadline fill. `script` is what FCM would do for as long as
        RetryNotify is willing to go on; `requests` are the index lists actually sent. */
    method Process(script: seq<Round>) returns (requests: seq<seq<nat>>)
      requires Valid() && rounds == [] && notifications != []
      requires script != [] && WellFormed(script, |notifications|)
      modifies this
      ensures 1 <= |rounds| <= |script| && rounds == script[..|rounds|]
      ensures |rounds| == |script| || script[|rounds| - 1] == Refused(true) ||
              (script[|rounds| - 1].Answered? && AllSettled(rounds, |notifications|))
      ensures forall k :: 0 <= k < |rounds| - 1 ==>
                            script[k] != Refused(true) &&
                            (script[k].Answered? ==> !AllSettled(script[..k + 1], |notifications|))
      ensures |requests| == |rounds|
      ensures forall k :: 0 <= k < |requests| ==> requests[k] != [] && Ascending(requests[k])
      ensures forall k, i: nat :: 0 <= k < |requests| ==>
                                    (i in requests[k] <==> i < |notifications| && !Settled(script[..k], i))
      ensures forall i: nat :: i < |notifications| ==> Answer(i) == AnswerOf(rounds, i)
    {
      requests := [];
      var done := false;
      while !done && |requests| < |script|
        invariant Valid() && |requests| == |rounds| <= |script| && rounds == script[..|rounds|]
        invariant done ==> Over(rounds, |notifications|)
        invariant !done ==> !Over(rounds, |notifications|)
        invariant forall k :: 0 < k < |rounds| ==> !Over(rounds[..k], |notifications|)
        invariant forall k :: 0 <= k < |requests| ==> requests[k] != [] && Ascending(requests[k])
        invariant forall k, i :: 0 <= k < |requests| ==>
                                   (i in requests[k] <==> Open(rounds[..k], |notifications|, i))
        decreases |script| - |requests|, !done
      {
        ghost var before := rounds;
        ghost var open := OpenOne(before, |notifications|);
        var outcome, messages, indices := FcmSendAll(script[|requests|]);
        assert open in indices;
        assert forall k :: 0 <= k < |before| ==> rounds[..k] == before[..k];
        assert rounds[..|before|] == before && before[..|before|] == before;
        requests := requests + [indices];
        done := !outcome.Retry?;
      }
      Fill();
      StopsOnlyWhenOver(script, requests);
    }

    /** The size comparison of the deadline fill: it fails only if nothing is known of anyone. */
    lemma NothingKnown()
      requires Valid()
      ensures |notified| + |failed.Keys| != |notifications| ==> notified == {} && failed.Keys == {}
      ensures |notified| + |failed.Keys| != |notifications| ==>
                forall i: nat :: i < |notifications| ==> VerdictOf(rounds, i).Untried?
      ensures |notified| + |failed.Keys| == |notifications| ==>
                forall i: nat :: i < |notifications| ==> !VerdictOf(rounds, i).Untried?
    {
      Bookkeeping();
      SplitSize(notified, failed.Keys, |notifications|);
      assert forall i: nat :: i < |notifications| ==> Records(i, VerdictOf(rounds, i));
      assert forall i: nat :: i < |notifications| ==> i in UpTo(|notifications|);
    }

    /** The deadline fill. */
    method Fill()
      requires Valid()
      modifies this`failed
      ensures forall i: nat :: i < |notifications| ==> Answer(i) == AnswerOf(rounds, i)
    {
      NothingKnown();
      assert forall i: nat :: i < |notifications| ==> Records(i, VerdictOf(rounds, i));
      if |notifications| != |notified| + |failed| {
        for i := 0 to |notifications|
          invariant forall k: nat :: k in failed <==> k < i
          invariant forall k: nat :: k < i ==> failed[k] == NotAttempted
        {
          if i !in notified {
            failed := failed[i := NotAttempted];
          }
        }
      }
    }

    /** One goroutine per notification, scheduled in any order; each makes one delivery attempt,
        to the responder if there is one and to the log otherwise. */
    method Respond() returns (delivered: seq<(nat, Option<SendError>)>)
      ensures |delivered| == |notifications|
      ensures forall i: nat :: i < |notifications| ==> multiset(delivered)[(i, Answer(i))] == 1
    {
      delivered := [];
      var waiting := UpTo(|notifications|);
      while waiting != {}
        invariant forall i :: i in waiting ==> i < |notifications|
        invariant |delivered| + |waiting| == |notifications|
        invariant forall i: nat, err :: (i, err) in delivered ==> i !in waiting
        invariant forall i: nat :: i < |notifications| ==>
                                     multiset(delivered)[(i, Answer(i))] == if i in waiting then 0 else 1
        decreases waiting
      {
        var ix :| ix in waiting;
        waiting := waiting - {ix};
        delivered := delivered + [(ix, Answer(ix))];
      }
    }
  }
}
