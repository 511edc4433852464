/** When a reply is read, and what the listener is told when it is not.

    `Exchanging` says how an exchange comes out by the steps that it takes. Here the same is said by the answers of
    the peer: `ReadExactly` for the reply that is read, `FailsExactly` for the code of each failure before it. */
module ConverseMeaning {
  import opened Bytes
  import opened Base64
  import opened Protocol
  import opened ConversationSpec
  import opened JsonRead
  import opened Converse

  // ------------------------------------------------------------ sending

  /** What the first writes have carried. */
  function Carried(sends: seq<Send>): int {
    if sends == [] then 0 else Carried(sends[..|sends| - 1]) + sends[|sends| - 1].wrote
  }

  /** `n` writes in a row have succeeded, none of them after a cancellation was seen or once all was sent. */
  predicate Succeed(sends: seq<Send>, total: int, n: nat) {
    && n <= |sends|
    && forall k | 0 <= k < n :: Carried(sends[..k]) < total && !sends[k].cancelled && sends[k].wrote > 0
  }

  /** Sending is done after `n` writes: everything is sent, or a cancellation was seen before the next one. */
  predicate DoneAfter(sends: seq<Send>, total: int, n: nat) {
    && Succeed(sends, total, n)
    && (Carried(sends[..n]) >= total || (n < |sends| && sends[n].cancelled))
  }

  predicate FailsAfter(sends: seq<Send>, total: int, n: nat) {
    && Succeed(sends, total, n) && Carried(sends[..n]) < total
    && n < |sends| && !sends[n].cancelled && sends[n].wrote <= 0
  }

  lemma {:induction false} SendsOn(sends: seq<Send>, total: int, n: nat)
    requires Succeed(sends, total, n)
    ensures AudioSent(sends, total) == AudioSent(sends[n..], total - Carried(sends[..n]))
    decreases n
  {
    if n == 0 {
      assert sends[0..] == sends;
    } else {
      SendsOn(sends, total, n - 1);
      assert sends[n - 1..][0] == sends[n - 1] && sends[n - 1..][1..] == sends[n..];
      assert sends[..n][..n - 1] == sends[..n - 1];
    }
  }

  /** Sending audio comes out as the first write says that neither succeeds nor is spared. */
  lemma SendsExactly(sends: seq<Send>, total: int)
    ensures AudioSent(sends, total) == Sent(false) <==> exists n: nat :: DoneAfter(sends, total, n)
    ensures AudioSent(sends, total) == Sent(true) <==> exists n: nat :: FailsAfter(sends, total, n)
    ensures AudioSent(sends, total) == Unsent <==> Succeed(sends, total, |sends|) && Carried(sends) < total
  {
    hide AudioSent, Carried;
    var n := SendsEnd(sends, total);
    assert sends[..|sends|] == sends;
    forall m: nat | DoneAfter(sends, total, m) ensures AudioSent(sends, total) == Sent(false) {
      SendsOn(sends, total, m);
      NextSend(sends, m, total - Carried(sends[..m]));
    }
    forall m: nat | FailsAfter(sends, total, m) ensures AudioSent(sends, total) == Sent(true) {
      SendsOn(sends, total, m);
      NextSend(sends, m, total - Carried(sends[..m]));
    }
    if Succeed(sends, total, |sends|) && Carried(sends) < total {
      SendsOn(sends, total, |sends|);
      NextSend(sends, |sends|, total - Carried(sends));
    }
  }

  lemma NextSend(sends: seq<Send>, n: nat, left: int)
    requires n <= |sends|
    ensures left <= 0 ==> AudioSent(sends[n..], left) == Sent(false)
    ensures left > 0 && n == |sends| ==> AudioSent(sends[n..], left) == Unsent
    ensures left > 0 && n < |sends| && sends[n].cancelled ==> AudioSent(sends[n..], left) == Sent(false)
    ensures left > 0 && n < |sends| && !sends[n].cancelled && sends[n].wrote <= 0 ==>
      AudioSent(sends[n..], left) == Sent(true)
  {
  }

  /** Where the writes that succeed end. */
  lemma SendsEnd(sends: seq<Send>, total: int) returns (n: nat)
    ensures DoneAfter(sends, total, n) || FailsAfter(sends, total, n)
            || (n == |sends| && Succeed(sends, total, n) && Carried(sends) < total)
  {
    hide AudioSent;
    n := 0;
    while n < |sends| && Carried(sends[..n]) < total && !sends[n].cancelled && sends[n].wrote > 0
      invariant Succeed(sends, total, n)
    {
      n := n + 1;
    }
    assert sends[..|sends|] == sends;
  }

  // ---------------------------------------------------------- the headers

  /** `n` waits in a row ended without headers, none of them cancelled or past the deadline of ten seconds. */
  predicate Waits(fetches: seq<Fetch>, startedAt: nat, n: nat) {
    && n <= |fetches|
    && forall k | 0 <= k < n ::
         fetches[k].Pending? && !fetches[k].cancelled && Since(fetches[k].now, startedAt) < 10000
  }

  predicate AnswersAfter(peer: Peer, n: nat) {
    Waits(peer.fetches, peer.startedAt, n) && n < |peer.fetches| && peer.fetches[n].Fetched?
  }

  predicate StopsAfter(peer: Peer, n: nat) {
    && Waits(peer.fetches, peer.startedAt, n) && n < |peer.fetches| && peer.fetches[n].Pending?
    && (peer.fetches[n].cancelled || Since(peer.fetches[n].now, peer.startedAt) >= 10000)
  }

  lemma {:induction false} FetchesOn(fetches: seq<Fetch>, startedAt: nat, status: int, n: nat)
    requires Waits(fetches, startedAt, n)
    ensures HeadersFetched(fetches, startedAt, status) == HeadersFetched(fetches[n..], startedAt, status)
    decreases n
  {
    hide Since;
    if n == 0 {
      assert fetches[0..] == fetches;
    } else {
      FetchesOn(fetches, startedAt, status, n - 1);
      assert fetches[n - 1..][0] == fetches[n - 1] && fetches[n - 1..][1..] == fetches[n..];
    }
  }

  /** Where the waiting for the headers ends. */
  lemma WaitEnds(peer: Peer) returns (n: nat)
    ensures AnswersAfter(peer, n) || StopsAfter(peer, n)
            || (n == |peer.fetches| && Waits(peer.fetches, peer.startedAt, n))
  {
    hide Since;
    n := 0;
    while && n < |peer.fetches| && peer.fetches[n].Pending? && !peer.fetches[n].cancelled
          && Since(peer.fetches[n].now, peer.startedAt) < 10000
      invariant Waits(peer.fetches, peer.startedAt, n)
    {
      n := n + 1;
    }
  }

  lemma NextFetch(peer: Peer, n: nat)
    requires n <= |peer.fetches|
    ensures
      HeadersFetched(peer.fetches[n..], peer.startedAt, peer.status)
      == if n == |peer.fetches| then Waiting
         else
           match peer.fetches[n]
           case Fetched(result) => if result < 0 || peer.status != 200 then Failing(Unavailable) else Passed
           case Pending(cancelled, now) =>
             if cancelled then Failing(CancelledError)
             else if Since(now, peer.startedAt) >= 10000 then Failing(Timeout)
             else HeadersFetched(peer.fetches[n + 1..], peer.startedAt, peer.status)
  {
    hide Since;
    if n < |peer.fetches| {
      assert peer.fetches[n..][0] == peer.fetches[n] && peer.fetches[n..][1..] == peer.fetches[n + 1..];
    }
  }

  // ---------------------------------------------------- the whole opening

  predicate HasRequest(text: string, pcm: Option<seq<byte>>, peer: Peer) {
    peer.hasUrl && (text != "" || pcm.Some?)
  }

  predicate BodyFits(text: string) { text == "" || |TextBody(text)| <= 3072 }

  /** The gateway is there and takes the header of recorded audio. */
  predicate Begun(text: string, pcm: Option<seq<byte>>, peer: Peer) {
    && HasRequest(text, pcm, peer) && peer.hasClient && BodyFits(text) && peer.reached
    && (text == "" ==> peer.headerSent)
  }

  /** The body has been sent, or cut short by a cancellation that the exchange is about to see. */
  ghost predicate BodySent(text: string, pcm: Option<seq<byte>>, peer: Peer)
    requires HasRequest(text, pcm, peer)
  {
    if text != "" then peer.bodyWrote == |TextBody(text)| else exists n: nat :: DoneAfter(peer.sends, |pcm.value|, n)
  }

  ghost predicate BodyLost(text: string, pcm: Option<seq<byte>>, peer: Peer)
    requires HasRequest(text, pcm, peer)
  {
    if text != "" then peer.bodyWrote != |TextBody(text)| else exists n: nat :: FailsAfter(peer.sends, |pcm.value|, n)
  }

  ghost predicate RequestMade(text: string, pcm: Option<seq<byte>>, peer: Peer) {
    Begun(text, pcm, peer) && BodySent(text, pcm, peer) && !peer.cancelledAfterSend
  }

  predicate IsGood(peer: Peer, n: nat)
    requires AnswersAfter(peer, n)
  {
    peer.fetches[n].result >= 0 && peer.status == 200
  }

  lemma BodyExactly(text: string, pcm: Option<seq<byte>>, peer: Peer)
    requires HasRequest(text, pcm, peer) && peer.hasClient
    ensures RequestSent(text, pcm, peer) ==
      if !BodyFits(text) then Failing(InvalidArgument)
      else if !Begun(text, pcm, peer) then Failing(Unavailable)
      else if !BodySent(text, pcm, peer) && !BodyLost(text, pcm, peer) then Waiting
      else if peer.cancelledAfterSend then Failing(CancelledError)
      else if BodyLost(text, pcm, peer) then Failing(Unavailable)
      else Passed
    ensures !(BodySent(text, pcm, peer) && BodyLost(text, pcm, peer))
  {
    hide TextBody, DoneAfter, FailsAfter, AudioSent, Succeed;
    if pcm.Some? {
      SendsExactly(peer.sends, |pcm.value|);
    }
  }

  lemma FetchExactly(peer: Peer) returns (n: nat)
    ensures n <= |peer.fetches|
    ensures
      var p := HeadersFetched(peer.fetches, peer.startedAt, peer.status);
      if AnswersAfter(peer, n) then p == if IsGood(peer, n) then Passed else Failing(Unavailable)
      else if StopsAfter(peer, n) then p == Failing(if peer.fetches[n].cancelled then CancelledError else Timeout)
      else p == Waiting
    ensures forall m: nat :: AnswersAfter(peer, m) || StopsAfter(peer, m) ==> m == n
    ensures !(AnswersAfter(peer, n) && StopsAfter(peer, n))
  {
    hide Since, HeadersFetched;
    n := WaitEnds(peer);
    FetchesOn(peer.fetches, peer.startedAt, peer.status, n);
    NextFetch(peer, n);
  }

  /** A reply is read if and only if there is a url and something to send, a client is made, the body fits, the gateway
      is reached, every write succeeds, nothing is cancelled after them, and the first answer to the waiting for headers
      is good, with status 200, before any cancellation is seen and before the deadline. */
  lemma ReadExactly(text: string, pcm: Option<seq<byte>>, peer: Peer)
    ensures Opened(text, pcm, peer) == Passed <==>
      RequestMade(text, pcm, peer) && exists n: nat :: AnswersAfter(peer, n) && IsGood(peer, n)
  {
    hide RequestSent, HeadersFetched, BodySent, BodyLost, BodyFits, AnswersAfter, StopsAfter, IsGood, Waits;
    if HasRequest(text, pcm, peer) && peer.hasClient {
      BodyExactly(text, pcm, peer);
    }
    var n := FetchExactly(peer);
  }

  /** Until then, the first step that fails names the code. */
  lemma FailsExactly(text: string, pcm: Option<seq<byte>>, peer: Peer)
    ensures
      var p := Opened(text, pcm, peer);
      var asked := HasRequest(text, pcm, peer);
      && (p == Failing(Internal) <==> asked && !peer.hasClient)
      && (p == Failing(InvalidArgument) <==> asked && peer.hasClient && !BodyFits(text))
      && (p == Failing(CancelledError) <==>
            || (Begun(text, pcm, peer) && (BodySent(text, pcm, peer) || BodyLost(text, pcm, peer))
                && peer.cancelledAfterSend)
            || (RequestMade(text, pcm, peer) && exists n: nat :: StopsAfter(peer, n) && peer.fetches[n].cancelled))
      && (p == Failing(Timeout) <==>
            RequestMade(text, pcm, peer) && exists n: nat :: StopsAfter(peer, n) && !peer.fetches[n].cancelled)
      && (p == Failing(Unavailable) <==>
            || !asked
            || (peer.hasClient && BodyFits(text) && !Begun(text, pcm, peer))
            || (Begun(text, pcm, peer) && BodyLost(text, pcm, peer) && !peer.cancelledAfterSend)
            || (RequestMade(text, pcm, peer) && exists n: nat :: AnswersAfter(peer, n) && !IsGood(peer, n)))
      && (p.Failing? ==> p.why in {Internal, InvalidArgument, CancelledError, Timeout, Unavailable})
  {
    hide RequestSent, HeadersFetched, BodySent, BodyLost, BodyFits, AnswersAfter, StopsAfter, IsGood, Waits;
    if HasRequest(text, pcm, peer) && peer.hasClient {
      BodyExactly(text, pcm, peer);
    }
    var n := FetchExactly(peer);
  }

  // ------------------------------------------------ what the listener hears

  /** Nothing but a reply with status 200 is ever listened to. */
  lemma OnlyRepliesAreHeard(text: string, pcm: Option<seq<byte>>, peer: Peer, overflow: Overflow)
    ensures Exchanging(text, pcm, peer, overflow).heard != "" ==> peer.status == 200
  {
    hide Opened, Reading, RequestMade, AnswersAfter;
    ReadExactly(text, pcm, peer);
  }

  /** An exchange that fails before the reply tells the listener one thing: that the turn was cancelled, if a
      cancellation was the cause, or that it failed, with the code of the failure. */
  lemma FailureIsTold(text: string, pcm: Option<seq<byte>>, peer: Peer, overflow: Overflow)
    ensures
      var p := Opened(text, pcm, peer);
      p.Failing? ==>
        var told := Told(Exchanging(text, pcm, peer, overflow), overflow);
        told.calls == [OnFinished(if p.why == CancelledError then Cancelled else Failed, p.why)]
  {
    hide Opened, Reading, WholeReply;
    NothingYet(overflow);
  }

  lemma NothingYet(overflow: Overflow)
    ensures Heard("", overflow) == Reaction(StartTurn(overflow), [])
  {
  }

  /** So does one that is broken off while the reply is read, after what was heard of it. */
  lemma BreakIsTold(x: Exchanged, overflow: Overflow)
    requires x.end.BrokenOff? && Heard(x.heard, overflow).turn.outcome == Running
    ensures Told(x, overflow).calls
         == Heard(x.heard, overflow).calls
            + [OnFinished(if x.end.why == CancelledError then Cancelled else Failed, x.end.why)]
  {
    hide Heard, WholeReply;
  }
}
