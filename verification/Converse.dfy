/** One exchange with the gateway: send, wait for the response, read the reply to its end.

    The HTTP client, the clock and the cancellation token are an oracle: a `Peer` lists everything they will
    answer, in the order they are asked. A list may run out; then the exchange has not returned yet. */
module Converse {
  import opened Bytes
  import opened Base64
  import opened Protocol
  import opened ConversationSpec
  import opened Conversation
  import opened JsonRead
  import opened JsonRoundTrip
  import opened JsonSize
  import Sse
  import Speech
  import R = SseSpec
  import S = SpeechSpec
  import W = JsonWriter

  const FIRST_EVENT_DEADLINE_MS: nat := 10000
  const IDLE_DEADLINE_MS: nat := 30000
  const MAX_TEXT_BODY_BYTES: nat := 3072
  const MAX_SPOKEN_TEXT_BYTES: nat := 480
  const READ_BYTES: nat := 1024

  /** Milliseconds on a 32-bit clock that wraps around. */
  function Since(now: nat, start: nat): nat { (now - start) % 0x1_0000_0000 }

  /** One write of recorded audio, and whether a cancellation was seen before it. */
  datatype Send = Send(cancelled: bool, wrote: int)

  /** One wait for the response headers. */
  datatype Fetch = Pending(cancelled: bool, now: nat) | Fetched(result: int)

  datatype Answer = Data(bytes: string) | Nothing | Closed | Broken

  /** One read of the reply. */
  datatype Poll = Poll(cancelled: bool, answer: Answer, now: nat)

  datatype Peer = Peer(hasUrl: bool, hasClient: bool, reached: bool, headerSent: bool, bodyWrote: int,
                       sends: seq<Send>, cancelledAfterSend: bool, startedAt: nat, fetches: seq<Fetch>,
                       status: int, readingAt: nat, polls: seq<Poll>)

  /** A read returns at most what was asked for. */
  predicate IsClient(peer: Peer) {
    forall k | 0 <= k < |peer.polls| :: peer.polls[k].answer.Data? ==> |peer.polls[k].answer.bytes| <= READ_BYTES
  }

  function DataOf(poll: Poll): string { if poll.answer.Data? then poll.answer.bytes else "" }

  function DataIn(polls: seq<Poll>): string {
    if polls == [] then "" else DataOf(polls[0]) + DataIn(polls[1..])
  }

  // ------------------------------------------------------- how it may end

  function Heard(heard: string, overflow: Overflow): Reaction {
    InterpretAll(StartTurn(overflow), R.DataOf(R.Run(R.FRESH, heard).items))
  }

  function Aborted(t: Turn, why: ErrorCode): Reaction {
    Finish(t, if why == CancelledError then Cancelled else Failed, why)
  }

  /** How an exchange ends: not yet; by what was heard; by the close of the stream; or broken off from this side. */
  datatype End = Pending | Over | Read | BrokenOff(why: ErrorCode)

  /** The bytes heard until then. */
  datatype Exchanged = Exchanged(heard: string, end: End)

  /** What the listener has been told by then: it depends on the bytes heard and on the cause of the end alone. */
  function Told(x: Exchanged, overflow: Overflow): Reaction {
    var h := Heard(x.heard, overflow);
    match x.end
    case Pending => h
    case Over => h
    case Read => WholeReply(x.heard, overflow)
    case BrokenOff(why) => Then(h, Aborted(h.turn, why))
  }

  predicate Ended(x: Exchanged, overflow: Overflow) {
    && (x.end.Over? ==> Heard(x.heard, overflow).turn.outcome != Running)
    && (x.end.BrokenOff? ==> x.end.why != NoError)
    && !x.end.Pending?
  }

  predicate Once(r: Reaction) {
    && r.turn.outcome != Running
    && r.calls != [] && r.calls[|r.calls| - 1] == OnFinished(r.turn.outcome, r.turn.code)
    && ConversationSpec.Ends(r.calls) == 1
  }

  /** In all three cases the end has been reported exactly once, as the last call. */
  lemma EndedOnce(x: Exchanged, overflow: Overflow)
    requires Ended(x, overflow)
    ensures Once(Told(x, overflow))
  {
    hide R.Run, R.DataOf, InterpretAll, WholeReply, ConversationSpec.Ends;
    EndsOnce(x.heard, overflow);
    var s := Heard(x.heard, overflow);
    InterpretAllHonest(StartTurn(overflow), R.DataOf(R.Run(R.FRESH, x.heard).items));
    if x.end.BrokenOff? {
      var outcome := if x.end.why == CancelledError then Cancelled else Failed;
      FinishHonest(s.turn, outcome, x.end.why);
      ThenHonest(StartTurn(overflow), s, Aborted(s.turn, x.end.why));
    }
  }

  lemma ToldYet(heard: string, overflow: Overflow)
    ensures Told(Exchanged(heard, End.Pending), overflow) == Heard(heard, overflow)
  {
    hide Heard, WholeReply;
  }

  /** While the exchange is under way: everything heard so far has been acted on. */
  predicate Listening(m: Machine, calls: seq<Call>, heard: string, overflow: Overflow) {
    InStep(m, calls, heard, overflow)
  }

  lemma StartsListening(overflow: Overflow)
    ensures Listening(StartMachine(overflow), [], "", overflow)
  {
    hide InStep;
    StartInStep(overflow);
  }

  lemma ListeningIs(m: Machine, calls: seq<Call>, heard: string, overflow: Overflow)
    requires Listening(m, calls, heard, overflow)
    ensures Reaction(m.turn, calls) == Heard(heard, overflow)
  {
    hide R.Run, R.DataOf, InterpretAll, EndFits;
  }

  // --------------------------------------------------------- the text body

  function TextBody(text: string): string { Render(DBox(true, Entry("text", DText(text), NoEntries))) }

  /** The printed request fits its buffer whenever the text is one that a conversation may be started with,
      and the gateway reads the same text back. */
  lemma TextBodyFits(text: string)
    requires |text| <= MAX_SPOKEN_TEXT_BYTES
    ensures |TextBody(text)| <= MAX_TEXT_BODY_BYTES
    ensures IsPlain(text) ==>
      RawStringOf(TextBody(text), "text").Some? && Unescape(RawStringOf(TextBody(text), "text").value) == Some(text)
  {
    hide TextBody, IsPlain, W.Escape, RawStringOf, Unescape;
    TextBodySize(text);
    EscapeAtMost(text);
    TextBodyReads(text);
  }

  lemma TextBodyReads(text: string)
    ensures IsPlain(text) ==>
      RawStringOf(TextBody(text), "text").Some? && Unescape(RawStringOf(TextBody(text), "text").value) == Some(text)
  {
    var es := Entry("text", DText(text), NoEntries);
    TextEntry(text);
    SafeText();
    assert TextBody(text) == Render(DBox(true, es));
    hide *;
    ReadsBack(es, "text");
    EscapeSafe("text");
  }

  lemma SafeText()
    ensures IsSafe("text")
  {
  }

  lemma TextEntry(text: string)
    ensures
      var es := Entry("text", DText(text), NoEntries);
      && Printable(DBox(true, es)) && PrintHeight(DBox(true, es)) == 1
      && EntryOf(es, "text") == Some(DText(text)) && IsPlain("text")
  {
    assert PrintHeight(DText(text)) == 0 && EntriesPrintHeight(NoEntries) == 0;
    assert EntriesPrintHeight(Entry("text", DText(text), NoEntries)) == 0;
    assert EntryNames(NoEntries) == [];
    assert EntryNames(Entry("text", DText(text), NoEntries)) == ["text"];
  }

  lemma TextBodySize(text: string)
    ensures |TextBody(text)| == 11 + |W.Escape(text)|
  {
    hide W.Escape;
    var es := Entry("text", DText(text), NoEntries);
    RenderSize(DBox(true, es));
    EscapeSafe("text");
    assert EntriesSize(true, NoEntries) == 0;
    assert SizeOf(DText(text)) == 2 + |W.Escape(text)|;
  }

  /** Print the request; false if it did not fit. */
  method WriteTextBody(text: string, body: array<char>) returns (ok: bool, length: nat)
    modifies body
    ensures ok <==> |TextBody(text)| <= body.Length
    ensures ok ==> length == |TextBody(text)| && body[..length] == TextBody(text)
  {
    hide W.Apply, W.Run, Render, OpsOf, W.IsValidPage;
    var writer := new W.JsonWriter(body);
    writer.OpenBracket(true);
    writer.WriteKey("text");
    writer.WriteText(text);
    writer.CloseBracket(true);
    ok := !writer.overflowed && writer.depth == 0;
    length := writer.length;
    TextBodyPrinted(text, body.Length, writer.State());
  }

  lemma TextBodyPrinted(text: string, capacity: nat, page: W.Page)
    requires page == W.Apply(W.Apply(W.Apply(W.Apply(W.BLANK_PAGE, W.Sheet(capacity), W.Begin(true)),
                                             W.Sheet(capacity), W.Key("text")),
                                     W.Sheet(capacity), W.Text(text)),
                             W.Sheet(capacity), W.End(true))
    ensures !page.overflowed && page.stack == [] <==> |TextBody(text)| <= capacity
    ensures !page.overflowed && page.stack == [] ==> page.text == TextBody(text)
  {
    hide W.Apply, Render, Printable, PrintHeight;
    var es := Entry("text", DText(text), NoEntries);
    TextEntry(text);
    PrintedIsAccepted(es, capacity);
    OpsRun(W.BLANK_PAGE, W.Sheet(capacity), DBox(true, es));
    hide OpsOf, W.Run;
    assert RunEntries(W.Apply(W.BLANK_PAGE, W.Sheet(capacity), W.Begin(true)), W.Sheet(capacity), true, es)
        == W.Apply(W.Apply(W.Apply(W.BLANK_PAGE, W.Sheet(capacity), W.Begin(true)), W.Sheet(capacity), W.Key("text")),
                   W.Sheet(capacity), W.Text(text));
  }

  // ------------------------------------------- why it ends: the specification

  /** How a phase of the exchange comes out: not done yet, failed for a reason, or passed. */
  datatype Phase = Waiting | Failing(why: ErrorCode) | Passed

  /** How sending recorded audio comes out, and whether a write failed. */
  datatype Audio = Unsent | Sent(failed: bool)

  function AudioSent(sends: seq<Send>, left: int): Audio
    decreases |sends|
  {
    if left <= 0 then Sent(false)
    else if sends == [] then Unsent
    else if sends[0].cancelled then Sent(false)
    else if sends[0].wrote <= 0 then Sent(true)
    else AudioSent(sends[1..], left - sends[0].wrote)
  }

  function AfterSending(peer: Peer, failed: bool): Phase {
    if peer.cancelledAfterSend then Failing(CancelledError) else if failed then Failing(Unavailable) else Passed
  }

  function RequestSent(text: string, pcm: Option<seq<byte>>, peer: Peer): Phase
    requires text == "" ==> pcm.Some?
  {
    if text != "" && |TextBody(text)| > MAX_TEXT_BODY_BYTES then Failing(InvalidArgument)
    else if !peer.reached then Failing(Unavailable)
    else if text != "" then AfterSending(peer, peer.bodyWrote != |TextBody(text)|)
    else if !peer.headerSent then Failing(Unavailable)
    else
      match AudioSent(peer.sends, |pcm.value|)
      case Unsent => Waiting
      case Sent(failed) => AfterSending(peer, failed)
  }

  function HeadersFetched(fetches: seq<Fetch>, startedAt: nat, status: int): Phase
    decreases |fetches|
  {
    if fetches == [] then Waiting
    else
      match fetches[0]
      case Fetched(result) => if result < 0 || status != 200 then Failing(Unavailable) else Passed
      case Pending(cancelled, now) =>
        if cancelled then Failing(CancelledError)
        else if Since(now, startedAt) >= FIRST_EVENT_DEADLINE_MS then Failing(Timeout)
        else HeadersFetched(fetches[1..], startedAt, status)
  }

  /** Everything before the first byte of the reply. */
  function Opened(text: string, pcm: Option<seq<byte>>, peer: Peer): Phase {
    if !peer.hasUrl || (text == "" && pcm.None?) then Failing(Unavailable)
    else if !peer.hasClient then Failing(Internal)
    else
      var sent := RequestSent(text, pcm, peer);
      if sent.Passed? then HeadersFetched(peer.fetches, peer.startedAt, peer.status) else sent
  }

  /** Reading the reply on, after `heard`, when data last came at `lastData`. */
  function Reading(heard: string, polls: seq<Poll>, lastData: nat, overflow: Overflow): Exchanged
    decreases |polls|
  {
    if Heard(heard, overflow).turn.outcome != Running then Exchanged(heard, Over)
    else if polls == [] then Exchanged(heard, End.Pending)
    else if polls[0].cancelled then Exchanged(heard, BrokenOff(CancelledError))
    else
      match polls[0].answer
      case Data(bytes) => Reading(heard + bytes, polls[1..], polls[0].now, overflow)
      case Nothing =>
        if Since(polls[0].now, lastData) >= IDLE_DEADLINE_MS then Exchanged(heard, BrokenOff(Timeout))
        else Reading(heard, polls[1..], lastData, overflow)
      case Closed => Exchanged(heard, Read)
      case Broken => Exchanged(heard, BrokenOff(Unavailable))
  }

  /** The whole exchange. */
  function Exchanging(text: string, pcm: Option<seq<byte>>, peer: Peer, overflow: Overflow): Exchanged {
    match Opened(text, pcm, peer)
    case Waiting => Exchanged("", End.Pending)
    case Failing(why) => Exchanged("", BrokenOff(why))
    case Passed => Reading("", peer.polls, peer.readingAt, overflow)
  }

  // ------------------------------------------------------------ the exchange

  method Abort(turn: ConversationTurn, why: ErrorCode, ghost heard: string)
    requires turn.Valid() && Listening(turn.Whole(), turn.calls, heard, turn.overflow) && why != NoError
    modifies turn`outcome, turn`code, turn`calls
    ensures turn.Valid()
    ensures Reaction(turn.State(), turn.calls) == Told(Exchanged(heard, BrokenOff(why)), turn.overflow)
    ensures old(turn.outcome) == Running ==> turn.outcome == Cancelled || turn.outcome == Failed
  {
    hide R.Run, R.DataOf, InterpretAll, WholeReply;
    ListeningIs(turn.Whole(), turn.calls, heard, turn.overflow);
    hide Listening, Heard;
    turn.Abort(why);
  }

  /** Send the request. `done` is false while a write is still outstanding; otherwise `why` tells why the
      exchange cannot go on, or NoError if it can. */
  method SendRequest(text: string, pcm: Option<seq<byte>>, peer: Peer) returns (done: bool, why: ErrorCode)
    requires text == "" ==> pcm.Some?
    ensures PhaseIs(RequestSent(text, pcm, peer), done, why)
    ensures |text| <= MAX_SPOKEN_TEXT_BYTES ==> why != InvalidArgument
  {
    hide TextBody;
    var body := new char[MAX_TEXT_BODY_BYTES];
    var total := 0;
    if text != "" {
      var ok, length := WriteTextBody(text, body);
      if |text| <= MAX_SPOKEN_TEXT_BYTES { TextBodyFits(text); }
      if !ok {
        return true, InvalidArgument;
      }
      total := length;
    }
    if !peer.reached {
      return true, Unavailable;
    }
    var writeFailed := false;
    if text != "" {
      writeFailed := peer.bodyWrote != total;
    } else {
      if !peer.headerSent {
        return true, Unavailable;
      }
      var sent, k := 0, 0;
      assert peer.sends[0..] == peer.sends;
      while sent < |pcm.value|
        invariant 0 <= k <= |peer.sends| && !writeFailed
        invariant AudioSent(peer.sends[k..], |pcm.value| - sent) == AudioSent(peer.sends, |pcm.value|)
        decreases |peer.sends| - k
      {
        if k >= |peer.sends| {
          return false, NoError;
        }
        if peer.sends[k].cancelled {
          break;
        }
        if peer.sends[k].wrote <= 0 {
          writeFailed := true;
          break;
        }
        assert peer.sends[k..][1..] == peer.sends[k + 1..];
        sent := sent + peer.sends[k].wrote;
        k := k + 1;
      }
    }
    if peer.cancelledAfterSend {
      return true, CancelledError;
    }
    return true, if writeFailed then Unavailable else NoError;
  }

  predicate PhaseIs(p: Phase, done: bool, why: ErrorCode) {
    match p
    case Waiting => !done && why == NoError
    case Failing(cause) => done && why == cause != NoError
    case Passed => done && why == NoError
  }

  /** Wait for the response headers, until the first-event deadline. */
  method FetchHeaders(peer: Peer) returns (done: bool, why: ErrorCode)
    ensures PhaseIs(HeadersFetched(peer.fetches, peer.startedAt, peer.status), done, why)
  {
    var k := 0;
    assert peer.fetches[0..] == peer.fetches;
    while true
      invariant 0 <= k <= |peer.fetches|
      invariant HeadersFetched(peer.fetches[k..], peer.startedAt, peer.status)
             == HeadersFetched(peer.fetches, peer.startedAt, peer.status)
      decreases |peer.fetches| - k
    {
      if k >= |peer.fetches| {
        return false, NoError;
      }
      if peer.fetches[k].Fetched? {
        if peer.fetches[k].result < 0 || peer.status != 200 {
          return true, Unavailable;
        }
        return true, NoError;
      }
      if peer.fetches[k].cancelled {
        return true, CancelledError;
      }
      if Since(peer.fetches[k].now, peer.startedAt) >= FIRST_EVENT_DEADLINE_MS {
        return true, Timeout;
      }
      assert peer.fetches[k..][1..] == peer.fetches[k + 1..];
      k := k + 1;
    }
  }

  /** Everything before the first byte of the reply. */
  method OpenExchange(text: string, pcm: Option<seq<byte>>, peer: Peer) returns (done: bool, why: ErrorCode)
    ensures PhaseIs(Opened(text, pcm, peer), done, why)
  {
    hide RequestSent, HeadersFetched;
    if !peer.hasUrl || (text == "" && pcm.None?) {
      return true, Unavailable;
    }
    if !peer.hasClient {
      return true, Internal;
    }
    done, why := SendRequest(text, pcm, peer);
    if done && why == NoError {
      done, why := FetchHeaders(peer);
    }
  }

  /** Read the reply block by block until the turn is over. */
  method ReadReply(turn: ConversationTurn, peer: Peer) returns (returned: bool, ok: bool)
    requires IsClient(peer)
    requires turn.Valid() && Listening(turn.Whole(), turn.calls, "", turn.overflow)
    modifies turn, turn.Reading(), turn.Speaking(), turn.text, turn.pcm
    ensures turn.Valid()
    ensures
      var x := Reading("", peer.polls, peer.readingAt, turn.overflow);
      && Reaction(turn.State(), turn.calls) == Told(x, turn.overflow)
      && (returned <==> Ended(x, turn.overflow))
      && (ok <==> x.end.Read? || (returned && turn.outcome == Completed))
  {
    hide R.Run, R.DataOf, R.Finish, InterpretAll, FeedBlock, FinishInput, EndFits, S.IsPartial, InStep, WholeReply,
         Heard, Sse.SseReader.Valid, Speech.SpeechSegmenter.Valid;
    var lastData := peer.readingAt;
    var k := 0;
    ghost var heard := "";
    ghost var x := Reading("", peer.polls, peer.readingAt, turn.overflow);
    returned, ok := false, false;
    var running := turn.outcome == Running;
    assert peer.polls[0..] == peer.polls;
    while running
      invariant turn.Valid() && running == (turn.outcome == Running)
      invariant 0 <= k <= |peer.polls| && Reading(heard, peer.polls[k..], lastData, turn.overflow) == x
      invariant Listening(turn.Whole(), turn.calls, heard, turn.overflow)
      decreases |peer.polls| - k, running
    {
      ListeningIs(turn.Whole(), turn.calls, heard, turn.overflow);
      if k >= |peer.polls| {
        return;
      }
      var poll := peer.polls[k];
      assert peer.polls[k..][0] == poll && peer.polls[k..][1..] == peer.polls[k + 1..];
      if poll.cancelled {
        Abort(turn, CancelledError, heard);
        returned := true;
        return;
      }
      k := k + 1;
      match poll.answer {
        case Data(bytes) =>
          lastData := poll.now;
          ghost var m, before := turn.Whole(), turn.calls;
          FeedInStep(m, before, heard, bytes, turn.overflow);
          turn.Feed(bytes);
          heard := heard + bytes;
          running := turn.outcome == Running;
        case Nothing =>
          if Since(poll.now, lastData) >= IDLE_DEADLINE_MS {
            Abort(turn, Timeout, heard);
            returned := true;
            return;
          }
        case Closed =>
          EndInStep(turn.Whole(), turn.calls, heard, turn.overflow);
          turn.EndInput();
          returned, ok := true, true;
          return;
        case Broken =>
          Abort(turn, Unavailable, heard);
          returned := true;
          return;
      }
    }
    ListeningIs(turn.Whole(), turn.calls, heard, turn.overflow);
    returned := true;
    ok := turn.outcome == Completed;
  }

  /** The whole exchange. It returns only after the end of the turn has been reported, exactly once and as the
      last call, whatever the peer does; what the listener was told depends on the bytes heard and on the cause of
      the end, and both are what the peer's answers make them. */
  method Exchange(text: string, pcm: Option<seq<byte>>, turn: ConversationTurn, peer: Peer)
    returns (returned: bool, ok: bool)
    requires IsClient(peer)
    requires turn.Valid() && turn.Whole() == StartMachine(turn.overflow) && turn.calls == []
    modifies turn, turn.Reading(), turn.Speaking(), turn.text, turn.pcm
    ensures turn.Valid()
    ensures
      var x := Exchanging(text, pcm, peer, turn.overflow);
      && Reaction(turn.State(), turn.calls) == Told(x, turn.overflow)
      && (returned <==> Ended(x, turn.overflow))
      && (returned ==> Once(Told(x, turn.overflow)))
      && (ok <==> x.end.Read? || (returned && turn.outcome == Completed))
  {
    hide R.Run, R.DataOf, R.Finish, InterpretAll, WholeReply, EndFits, InStep, Once, Reading, Opened, Heard,
         Told, Listening, ConversationTurn.Valid;
    StartsListening(turn.overflow);
    ListeningIs(turn.Whole(), turn.calls, "", turn.overflow);
    ToldYet("", turn.overflow);
    returned, ok := true, false;
    var done, why := OpenExchange(text, pcm, peer);
    if !done {
      returned := false;
      return;
    }
    if why != NoError {
      Abort(turn, why, "");
    } else {
      returned, ok := ReadReply(turn, peer);
      if !returned {
        return;
      }
    }
    EndedOnce(Exchanging(text, pcm, peer, turn.overflow), turn.overflow);
  }

  // ------------------------------------------------------ what a code means

  /** When data last came. */
  function LastData(polls: seq<Poll>, before: nat): nat {
    if polls == [] then before else LastData(polls[1..], DataAt(polls[0], before))
  }

  function DataAt(poll: Poll, before: nat): nat { if poll.answer.Data? then poll.now else before }

  predicate StillRunning(heard: string, overflow: Overflow) { Heard(heard, overflow).turn.outcome == Running }

  /** The stream has been quiet for too long at poll `k`. */
  predicate TooQuiet(polls: seq<Poll>, k: nat, before: nat)
    requires k < |polls|
  {
    polls[k].answer.Nothing? && Since(polls[k].now, LastData(polls[..k], before)) >= IDLE_DEADLINE_MS
  }

  /** Poll `k` leaves the exchange under way. */
  predicate GoesOn(heard: string, polls: seq<Poll>, k: nat, before: nat, overflow: Overflow)
    requires k < |polls|
  {
    && StillRunning(heard + DataIn(polls[..k]), overflow) && !polls[k].cancelled
    && (polls[k].answer.Data? || (polls[k].answer.Nothing? && !TooQuiet(polls, k, before)))
  }

  /** How the exchange ends when poll `n` is the first that does not leave it under way. */
  predicate Decides(x: Exchanged, heard: string, polls: seq<Poll>, n: nat, before: nat, overflow: Overflow)
    requires n <= |polls|
  {
    && x.heard == heard + DataIn(polls[..n])
    && match x.end
       case Over => !StillRunning(x.heard, overflow)
       case Pending => StillRunning(x.heard, overflow) && n == |polls|
       case Read => StillRunning(x.heard, overflow) && n < |polls| && !polls[n].cancelled && polls[n].answer.Closed?
       case BrokenOff(why) =>
         && StillRunning(x.heard, overflow) && n < |polls|
         && (why == CancelledError || why == Timeout || why == Unavailable)
         && (why == CancelledError <==> polls[n].cancelled)
         && (why == Timeout ==> TooQuiet(polls, n, before))
         && (why == Unavailable ==> polls[n].answer.Broken?)
  }

  lemma PollsOn(heard: string, polls: seq<Poll>, k: nat, before: nat, overflow: Overflow)
    requires polls != [] && k <= |polls| - 1
    ensures
      var data, at := DataOf(polls[0]), DataAt(polls[0], before);
      && heard + DataIn(polls[..k + 1]) == heard + data + DataIn(polls[1..][..k])
      && LastData(polls[..k + 1], before) == LastData(polls[1..][..k], at)
      && (k + 1 < |polls| ==>
            && TooQuiet(polls, k + 1, before) == TooQuiet(polls[1..], k, at)
            && GoesOn(heard, polls, k + 1, before, overflow) == GoesOn(heard + data, polls[1..], k, at, overflow))
  {
    hide StillRunning, Since;
    assert polls[..k + 1][1..] == polls[1..][..k];
    var data := DataOf(polls[0]);
    assert heard + (data + DataIn(polls[1..][..k])) == heard + data + DataIn(polls[1..][..k]);
  }

  lemma BeforePolls(heard: string, polls: seq<Poll>, before: nat)
    ensures heard + DataIn(polls[..0]) == heard && LastData(polls[..0], before) == before
  {
  }

  /** Whether the first poll leaves the exchange under way. */
  lemma FirstGoesOn(heard: string, polls: seq<Poll>, before: nat, overflow: Overflow)
    requires polls != []
    ensures TooQuiet(polls, 0, before)
        <==> polls[0].answer.Nothing? && Since(polls[0].now, before) >= IDLE_DEADLINE_MS
    ensures GoesOn(heard, polls, 0, before, overflow) <==>
      && StillRunning(heard, overflow) && !polls[0].cancelled
      && (polls[0].answer.Data? || (polls[0].answer.Nothing? && !TooQuiet(polls, 0, before)))
  {
    BeforePolls(heard, polls, before);
    hide DataIn, LastData, StillRunning, Since;
  }

  /** What the first poll comes to. */
  lemma FirstPoll(heard: string, polls: seq<Poll>, before: nat, overflow: Overflow)
    ensures
      var x := Reading(heard, polls, before, overflow);
      if polls != [] && GoesOn(heard, polls, 0, before, overflow) then
        x == Reading(heard + DataOf(polls[0]), polls[1..], DataAt(polls[0], before), overflow)
      else Decides(x, heard, polls, 0, before, overflow)
  {
    BeforePolls(heard, polls, before);
    hide Heard, Since, DataIn, LastData, GoesOn, TooQuiet;
    if polls != [] {
      FirstGoesOn(heard, polls, before, overflow);
      NothingHeard(heard);
    }
  }

  /** The first poll that does not leave the exchange under way decides how it ends; what was heard is the data of
      the polls before it. */
  lemma {:induction false} FirstDecides(heard: string, polls: seq<Poll>, before: nat, overflow: Overflow)
    returns (n: nat)
    ensures n <= |polls| && forall k | 0 <= k < n :: GoesOn(heard, polls, k, before, overflow)
    ensures Decides(Reading(heard, polls, before, overflow), heard, polls, n, before, overflow)
    decreases |polls|
  {
    hide *;
    FirstPoll(heard, polls, before, overflow);
    if polls == [] || !GoesOn(heard, polls, 0, before, overflow) {
      n := 0;
    } else {
      var data, at := DataOf(polls[0]), DataAt(polls[0], before);
      n := FirstDecides(heard + data, polls[1..], at, overflow);
      DecidesOn(Reading(heard + data, polls[1..], at, overflow), heard, polls, n, before, overflow);
      forall k | 0 <= k < n + 1 ensures GoesOn(heard, polls, k, before, overflow) {
        if k > 0 {
          PollsOn(heard, polls, k - 1, before, overflow);
        }
      }
      n := n + 1;
    }
  }

  lemma NothingHeard(heard: string)
    ensures heard + "" == heard
  {
  }

  lemma DecidesOn(x: Exchanged, heard: string, polls: seq<Poll>, n: nat, before: nat, overflow: Overflow)
    requires polls != [] && n <= |polls| - 1
    requires
      var data, at := DataOf(polls[0]), DataAt(polls[0], before);
      Decides(x, heard + data, polls[1..], n, at, overflow)
    ensures Decides(x, heard, polls, n + 1, before, overflow)
  {
    PollsOn(heard, polls, n, before, overflow);
    hide StillRunning, TooQuiet, GoesOn, DataIn, LastData;
  }

  /** Waiting for the headers fails with the code of the first answer that is not "not yet". */
  lemma {:induction false} HeadersDecide(fetches: seq<Fetch>, startedAt: nat, status: int)
    ensures
      var p := HeadersFetched(fetches, startedAt, status);
      p.Failing? ==>
        exists k | 0 <= k < |fetches| ::
          match p.why
          case CancelledError => fetches[k].Pending? && fetches[k].cancelled
          case Timeout => fetches[k].Pending? && Since(fetches[k].now, startedAt) >= FIRST_EVENT_DEADLINE_MS
          case Unavailable => fetches[k].Fetched? && (fetches[k].result < 0 || status != 200)
          case _ => false
    decreases |fetches|
  {
    hide Since;
    if fetches != [] && fetches[0].Pending? && HeadersFetched(fetches, startedAt, status).Failing? {
      assert fetches[0].cancelled || Since(fetches[0].now, startedAt) >= FIRST_EVENT_DEADLINE_MS ||
             HeadersFetched(fetches, startedAt, status) == HeadersFetched(fetches[1..], startedAt, status);
      HeadersDecide(fetches[1..], startedAt, status);
      assert forall k | 0 <= k < |fetches[1..]| :: fetches[1..][k] == fetches[k + 1];
    }
  }

  lemma {:induction false} AudioFails(sends: seq<Send>, left: int)
    ensures AudioSent(sends, left) == Sent(true) ==> exists k | 0 <= k < |sends| :: sends[k].wrote <= 0
    decreases |sends|
  {
    if sends != [] && AudioSent(sends, left) == Sent(true) && sends[0].wrote > 0 {
      AudioFails(sends[1..], left - sends[0].wrote);
      var k :| 0 <= k < |sends[1..]| && sends[1..][k].wrote <= 0;
      assert sends[k + 1].wrote <= 0;
    }
  }

  /** When an exchange is broken off, its code names what happened: a cancellation was seen, a deadline passed, no
      client could be had, the text was too long, or the gateway could not be used. */
  lemma CodesNameCauses(text: string, pcm: Option<seq<byte>>, peer: Peer, overflow: Overflow)
    ensures
      var x := Exchanging(text, pcm, peer, overflow);
      x.end.BrokenOff? ==>
        match x.end.why
        case InvalidArgument => |text| > MAX_SPOKEN_TEXT_BYTES
        case Internal => !peer.hasClient
        case CancelledError =>
          || peer.cancelledAfterSend
          || (exists k | 0 <= k < |peer.fetches| :: peer.fetches[k].Pending? && peer.fetches[k].cancelled)
          || exists k | 0 <= k < |peer.polls| :: peer.polls[k].cancelled
        case Timeout =>
          || (exists k | 0 <= k < |peer.fetches| ::
                peer.fetches[k].Pending? && Since(peer.fetches[k].now, peer.startedAt) >= FIRST_EVENT_DEADLINE_MS)
          || exists k: nat | k < |peer.polls| :: TooQuiet(peer.polls, k, peer.readingAt)
        case Unavailable =>
          || !peer.hasUrl || (text == "" && pcm.None?) || !peer.reached
          || (if text == "" then !peer.headerSent || exists k | 0 <= k < |peer.sends| :: peer.sends[k].wrote <= 0
              else peer.bodyWrote != |TextBody(text)|)
          || (exists k | 0 <= k < |peer.fetches| ::
                peer.fetches[k].Fetched? && (peer.fetches[k].result < 0 || peer.status != 200))
          || exists k | 0 <= k < |peer.polls| :: peer.polls[k].answer.Broken?
        case _ => false
  {
    hide TextBody, Reading, HeadersFetched, AudioSent, Since, TooQuiet, StillRunning, DataIn;
    if |text| <= MAX_SPOKEN_TEXT_BYTES { TextBodyFits(text); }
    if pcm.Some? { AudioFails(peer.sends, |pcm.value|); }
    HeadersDecide(peer.fetches, peer.startedAt, peer.status);
    var n := FirstDecides("", peer.polls, peer.readingAt, overflow);
  }
}
