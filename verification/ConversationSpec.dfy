/** One conversation turn as a function of the reply stream.

    A turn takes in events and makes calls to its listener. `Interpret` is what one event does; the module
    proves that the calls depend on the stream alone and not on how it was cut (`AnyCuts`), that the end is
    reported once and last (`EndsOnce`), and that audio is accepted only in sequence (`InSequence`). */
module ConversationSpec {
  import opened Bytes
  import opened Base64
  import opened JsonRead
  import opened Protocol
  import R = SseSpec
  import S = SpeechSpec
  import Q = SpeechQueue

  datatype Outcome = Running | Completed | Cancelled | Failed

  /** A call to the listener. */
  datatype Call =
    | OnRecognized(text: string, final: bool)
    | OnSentence(segment: S.Segment)
    | OnAudio(pcm: seq<byte>)
    | OnFinished(outcome: Outcome, code: ErrorCode)

  /** `unspoken` counts the sentences that found no room in the segmenter's queue; `overflow` is what numbers too
      large for 64 bits read as. */
  datatype Turn = Turn(outcome: Outcome, code: ErrorCode, reported: ErrorCode, expectedSeq: nat, dropped: nat,
                       talk: S.Talk, unspoken: nat, overflow: Overflow)

  datatype Reaction = Reaction(turn: Turn, calls: seq<Call>)

  function StartTurn(overflow: Overflow): Turn { Turn(Running, NoError, NoError, 0, 0, S.SILENT, 0, overflow) }

  const SEGMENT_BYTES: S.Limit := 60
  const TEXT_BYTES: nat := 512
  const PCM_BYTES: nat := 4096
  const AUDIO_RATE: int := 16000

  // --------------------------------------------------------- one event

  function Ignored(t: Turn): Reaction { Reaction(t, []) }

  function Dropped(t: Turn): Reaction { Reaction(t.(dropped := t.dropped + 1), []) }

  function Finish(t: Turn, outcome: Outcome, code: ErrorCode): Reaction {
    if t.outcome != Running then Ignored(t)
    else Reaction(t.(outcome := outcome, code := code), [OnFinished(outcome, code)])
  }

  function Then(r: Reaction, next: Reaction): Reaction {
    Reaction(next.turn, r.calls + next.calls)
  }

  function SentencesOf(segments: seq<S.Segment>): seq<Call> {
    if segments == [] then [] else [OnSentence(segments[0])] + SentencesOf(segments[1..])
  }

  /** What the segmenter finished is announced at once. */
  function Announce(t: Turn, r: S.Result): Reaction {
    var q := Q.EnqueueAll(Q.Queue(0, [], t.unspoken), r.segments);
    Reaction(t.(talk := r.state, unspoken := q.dropped), SentencesOf(q.segments))
  }

  /** A string member with its escapes undone, if it fits in the text buffer. */
  function Unescaped(raw: string): Option<string> {
    var text := Unescape(raw);
    if text.Some? && |text.value| <= TEXT_BYTES then text else None
  }

  function OutcomeOf(reason: string): Outcome {
    if reason == "completed" then Completed
    else if reason == "cancelled" then Cancelled
    else Failed
  }

  function Reported(t: Turn): ErrorCode {
    if t.reported != NoError then t.reported else Internal
  }

  /** The samples of an event, as bytes: whole 16-bit samples that fit, or nothing. */
  function PcmOf(text: string): Option<seq<byte>> {
    var pcm := Decode(text);
    if pcm.Some? && |pcm.value| <= PCM_BYTES && |pcm.value| % 2 == 0 then pcm else None
  }

  function HandleAudio(t: Turn, payload: string): Reaction {
    if IntegerOf(payload, "rate", t.overflow) != Some(AUDIO_RATE) then Dropped(t)
    else if IntegerOf(payload, "seq", t.overflow) != Some(t.expectedSeq) then Finish(t, Failed, Internal)
    else HandleNumbered(t.(expectedSeq := t.expectedSeq + 1), payload)
  }

  /** An event whose number has been accepted: its words, then its samples. */
  function HandleNumbered(t: Turn, payload: string): Reaction {
    match RawStringOf(payload, "text")
    case None => HandleSamples(t, payload)
    case Some(raw) =>
      match Unescaped(raw)
      case None => Dropped(t)
      case Some(text) =>
        var r := Announce(t, S.Run(t.talk, text, SEGMENT_BYTES));
        Then(r, HandleSamples(r.turn, payload))
  }

  function HandleSamples(t: Turn, payload: string): Reaction {
    match RawStringOf(payload, "pcm")
    case None => Dropped(t)
    case Some(text) =>
      match PcmOf(text)
      case None => Finish(t, Failed, Internal)
      case Some(pcm) =>
        var r :=
          if BoolOf(payload, "last") == Some(true) then Announce(t, S.Flush(t.talk, SEGMENT_BYTES)) else Ignored(t);
        Then(r, Reaction(r.turn, if pcm == [] then [] else [OnAudio(pcm)]))
  }

  function HandleText(t: Turn, payload: string): Reaction {
    match RawStringOf(payload, "text")
    case None => Dropped(t)
    case Some(raw) =>
      match Unescaped(raw)
      case None => Dropped(t)
      case Some(text) => Reaction(t, [OnRecognized(text, BoolOf(payload, "final") != Some(false))])
  }

  function HandleEnd(t: Turn, payload: string): Reaction {
    match RawStringOf(payload, "reason")
    case None => Dropped(t)
    case Some(reason) =>
      var outcome := OutcomeOf(reason);
      Finish(t, outcome, if outcome == Failed then Reported(t) else NoError)
  }

  function HandleError(t: Turn, payload: string): Reaction {
    var name := RawStringOf(payload, "code");
    var code := if name.Some? then ParseErrorCode(name.value) else None;
    Ignored(t.(reported := if code.Some? then code.value else Internal))
  }

  /** The name and the payload of a well-formed envelope. */
  datatype Envelope = Envelope(name: string, payload: string)

  function EnvelopeOf(data: string, overflow: Overflow): Option<Envelope> {
    var name := RawStringOf(data, "name");
    var payload := ObjectOf(data, "payload");
    if IntegerOf(data, "v", overflow) == Some(1) && RawStringOf(data, "kind") == Some("event")
      && name.Some? && payload.Some?
    then Some(Envelope(name.value, payload.value))
    else None
  }

  function Interpret(t: Turn, data: string): Reaction {
    if data == "[DONE]" then Ignored(t)
    else
      match EnvelopeOf(data, t.overflow)
      case None => Dropped(t)
      case Some(e) =>
        if e.name == "reply.audio" then HandleAudio(t, e.payload)
        else if e.name == "conversation.text" then HandleText(t, e.payload)
        else if e.name == "conversation.finished" then HandleEnd(t, e.payload)
        else if e.name == "error.raised" then HandleError(t, e.payload)
        else Ignored(t)
  }

  /** Events in order; those after the end are not looked at. */
  function InterpretAll(t: Turn, events: seq<string>): Reaction
    decreases |events|
  {
    if events == [] || t.outcome != Running then Ignored(t)
    else
      var r := Interpret(t, events[0]);
      Then(r, InterpretAll(r.turn, events[1..]))
  }

  /** The stream has closed: without an event that ended it, the turn has failed. */
  function Close(t: Turn): Reaction { Finish(t, Failed, Reported(t)) }

  /** The whole reply, read in one piece. */
  function WholeReply(stream: string, overflow: Overflow): Reaction {
    var r := R.Run(R.FRESH, stream);
    var s := InterpretAll(StartTurn(overflow), R.DataOf(r.items + R.Finish(r.state).items));
    Then(s, Close(s.turn))
  }

  // ------------------------------------------------------ the turn in blocks

  /** The turn with its reader and the reader's queue. */
  datatype Machine = Machine(reader: R.Assembler, queue: R.Queue, turn: Turn)

  function StartMachine(overflow: Overflow): Machine {
    Machine(R.FRESH, R.Queue(0, [], 0), StartTurn(overflow))
  }

  /** How many events are taken from the queue before the turn is over. */
  function Taken(t: Turn, events: seq<string>): (n: nat)
    ensures n <= |events|
    decreases |events|
  {
    if events == [] || t.outcome != Running then 0 else 1 + Taken(Interpret(t, events[0]).turn, events[1..])
  }

  function Drain(m: Machine): (Machine, seq<Call>) {
    var r := InterpretAll(m.turn, m.queue.events);
    (m.(queue := m.queue.(events := m.queue.events[Taken(m.turn, m.queue.events)..]), turn := r.turn), r.calls)
  }

  function FeedBlock(m: Machine, bytes: string): (Machine, seq<Call>) {
    if m.turn.outcome != Running then (m, [])
    else
      var r := R.Run(m.reader, bytes);
      Drain(m.(reader := r.state, queue := R.EnqueueAll(R.Rewound(m.queue), r.items)))
  }

  function FinishInput(m: Machine): (Machine, seq<Call>) {
    if m.turn.outcome != Running then (m, [])
    else
      var r := R.Finish(m.reader);
      var d := Drain(m.(reader := r.state, queue := R.EnqueueAll(m.queue, r.items)));
      var end := Close(d.0.turn);
      (d.0.(turn := end.turn), d.1 + end.calls)
  }

  function FeedAll(m: Machine, blocks: seq<string>): (Machine, seq<Call>)
    decreases |blocks|
  {
    if blocks == [] then (m, [])
    else
      var r := FeedBlock(m, blocks[0]);
      var s := FeedAll(r.0, blocks[1..]);
      (s.0, r.1 + s.1)
  }

  function Concat(blocks: seq<string>): string {
    if blocks == [] then "" else blocks[0] + Concat(blocks[1..])
  }

  // -------------------------------------------------- cuts make no difference

  lemma {:induction false} InterpretAppend(t: Turn, a: seq<string>, b: seq<string>)
    ensures
      var r := InterpretAll(t, a);
      InterpretAll(t, a + b) == Then(r, InterpretAll(r.turn, b))
    decreases |a|
  {
    hide Interpret;
    if a == [] || t.outcome != Running {
      if a == [] { assert a + b == b; }
      assert [] + InterpretAll(t, b).calls == InterpretAll(t, b).calls;
    } else {
      assert (a + b)[1..] == a[1..] + b;
      var r := Interpret(t, a[0]);
      InterpretAppend(r.turn, a[1..], b);
      var s := InterpretAll(r.turn, a[1..]);
      assert r.calls + (s.calls + InterpretAll(s.turn, b).calls) == (r.calls + s.calls) + InterpretAll(s.turn, b).calls;
    }
  }

  lemma {:induction false} TakesAll(t: Turn, events: seq<string>)
    ensures InterpretAll(t, events).turn.outcome == Running ==> Taken(t, events) == |events|
    decreases |events|
  {
    hide Interpret;
    if events != [] && t.outcome == Running {
      TakesAll(Interpret(t, events[0]).turn, events[1..]);
      OverStaysOver(Interpret(t, events[0]).turn, events[1..]);
    }
  }

  lemma {:induction false} OverStaysOver(t: Turn, events: seq<string>)
    ensures t.outcome != Running ==> InterpretAll(t, events) == Ignored(t)
  {
  }

  lemma {:induction false} DataOfAppend(a: seq<R.Item>, b: seq<R.Item>)
    ensures R.DataOf(a + b) == R.DataOf(a) + R.DataOf(b)
    decreases |a|
  {
    if a == [] {
      assert a + b == b && [] + R.DataOf(b) == R.DataOf(b);
    } else {
      assert (a + b)[1..] == a[1..] + b;
      DataOfAppend(a[1..], b);
    }
  }

  /** The end of the stream brings at most one event, and there is room for it. */
  predicate EndFits(a: R.Assembler, q: R.Queue) {
    R.Bounded(a) && q.used + R.Load(R.Finish(a).items) <= R.QUEUE_BYTES
  }

  /** After a prefix `read` of the stream and the calls it caused: the reader is where the prefix leaves it
      and nothing waits, or the turn is over. */
  predicate InStep(m: Machine, calls: seq<Call>, read: string, overflow: Overflow) {
    var r := R.Run(R.FRESH, read);
    var s := InterpretAll(StartTurn(overflow), R.DataOf(r.items));
    && m.turn == s.turn && calls == s.calls
    && (m.turn.outcome == Running ==> m.reader == r.state && m.queue.events == [] && EndFits(m.reader, m.queue))
  }

  lemma BlockFits(a: R.Assembler, q: R.Queue, bytes: string)
    requires R.Bounded(a) && q.events == [] && |bytes| <= R.MAX_BLOCK_BYTES
    ensures
      var r := R.Run(a, bytes);
      var fed := R.EnqueueAll(R.Rewound(q), r.items);
      fed.events == R.DataOf(r.items) && EndFits(r.state, fed)
  {
    R.BlockBounded(a, bytes);
    var r := R.Run(a, bytes);
    hide R.Run, R.Finish, R.EnqueueAll;
    R.AllFit(R.Rewound(q), r.items);
    assert [] + R.DataOf(r.items) == R.DataOf(r.items);
  }

  lemma FeedInStep(m: Machine, calls: seq<Call>, read: string, bytes: string, overflow: Overflow)
    requires InStep(m, calls, read, overflow) && |bytes| <= R.MAX_BLOCK_BYTES
    ensures var r := FeedBlock(m, bytes); InStep(r.0, calls + r.1, read + bytes, overflow)
  {
    hide R.Run, R.EnqueueAll, R.Finish, R.DataOf, R.Bounded, R.Load, InterpretAll, Taken, R.Rewound;
    var before := R.Run(R.FRESH, read);
    var here := R.Run(before.state, bytes);
    R.RunAppend(R.FRESH, read, bytes);
    DataOfAppend(before.items, here.items);
    InterpretAppend(StartTurn(overflow), R.DataOf(before.items), R.DataOf(here.items));
    if m.turn.outcome == Running {
      BlockFits(m.reader, m.queue, bytes);
      TakesAll(m.turn, R.DataOf(here.items));
    } else {
      OverStaysOver(m.turn, R.DataOf(here.items));
    }
  }

  lemma {:induction false} FeedAllInStep(m: Machine, calls: seq<Call>, read: string, blocks: seq<string>,
                                             overflow: Overflow)
    requires InStep(m, calls, read, overflow) && forall k | 0 <= k < |blocks| :: |blocks[k]| <= R.MAX_BLOCK_BYTES
    ensures var r := FeedAll(m, blocks); InStep(r.0, calls + r.1, read + Concat(blocks), overflow)
    decreases |blocks|
  {
    hide FeedBlock, InStep;
    if blocks == [] {
      assert calls + [] == calls && read + "" == read;
    } else {
      var r := FeedBlock(m, blocks[0]);
      var s := FeedAll(r.0, blocks[1..]);
      FeedInStep(m, calls, read, blocks[0], overflow);
      FeedAllInStep(r.0, calls + r.1, read + blocks[0], blocks[1..], overflow);
      assert (calls + r.1) + s.1 == calls + (r.1 + s.1);
      assert (read + blocks[0]) + Concat(blocks[1..]) == read + (blocks[0] + Concat(blocks[1..]));
    }
  }

  lemma StartInStep(overflow: Overflow)
    ensures InStep(StartMachine(overflow), [], "", overflow)
  {
    assert R.DataOf([]) == [];
    R.FinishBounded(R.FRESH);
  }

  /** However a reply stream is cut into blocks of at most 8190 bytes, the same calls are made in the same
      order and the turn ends the same way: as if the whole stream had been there at once. */
  lemma AnyCuts(blocks: seq<string>, overflow: Overflow)
    requires forall k | 0 <= k < |blocks| :: |blocks[k]| <= R.MAX_BLOCK_BYTES
    ensures
      var fed := FeedAll(StartMachine(overflow), blocks);
      var r := R.Run(R.FRESH, Concat(blocks));
      Reaction(fed.0.turn, fed.1) == InterpretAll(StartTurn(overflow), R.DataOf(r.items))
    ensures
      var fed := FeedAll(StartMachine(overflow), blocks);
      var end := FinishInput(fed.0);
      Reaction(end.0.turn, fed.1 + end.1) == WholeReply(Concat(blocks), overflow)
  {
    var fed := FeedAll(StartMachine(overflow), blocks);
    StartInStep(overflow);
    FeedAllInStep(StartMachine(overflow), [], "", blocks, overflow);
    assert [] + fed.1 == fed.1 && "" + Concat(blocks) == Concat(blocks);
    hide FeedAll, Concat;
    EndInStep(fed.0, fed.1, Concat(blocks), overflow);
  }

  lemma EndInStep(m: Machine, calls: seq<Call>, read: string, overflow: Overflow)
    requires InStep(m, calls, read, overflow)
    ensures var end := FinishInput(m); Reaction(end.0.turn, calls + end.1) == WholeReply(read, overflow)
  {
    hide R.Run, R.EnqueueAll, R.Finish, R.DataOf, R.Bounded, R.Load, InterpretAll, Taken, R.Rewound;
    var before := R.Run(R.FRESH, read);
    var rest := R.Finish(before.state);
    DataOfAppend(before.items, rest.items);
    InterpretAppend(StartTurn(overflow), R.DataOf(before.items), R.DataOf(rest.items));
    if m.turn.outcome == Running {
      R.AllFit(m.queue, rest.items);
      assert [] + R.DataOf(rest.items) == R.DataOf(rest.items);
      var s := InterpretAll(m.turn, R.DataOf(rest.items));
      var c := Close(s.turn);
      assert calls + (s.calls + c.calls) == (calls + s.calls) + c.calls;
    } else {
      OverStaysOver(m.turn, R.DataOf(rest.items));
    }
  }

  // ------------------------------------------------------- the end, once

  function Ends(calls: seq<Call>): nat {
    if calls == [] then 0 else (if calls[0].OnFinished? then 1 else 0) + Ends(calls[1..])
  }

  lemma {:induction false} EndsAppend(a: seq<Call>, b: seq<Call>)
    ensures Ends(a + b) == Ends(a) + Ends(b)
    decreases |a|
  {
    if a == [] {
      assert a + b == b;
    } else {
      assert (a + b)[1..] == a[1..] + b;
      EndsAppend(a[1..], b);
    }
  }

  lemma {:induction false} SentencesDoNotEnd(segments: seq<S.Segment>)
    ensures Ends(SentencesOf(segments)) == 0
    decreases |segments|
  {
    if segments != [] {
      SentencesDoNotEnd(segments[1..]);
      assert SentencesOf(segments)[1..] == SentencesOf(segments[1..]);
    }
  }

  /** The end is reported exactly when the turn stops running: once, as the last call, with its outcome. */
  predicate Honest(t: Turn, r: Reaction) {
    if r.turn.outcome == Running || t.outcome != Running then
      r.turn.outcome == t.outcome && r.turn.code == t.code && Ends(r.calls) == 0
    else
      && r.calls != [] && r.calls[|r.calls| - 1] == OnFinished(r.turn.outcome, r.turn.code)
      && Ends(r.calls) == 1
  }

  lemma FinishHonest(t: Turn, outcome: Outcome, code: ErrorCode)
    requires outcome != Running
    ensures Honest(t, Finish(t, outcome, code))
  {
    assert Ends([OnFinished(outcome, code)]) == 1;
  }

  lemma ThenHonest(t: Turn, r: Reaction, next: Reaction)
    requires Honest(t, r) && Honest(r.turn, next) && (next.calls == [] || r.turn.outcome == Running)
    ensures Honest(t, Then(r, next))
  {
    EndsAppend(r.calls, next.calls);
    hide Ends;
    if next.calls == [] {
      assert r.calls + next.calls == r.calls;
    }
  }

  lemma AnnounceHonest(t: Turn, r: S.Result)
    ensures Honest(t, Announce(t, r)) && Announce(t, r).turn.outcome == t.outcome
  {
    SentencesDoNotEnd(Q.EnqueueAll(Q.Queue(0, [], t.unspoken), r.segments).segments);
    hide Q.EnqueueAll, Ends;
  }

  lemma QuietHonest(t: Turn, u: Turn, call: Call)
    requires t.outcome == u.outcome && t.code == u.code && !call.OnFinished?
    ensures Honest(t, Reaction(u, [])) && Honest(t, Reaction(u, [call]))
  {
    assert [call][1..] == [];
  }

  lemma SamplesHonest(t: Turn, payload: string)
    requires t.outcome == Running
    ensures Honest(t, HandleSamples(t, payload))
  {
    hide RawStringOf, BoolOf, PcmOf, S.Flush, Announce, Ends;
    FinishHonest(t, Failed, Internal);
    QuietHonest(t, t.(dropped := t.dropped + 1), OnAudio([]));
    QuietHonest(t, t, OnAudio([]));
    AnnounceHonest(t, S.Flush(t.talk, SEGMENT_BYTES));
    forall r: Reaction, pcm: seq<byte> | Honest(t, r) && r.turn.outcome == Running
      ensures Honest(t, Then(r, Reaction(r.turn, if pcm == [] then [] else [OnAudio(pcm)])))
    {
      QuietHonest(r.turn, r.turn, OnAudio(pcm));
      ThenHonest(t, r, Reaction(r.turn, if pcm == [] then [] else [OnAudio(pcm)]));
    }
    hide Then, Honest;
  }

  lemma NumberedHonest(t: Turn, payload: string)
    requires t.outcome == Running
    ensures Honest(t, HandleNumbered(t, payload))
  {
    hide RawStringOf, Unescaped, S.Run, Announce, Ends, HandleSamples, Then;
    QuietHonest(t, t.(dropped := t.dropped + 1), OnAudio([]));
    SamplesHonest(t, payload);
    forall text: string
      ensures
        var r := Announce(t, S.Run(t.talk, text, SEGMENT_BYTES));
        Honest(t, Then(r, HandleSamples(r.turn, payload)))
    {
      var r := Announce(t, S.Run(t.talk, text, SEGMENT_BYTES));
      AnnounceHonest(t, S.Run(t.talk, text, SEGMENT_BYTES));
      SamplesHonest(r.turn, payload);
      ThenHonest(t, r, HandleSamples(r.turn, payload));
    }
    hide Honest;
  }

  lemma AudioHonest(t: Turn, payload: string)
    requires t.outcome == Running
    ensures Honest(t, HandleAudio(t, payload))
  {
    hide IntegerOf, HandleNumbered, Ends;
    FinishHonest(t, Failed, Internal);
    QuietHonest(t, t.(dropped := t.dropped + 1), OnAudio([]));
    NumberedHonest(t.(expectedSeq := t.expectedSeq + 1), payload);
  }

  lemma OthersHonest(t: Turn, payload: string)
    requires t.outcome == Running
    ensures Honest(t, HandleText(t, payload))
    ensures Honest(t, HandleEnd(t, payload))
    ensures Honest(t, HandleError(t, payload))
    ensures Honest(t, Dropped(t)) && Honest(t, Ignored(t))
  {
    hide RawStringOf, BoolOf, Unescaped, ParseErrorCode;
    assert forall call: Call | !call.OnFinished? :: Ends([call]) == 0 by {
      forall call: Call | !call.OnFinished? ensures Ends([call]) == 0 {
        QuietHonest(t, t, call);
      }
    }
    forall outcome: Outcome, code: ErrorCode | outcome != Running ensures Honest(t, Finish(t, outcome, code)) {
      FinishHonest(t, outcome, code);
    }
  }

  lemma InterpretHonest(t: Turn, data: string)
    requires t.outcome == Running
    ensures Honest(t, Interpret(t, data))
  {
    hide Honest, HandleAudio, HandleText, HandleEnd, HandleError, EnvelopeOf, Dropped, Ignored;
    var e := EnvelopeOf(data, t.overflow);
    var payload := if e.Some? then e.value.payload else "";
    AudioHonest(t, payload);
    OthersHonest(t, payload);
  }

  lemma {:induction false} InterpretAllHonest(t: Turn, events: seq<string>)
    ensures Honest(t, InterpretAll(t, events))
    decreases |events|
  {
    hide Interpret, Ends;
    if events == [] || t.outcome != Running {
      QuietHonest(t, t, OnAudio([]));
    } else {
      var r := Interpret(t, events[0]);
      InterpretHonest(t, events[0]);
      InterpretAllHonest(r.turn, events[1..]);
      OverStaysOver(r.turn, events[1..]);
      ThenHonest(t, r, InterpretAll(r.turn, events[1..]));
    }
  }

  /** Whatever the stream, the turn is over once its end has been read, and its end was reported exactly once,
      as the last call, with the outcome and the code that the turn keeps. */
  lemma EndsOnce(stream: string, overflow: Overflow)
    ensures
      var r := WholeReply(stream, overflow);
      && r.turn.outcome != Running
      && r.calls != [] && r.calls[|r.calls| - 1] == OnFinished(r.turn.outcome, r.turn.code)
      && Ends(r.calls) == 1
  {
    var r := R.Run(R.FRESH, stream);
    var events := R.DataOf(r.items + R.Finish(r.state).items);
    var s := InterpretAll(StartTurn(overflow), events);
    hide R.Run, R.Finish, R.DataOf, InterpretAll, Ends;
    InterpretAllHonest(StartTurn(overflow), events);
    FinishHonest(s.turn, Failed, Reported(s.turn));
    ThenHonest(StartTurn(overflow), s, Close(s.turn));
  }

  // ------------------------------------------------------ audio in sequence

  /** The payload of an audio event at the rate that can be played. */
  function AudioOf(data: string, overflow: Overflow): Option<string> {
    var e := EnvelopeOf(data, overflow);
    if data != "[DONE]" && e.Some? && e.value.name == "reply.audio"
      && IntegerOf(e.value.payload, "rate", overflow) == Some(AUDIO_RATE)
    then Some(e.value.payload)
    else None
  }

  /** The sequence numbers read from the playable audio events, in order of arrival. */
  function Numbers(events: seq<string>, overflow: Overflow): seq<Option<int>> {
    if events == [] then []
    else
      var a := AudioOf(events[0], overflow);
      (if a.Some? then [IntegerOf(a.value, "seq", overflow)] else []) + Numbers(events[1..], overflow)
  }

  predicate CountsFrom(n: int, numbers: seq<Option<int>>) {
    forall k | 0 <= k < |numbers| :: numbers[k] == Some(n + k)
  }

  lemma SamplesKeepCount(t: Turn, payload: string)
    ensures var u := HandleSamples(t, payload).turn; u.expectedSeq == t.expectedSeq && u.overflow == t.overflow
  {
    hide RawStringOf, BoolOf, PcmOf, S.Flush, Q.EnqueueAll, SentencesOf;
  }

  /** A playable audio event is accepted exactly when the next number is read from it; any other number, or none,
      fails the turn on the spot. What is read is what the event states, unless that overflows. */
  lemma NextNumberOnly(t: Turn, data: string)
    ensures t.outcome == Running && AudioOf(data, t.overflow).Some? ==>
      var r := Interpret(t, data);
      var payload := AudioOf(data, t.overflow).value;
      && (if IntegerOf(payload, "seq", t.overflow) == Some(t.expectedSeq)
          then r.turn.expectedSeq == t.expectedSeq + 1 && r.turn.overflow == t.overflow
          else r.calls == [OnFinished(Failed, Internal)] && r.turn == t.(outcome := Failed, code := Internal))
      && (!Overflowing(payload, "seq") ==>
            (r.turn.expectedSeq == t.expectedSeq + 1 <==> StatedInteger(payload, "seq") == Some(t.expectedSeq)))
  {
    hide RawStringOf, IntegerOf, Unescaped, S.Run, Q.EnqueueAll, SentencesOf, EnvelopeOf, HandleSamples, Overflowing,
         StatedInteger;
    if AudioOf(data, t.overflow).Some? {
      ReadsAsStated(AudioOf(data, t.overflow).value, "seq", t.overflow);
    }
    forall u: Turn, payload
      ensures HandleSamples(u, payload).turn.expectedSeq == u.expectedSeq
      ensures HandleSamples(u, payload).turn.overflow == u.overflow
    {
      SamplesKeepCount(u, payload);
    }
  }

  lemma OthersKeepCount(t: Turn, data: string)
    requires AudioOf(data, t.overflow).None?
    ensures var u := Interpret(t, data).turn; u.expectedSeq == t.expectedSeq && u.overflow == t.overflow
  {
    hide RawStringOf, IntegerOf, ObjectOf, BoolOf, Unescaped, EnvelopeOf, ParseErrorCode;
  }

  /** The numbers that a turn, counting from `n`, took in until it was `u`: it accepted exactly those from `n` to
      the one before its next; only the last may be another number, or none, and that has failed the turn. */
  predicate InOrder(n: nat, u: Turn, numbers: seq<Option<int>>) {
    var accepted := u.expectedSeq - n;
    && 0 <= accepted <= |numbers| && CountsFrom(n, numbers[..accepted])
    && (accepted < |numbers| ==>
          && accepted == |numbers| - 1 && numbers[accepted] != Some(u.expectedSeq)
          && u.outcome == Failed && u.code == Internal)
  }

  lemma OneAccepted(n: nat, u: Turn, rest: seq<Option<int>>)
    requires InOrder(n + 1, u, rest)
    ensures InOrder(n, u, [Some(n)] + rest)
  {
    var accepted := u.expectedSeq - n;
    assert ([Some(n)] + rest)[..accepted] == [Some(n)] + rest[..accepted - 1];
  }

  lemma NumbersNext(events: seq<string>, n: nat, overflow: Overflow)
    requires n < |events|
    ensures
      var a := AudioOf(events[0], overflow);
      Numbers(events[..n + 1], overflow)
      == (if a.Some? then [IntegerOf(a.value, "seq", overflow)] else []) + Numbers(events[1..][..n], overflow)
  {
    hide AudioOf, IntegerOf;
    assert events[..n + 1][1..] == events[1..][..n];
  }

  lemma NothingInOrder(n: nat, u: Turn, number: Option<int>)
    ensures u.expectedSeq == n ==> InOrder(n, u, [])
    ensures u.expectedSeq == n && u.outcome == Failed && u.code == Internal && number != Some(n) ==>
      InOrder(n, u, [number])
  {
  }

  lemma NoNumbers(overflow: Overflow)
    ensures Numbers([], overflow) == [] && forall numbers: seq<Option<int>> :: numbers + [] == numbers == [] + numbers
  {
  }

  /** The playable audio events that a turn takes in carry exactly the numbers from its own on, each accepted in
      turn, whether the turn still runs after them or has ended; while it runs, all of them were accepted. */
  lemma {:induction false} InSequence(t: Turn, events: seq<string>)
    requires t.outcome == Running
    ensures
      var u := InterpretAll(t, events).turn;
      var numbers := Numbers(events[..Taken(t, events)], t.overflow);
      && InOrder(t.expectedSeq, u, numbers)
      && (u.outcome == Running ==> Taken(t, events) == |events| && u.expectedSeq == t.expectedSeq + |numbers|)
    decreases |events|
  {
    hide Interpret, IntegerOf, AudioOf, Numbers, InOrder;
    NoNumbers(t.overflow);
    if events == [] {
      assert events[..Taken(t, events)] == [];
      NothingInOrder(t.expectedSeq, t, None);
    } else {
      var r, rest := Interpret(t, events[0]), events[1..];
      var taken := Taken(r.turn, rest);
      var a := AudioOf(events[0], t.overflow);
      NumbersNext(events, taken, t.overflow);
      OverStaysOver(r.turn, rest);
      if r.turn.outcome == Running {
        StepInSequence(t, events[0]);
        InSequence(r.turn, rest);
        if a.Some? {
          OneAccepted(t.expectedSeq, InterpretAll(r.turn, rest).turn, Numbers(rest[..taken], t.overflow));
        }
      } else {
        assert rest[..taken] == [];
        EndInSequence(t, events[0]);
      }
    }
  }

  lemma StepInSequence(t: Turn, data: string)
    requires t.outcome == Running && Interpret(t, data).turn.outcome == Running
    ensures
      var u := Interpret(t, data).turn;
      var a := AudioOf(data, t.overflow);
      && u.overflow == t.overflow && u.expectedSeq == t.expectedSeq + (if a.Some? then 1 else 0)
      && (a.Some? ==> IntegerOf(a.value, "seq", t.overflow) == Some(t.expectedSeq))
  {
    hide Interpret, IntegerOf, AudioOf;
    if AudioOf(data, t.overflow).Some? {
      NextNumberOnly(t, data);
    } else {
      OthersKeepCount(t, data);
    }
  }

  lemma EndInSequence(t: Turn, data: string)
    requires t.outcome == Running
    ensures
      var a := AudioOf(data, t.overflow);
      InOrder(t.expectedSeq, Interpret(t, data).turn, if a.Some? then [IntegerOf(a.value, "seq", t.overflow)] else [])
  {
    var u := Interpret(t, data).turn;
    hide Interpret, IntegerOf, AudioOf;
    var a := AudioOf(data, t.overflow);
    if a.Some? {
      NextNumberOnly(t, data);
      var number := IntegerOf(a.value, "seq", t.overflow);
      NothingInOrder(t.expectedSeq, u, number);
      if number == Some(t.expectedSeq) {
        NothingInOrder(t.expectedSeq + 1, u, None);
        OneAccepted(t.expectedSeq, u, []);
        assert [number] + [] == [number];
      }
    } else {
      OthersKeepCount(t, data);
      NothingInOrder(t.expectedSeq, u, None);
    }
    hide InOrder;
  }
}
