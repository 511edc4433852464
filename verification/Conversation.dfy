/** The turn itself: a reader, a segmenter and two buffers, driven by the blocks of the reply. */
module Conversation {
  import opened Bytes
  import opened Base64
  import opened JsonRead
  import opened Protocol
  import opened ConversationSpec
  import opened Sse
  import opened Speech
  import R = SseSpec
  import S = SpeechSpec
  import Q = SpeechQueue

  class ConversationTurn {
    const sse: SseReader
    const segmenter: SpeechSegmenter
    const text: array<char>
    const pcm: array<byte>
    /** What numbers too large for 64 bits read as: nothing that the turn can choose. */
    const overflow: Overflow
    var outcome: Outcome
    var code: ErrorCode
    var reportedError: ErrorCode
    var expectedSeq: nat
    var dropped: nat
    /** The calls made to the listener so far. */
    ghost var calls: seq<Call>

    ghost function Reading(): set<object> { {sse, sse.line, sse.event, sse.fifo} }

    ghost function Speaking(): set<object> {
      {segmenter, segmenter.pending, segmenter.marker, segmenter.fifo}
    }

    ghost predicate Apart() {
      && Reading() !! Speaking() && this !in Reading() && this !in Speaking()
      && {text, pcm} !! Reading() && {text, pcm} !! Speaking()
      && text.Length == TEXT_BYTES && pcm.Length == PCM_BYTES
      && segmenter.maxBytes == SEGMENT_BYTES
    }

    ghost predicate Valid()
      reads this, Reading(), Speaking(), text, pcm
    {
      && Apart()
      && sse.Valid() && segmenter.Valid()
      && segmenter.waiting == []
    }

    ghost function State(): Turn
      reads this, Reading(), Speaking(), text, pcm
      requires Valid()
    {
      Turn(outcome, code, reportedError, expectedSeq, dropped, segmenter.State(), segmenter.dropped, overflow)
    }

    ghost function Whole(): Machine
      reads this, Reading(), Speaking(), text, pcm
      requires Valid()
    {
      Machine(sse.State(), sse.Waiting(), State())
    }

    constructor (overflow: Overflow)
      ensures Valid() && fresh(Reading()) && fresh(Speaking()) && fresh(text) && fresh(pcm)
      ensures Whole() == StartMachine(overflow) && calls == [] && this.overflow == overflow
    {
      hide SseReader.Valid, SpeechSegmenter.Valid, SseReader.State, SpeechSegmenter.State, SseReader.Waiting;
      this.overflow := overflow;
      sse := new SseReader();
      segmenter := new SpeechSegmenter(SEGMENT_BYTES);
      text := new char[TEXT_BYTES];
      pcm := new byte[PCM_BYTES];
      outcome, code, reportedError := Running, NoError, NoError;
      expectedSeq, dropped, calls := 0, 0, [];
    }

    method FinishTurn(end: Outcome, why: ErrorCode)
      requires Valid() && end != Running
      modifies this`outcome, this`code, this`calls
      ensures Valid()
      ensures State() == Finish(old(State()), end, why).turn
      ensures calls == old(calls) + Finish(old(State()), end, why).calls
    {
      if outcome != Running {
        return;
      }
      outcome := end;
      code := why;
      calls := calls + [OnFinished(end, why)];
    }

    /** Announce the sentences that the segmenter has finished. */
    method DrainSegments()
      requires Apart() && segmenter.Valid() && sse.Valid()
      modifies this`calls, segmenter`fifoRead, segmenter`waiting
      ensures Valid() && segmenter.State() == old(segmenter.State()) && segmenter.dropped == old(segmenter.dropped)
      ensures calls == old(calls) + SentencesOf(old(segmenter.waiting))
    {
      hide SseReader.Valid, SpeechSegmenter.Valid;
      ghost var all := segmenter.waiting;
      var next := segmenter.NextSegment();
      SentencesNone(calls, all);
      while next.Some?
        invariant segmenter.Valid() && sse.Valid()
        invariant segmenter.State() == old(segmenter.State()) && segmenter.dropped == old(segmenter.dropped)
        invariant next.None? ==> segmenter.waiting == []
        invariant old(calls) + SentencesOf(all)
               == calls + SentencesOf((if next.Some? then [next.value] else []) + segmenter.waiting)
        decreases |segmenter.waiting| + if next.Some? then 1 else 0
      {
        SentencesNext(calls, next.value, segmenter.waiting);
        calls := calls + [OnSentence(next.value)];
        SentencesNone(calls, segmenter.waiting);
        next := segmenter.NextSegment();
      }
      SentencesNone(calls, []);
    }

    /** Feed the segmenter and announce what it finished. */
    method Say(words: string)
      requires Valid()
      modifies this`calls, Speaking()
      ensures Valid()
      ensures
        var r := Announce(old(State()), S.Run(old(State()).talk, words, SEGMENT_BYTES));
        State() == r.turn && calls == old(calls) + r.calls
    {
      hide S.Run, Q.EnqueueAll, SseReader.Valid, SpeechSegmenter.Valid, SentencesOf;
      segmenter.Feed(words);
      DrainSegments();
    }

    method SayRest()
      requires Valid()
      modifies this`calls, Speaking()
      ensures Valid()
      ensures
        var r := Announce(old(State()), S.Flush(old(State()).talk, SEGMENT_BYTES));
        State() == r.turn && calls == old(calls) + r.calls
    {
      hide S.Flush, Q.EnqueueAll, SseReader.Valid, SpeechSegmenter.Valid, SentencesOf;
      segmenter.FlushAll();
      DrainSegments();
    }

    /** Decode and play the samples of an audio event. */
    method PlaySamples(payload: string)
      requires Valid() && outcome == Running
      modifies this, Speaking(), pcm
      ensures Valid()
      ensures State() == HandleSamples(old(State()), payload).turn
      ensures calls == old(calls) + HandleSamples(old(State()), payload).calls
    {
      hide RawStringOf, BoolOf, Decode, S.Flush, Announce, SseReader.Valid, SpeechSegmenter.Valid, HandleSamples;
      NoneAfter(calls);
      SamplesHandled(State(), payload);
      var coded := JsonFindRawString(payload, "pcm");
      if coded.None? {
        dropped := dropped + 1;
        return;
      }
      var bytes := Base64Decode(coded.value, pcm, pcm.Length);
      if bytes.None? || bytes.value % 2 != 0 {
        FinishTurn(Failed, Internal);
        return;
      }
      ghost var t := State();
      ghost var r := Ignored(t);
      var last := JsonFindBool(payload, "last");
      if last == Some(true) {
        SayRest();
        r := Announce(t, S.Flush(t.talk, SEGMENT_BYTES));
      }
      ghost var played: seq<Call> := [];
      if bytes.value > 0 {
        played := [OnAudio(pcm[..bytes.value])];
        CallsJoin(old(calls), r.calls, played);
        calls := calls + [OnAudio(pcm[..bytes.value])];
      } else {
        NoneAfter(r.calls);
      }
    }

    method TakeAudio(payload: string)
      requires Valid() && outcome == Running
      modifies this, Speaking(), text, pcm
      ensures Valid()
      ensures State() == HandleAudio(old(State()), payload).turn
      ensures calls == old(calls) + HandleAudio(old(State()), payload).calls
    {
      hide IntegerOf, HandleNumbered, SseReader.Valid, SpeechSegmenter.Valid;
      NoneAfter(calls);
      var rate := JsonFindInteger(payload, "rate", overflow);
      if rate != Some(AUDIO_RATE) {
        dropped := dropped + 1;
        return;
      }
      var seqNo := JsonFindInteger(payload, "seq", overflow);
      if seqNo != Some(expectedSeq) {
        FinishTurn(Failed, Internal);
        return;
      }
      expectedSeq := expectedSeq + 1;
      SpeakNumbered(payload);
    }

    /** The words and the samples of an event whose number has been accepted. */
    method SpeakNumbered(payload: string)
      requires Valid() && outcome == Running
      modifies this, Speaking(), text, pcm
      ensures Valid()
      ensures State() == HandleNumbered(old(State()), payload).turn
      ensures calls == old(calls) + HandleNumbered(old(State()), payload).calls
    {
      hide RawStringOf, Unescaped, S.Run, Announce, HandleSamples, SseReader.Valid, SpeechSegmenter.Valid;
      NoneAfter(calls);
      ghost var u := State();
      var raw := JsonFindRawString(payload, "text");
      if raw.Some? {
        var ok := SayText(raw.value);
        if !ok {
          dropped := dropped + 1;
          return;
        }
        ghost var r := Announce(u, S.Run(u.talk, Unescaped(raw.value).value, SEGMENT_BYTES));
        CallsJoin(old(calls), r.calls, HandleSamples(r.turn, payload).calls);
        AnnounceKeeps(u, S.Run(u.talk, Unescaped(raw.value).value, SEGMENT_BYTES));
      }
      PlaySamples(payload);
    }

    /** Say the text of an audio event; false if it cannot be read in full. */
    method SayText(raw: string) returns (ok: bool)
      requires Valid()
      modifies this`calls, Speaking(), text
      ensures Valid()
      ensures ok <==> Unescaped(raw).Some?
      ensures ok ==>
        var r := Announce(old(State()), S.Run(old(State()).talk, Unescaped(raw).value, SEGMENT_BYTES));
        State() == r.turn && calls == old(calls) + r.calls
      ensures !ok ==> State() == old(State()) && calls == old(calls)
    {
      hide Unescape, S.Run, Announce, SseReader.Valid, SpeechSegmenter.Valid;
      var len := JsonUnescape(raw, text, 0, text.Length);
      if len.None? {
        return false;
      }
      assert text[0..0 + len.value] == text[..len.value];
      Say(text[..len.value]);
      return true;
    }

    method TakeText(payload: string)
      requires Valid()
      modifies this, text
      ensures Valid()
      ensures State() == HandleText(old(State()), payload).turn
      ensures calls == old(calls) + HandleText(old(State()), payload).calls
    {
      hide RawStringOf, BoolOf, Unescape, SseReader.Valid, SpeechSegmenter.Valid;
      NoneAfter(calls);
      var raw := JsonFindRawString(payload, "text");
      if raw.None? {
        dropped := dropped + 1;
        return;
      }
      var len := JsonUnescape(raw.value, text, 0, text.Length);
      if len.None? {
        dropped := dropped + 1;
        return;
      }
      assert text[0..0 + len.value] == text[..len.value];
      var finalText := true;
      var said := JsonFindBool(payload, "final");
      if said.Some? {
        finalText := said.value;
      }
      calls := calls + [OnRecognized(text[..len.value], finalText)];
    }

    /** One event of the stream. */
    method TakeEvent(data: string)
      requires Valid() && outcome == Running
      modifies this, Speaking(), text, pcm
      ensures Valid()
      ensures State() == Interpret(old(State()), data).turn
      ensures calls == old(calls) + Interpret(old(State()), data).calls
    {
      hide RawStringOf, IntegerOf, ObjectOf, HandleAudio, HandleText, HandleEnd, HandleError, SseReader.Valid,
           SpeechSegmenter.Valid;
      NoneAfter(calls);
      if data == "[DONE]" {
        return;
      }
      var version := JsonFindInteger(data, "v", overflow);
      if version != Some(1) {
        dropped := dropped + 1;
        return;
      }
      var kind := JsonFindRawString(data, "kind");
      if kind != Some("event") {
        dropped := dropped + 1;
        return;
      }
      var name := JsonFindRawString(data, "name");
      if name.None? {
        dropped := dropped + 1;
        return;
      }
      var payload := JsonFindObject(data, "payload");
      if payload.None? {
        dropped := dropped + 1;
        return;
      }
      if name.value == "reply.audio" {
        TakeAudio(payload.value);
        return;
      }
      if name.value == "conversation.text" {
        TakeText(payload.value);
        return;
      }
      if name.value == "conversation.finished" {
        TakeEnd(payload.value);
        return;
      }
      if name.value == "error.raised" {
        TakeError(payload.value);
      }
    }

    /** The reply says how it ended; a failure it has named keeps that name. */
    method TakeEnd(payload: string)
      requires Valid()
      modifies this
      ensures Valid()
      ensures State() == HandleEnd(old(State()), payload).turn
      ensures calls == old(calls) + HandleEnd(old(State()), payload).calls
    {
      hide RawStringOf, SseReader.Valid, SpeechSegmenter.Valid;
      NoneAfter(calls);
      var reason := JsonFindRawString(payload, "reason");
      if reason.None? {
        dropped := dropped + 1;
        return;
      }
      var end := OutcomeOf(reason.value);
      var why := NoError;
      if end == Failed {
        why := if reportedError != NoError then reportedError else Internal;
      }
      FinishTurn(end, why);
    }

    /** The reply names a failure ahead of its end. */
    method TakeError(payload: string)
      requires Valid()
      modifies this
      ensures Valid()
      ensures State() == HandleError(old(State()), payload).turn
      ensures calls == old(calls) + HandleError(old(State()), payload).calls
    {
      hide RawStringOf, ParseErrorCode, SseReader.Valid, SpeechSegmenter.Valid;
      NoneAfter(calls);
      var codeName := JsonFindRawString(payload, "code");
      var why := Internal;
      if codeName.Some? {
        var parsed := ParseErrorCode(codeName.value);
        why := if parsed.Some? then parsed.value else Internal;
      }
      reportedError := why;
    }

    /** Take events from the reader's queue until it is empty or the turn is over. */
    method DrainEvents()
      requires Valid()
      modifies this, sse, Speaking(), text, pcm
      ensures Valid()
      ensures Whole() == Drain(old(Whole())).0
      ensures calls == old(calls) + Drain(old(Whole())).1
    {
      hide Interpret, SseReader.Valid, SpeechSegmenter.Valid;
      ghost var m := Whole();
      ghost var events := m.queue.events;
      ghost var taken := 0;
      NoneAfter(calls);
      assert events[0..] == events;
      var running := outcome == Running;
      while running
        invariant Valid() && sse.State() == m.reader && running == (outcome == Running)
        invariant taken <= |events| && sse.Waiting() == m.queue.(events := events[taken..])
        invariant Then(Reaction(State(), calls), InterpretAll(State(), events[taken..]))
               == Then(Reaction(m.turn, old(calls)), InterpretAll(m.turn, events))
        invariant taken + Taken(State(), events[taken..]) == Taken(m.turn, events)
        decreases |events| - taken, running
      {
        var data := sse.NextEvent();
        if data.None? {
          break;
        }
        ghost var t, before := State(), calls;
        assert events[taken..][0] == events[taken] && events[taken..][1..] == events[taken + 1..];
        TakeEvent(data.value);
        InterpretStep(t, events[taken..], before);
        taken := taken + 1;
        running := outcome == Running;
      }
      InterpretNone(State(), events[taken..], calls);
    }

    /** A block of the reply. Anything after the end is ignored. */
    method Feed(bytes: string)
      requires Valid()
      modifies this, Reading(), Speaking(), text, pcm
      ensures Valid()
      ensures Whole() == FeedBlock(old(Whole()), bytes).0
      ensures calls == old(calls) + FeedBlock(old(Whole()), bytes).1
    {
      hide R.Run, R.EnqueueAll, Drain, R.Rewound, SseReader.Valid, SpeechSegmenter.Valid;
      NoneAfter(calls);
      if outcome != Running {
        return;
      }
      sse.Feed(bytes);
      DrainEvents();
    }

    /** The stream has closed. */
    method EndInput()
      requires Valid()
      modifies this, Reading(), Speaking(), text, pcm
      ensures Valid()
      ensures Whole() == FinishInput(old(Whole())).0
      ensures calls == old(calls) + FinishInput(old(Whole())).1
    {
      hide R.Finish, R.EnqueueAll, Drain, SseReader.Valid, SpeechSegmenter.Valid;
      NoneAfter(calls);
      if outcome != Running {
        return;
      }
      ghost var m := Whole();
      sse.EndOfStream();
      DrainEvents();
      ghost var last := R.Finish(m.reader);
      ghost var d := Drain(m.(reader := last.state, queue := R.EnqueueAll(m.queue, last.items)));
      NoneAfter(d.1);
      if outcome != Running {
        return;
      }
      CallsJoin(old(calls), d.1, Close(State()).calls);
      FinishTurn(Failed, if reportedError != NoError then reportedError else Internal);
    }

    /** End the turn from this side. */
    method Abort(why: ErrorCode)
      requires Valid()
      modifies this`outcome, this`code, this`calls
      ensures Valid()
      ensures
        var r := Finish(old(State()), if why == CancelledError then Cancelled else Failed, why);
        Whole() == old(Whole()).(turn := r.turn) && calls == old(calls) + r.calls
    {
      FinishTurn(if why == CancelledError then Cancelled else Failed, why);
    }
  }

  lemma SentencesNone(calls: seq<Call>, segments: seq<S.Segment>)
    ensures calls + SentencesOf([]) == calls
    ensures segments != [] ==> [segments[0]] + segments[1..] == segments
    ensures [] + segments == segments
  {
  }

  lemma SentencesNext(calls: seq<Call>, s: S.Segment, rest: seq<S.Segment>)
    ensures calls + SentencesOf([s] + rest) == calls + [OnSentence(s)] + SentencesOf(rest)
  {
    assert ([s] + rest)[1..] == rest;
  }

  lemma NoneAfter(calls: seq<Call>)
    ensures calls + [] == calls && [] + calls == calls
  {
  }

  lemma CallsJoin(a: seq<Call>, b: seq<Call>, c: seq<Call>)
    ensures a + (b + c) == a + b + c
  {
  }

  lemma SamplesHandled(t: Turn, payload: string)
    ensures
      var coded := RawStringOf(payload, "pcm");
      if coded.None? then HandleSamples(t, payload) == Dropped(t)
      else
        var pcm := PcmOf(coded.value);
        if pcm.None? then HandleSamples(t, payload) == Finish(t, Failed, Internal)
        else
          var said := Announce(t, S.Flush(t.talk, SEGMENT_BYTES));
          var r := if BoolOf(payload, "last") == Some(true) then said else Ignored(t);
          HandleSamples(t, payload) == Then(r, Reaction(r.turn, if pcm.value == [] then [] else [OnAudio(pcm.value)]))
  {
    hide RawStringOf, PcmOf, BoolOf, Announce, S.Flush;
  }

  lemma AnnounceKeeps(t: Turn, r: S.Result)
    ensures Announce(t, r).turn.outcome == t.outcome
  {
  }

  lemma InterpretStep(t: Turn, events: seq<string>, before: seq<Call>)
    requires events != [] && t.outcome == Running
    ensures
      var r := Interpret(t, events[0]);
      && Then(Reaction(t, before), InterpretAll(t, events))
      == Then(Reaction(r.turn, before + r.calls), InterpretAll(r.turn, events[1..]))
      && Taken(t, events) == 1 + Taken(r.turn, events[1..])
  {
    hide Interpret;
    var r := Interpret(t, events[0]);
    CallsJoin(before, r.calls, InterpretAll(r.turn, events[1..]).calls);
  }

  lemma InterpretNone(t: Turn, events: seq<string>, before: seq<Call>)
    requires events == [] || t.outcome != Running
    ensures Then(Reaction(t, before), InterpretAll(t, events)) == Reaction(t, before) && Taken(t, events) == 0
  {
    NoneAfter(before);
  }
}
