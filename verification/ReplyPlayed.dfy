/** From the bytes of a reply to the loudspeaker.

    The player is the listener of the turn. This module feeds it the calls that a reply causes: whatever the
    network cuts and whatever the sink does, every sample that was sent is played in order, or discarded and
    counted, and nothing stays behind. A sample is played under the expression of the last sentence announced
    (`Voiced`). That is the expression its marker asks for (`Wanted`) only if the chunk that brings the sample
    finishes a sentence behind the marker; the module proves exactly when (`AsWanted`), and that a reply of
    sentences that end with a dot is played under the wrong ones (`FacesLag`). */
module ReplyPlayed {
  import opened Bytes
  import opened Base64
  import opened JsonRead
  import opened Protocol
  import opened ConversationSpec
  import opened ReplyRoundTrip
  import L = PlaybackHeard
  import P = Playback
  import M = SpeechMeaning
  import Q = SpeechQueue
  import R = SseSpec
  import S = SpeechSpec
  import V = SpeechMarks

  // --------------------------------------------------------- what is played

  /** Two bytes, the low one first, as a signed 16-bit sample. */
  function SampleOf(low: byte, high: byte): P.Sample {
    var n := low as int + 256 * high as int;
    (if n >= 0x8000 then n - 0x1_0000 else n) as P.Sample
  }

  function SamplesOf(pcm: seq<byte>): seq<P.Sample> {
    seq(|pcm| / 2, k requires 0 <= k < |pcm| / 2 => SampleOf(pcm[2 * k], pcm[2 * k + 1]))
  }

  /** What a call to the listener means to the player. */
  function CallbackOf(call: Call): seq<P.Callback> {
    match call
    case OnRecognized(_, _) => []
    case OnSentence(s) => [P.Sentence(s.expression)]
    case OnAudio(pcm) => [P.Audio(SamplesOf(pcm))]
    case OnFinished(outcome, _) => [P.Finished(outcome == Completed)]
  }

  function CallbacksOf(calls: seq<Call>): seq<P.Callback> {
    if calls == [] then [] else CallbackOf(calls[0]) + CallbacksOf(calls[1..])
  }

  // ---------------------------------------------- what it is played under

  /** The samples of a reply as the turn pairs them: with the expression of the last sentence which the words up to
      and including the chunk have finished; with the last chunk all sentences are finished. */
  function Voiced(before: string, chunks: seq<Chunk>): seq<(P.Sample, S.Expression)>
    decreases |chunks|
  {
    if chunks == [] then []
    else
      var after := before + WordsOf(chunks[0]);
      P.Arrivals(SamplesOf(chunks[0].pcm), V.LastVoice(SaidBy(after, |chunks| == 1), S.Neutral))
      + Voiced(after, chunks[1..])
  }

  function SaidBy(text: string, last: bool): seq<S.Segment> {
    M.Sentences(S.Tokens(text, last), S.Neutral, SEGMENT_BYTES, last)
  }

  /** The samples of a reply as its markers ask for them: with the expression in force at the end of the words up to
      and including the chunk. */
  function Wanted(before: string, chunks: seq<Chunk>): seq<(P.Sample, S.Expression)>
    decreases |chunks|
  {
    if chunks == [] then []
    else
      var after := before + WordsOf(chunks[0]);
      P.Arrivals(SamplesOf(chunks[0].pcm), V.InForce(after)) + Wanted(after, chunks[1..])
  }

  /** The speech since the last marker finishes a sentence, or the last one before that marker happens to have the
      same expression. A text that is not the `last` finishes sentences before its end only; the last one is
      flushed. */
  predicate InTime(text: string, last: bool) {
    var tokens := S.Tokens(text, last);
    || M.Sentences(V.SinceMark(tokens), V.InForce(text), SEGMENT_BYTES, last) != []
    || V.LastVoice(M.Sentences(V.UpToMark(tokens), S.Neutral, SEGMENT_BYTES), S.Neutral) == V.InForce(text)
  }

  /** Every chunk that brings samples brings its sentence in time. */
  predicate Timely(before: string, chunks: seq<Chunk>)
    decreases |chunks|
  {
    chunks != [] ==>
      var after := before + WordsOf(chunks[0]);
      (SamplesOf(chunks[0].pcm) != [] ==> InTime(after, |chunks| == 1)) && Timely(after, chunks[1..])
  }

  lemma VoiceInTime(text: string, last: bool)
    ensures V.LastVoice(SaidBy(text, last), S.Neutral) == V.InForce(text) <==> InTime(text, last)
  {
    hide S.Tokens, M.Sentences, V.LastVoice, V.SinceMark, V.UpToMark, V.InForce, V.Selected;
    V.SelectedAtEnd(text, last);
    V.LastVoiceIs(S.Tokens(text, last), SEGMENT_BYTES, last);
  }

  lemma OneVoiced(samples: seq<P.Sample>, d: S.Expression, e: S.Expression,
                  x: seq<(P.Sample, S.Expression)>, y: seq<(P.Sample, S.Expression)>)
    requires |x| == |y|
    ensures P.Arrivals(samples, d) + x == P.Arrivals(samples, e) + y <==> (samples != [] ==> d == e) && x == y
  {
    var a, b := P.Arrivals(samples, d) + x, P.Arrivals(samples, e) + y;
    if a == b {
      assert samples != [] ==> a[0] == (samples[0], d) && b[0] == (samples[0], e);
      assert x == a[|samples|..] && y == b[|samples|..];
    }
    if samples == [] {
      assert P.Arrivals(samples, d) == P.Arrivals(samples, e);
    }
  }

  /** What the turn does is what the markers ask for if and only if every sentence comes in time. */
  lemma {:induction false} AsWanted(before: string, chunks: seq<Chunk>)
    ensures |Voiced(before, chunks)| == |Wanted(before, chunks)|
    ensures Voiced(before, chunks) == Wanted(before, chunks) <==> Timely(before, chunks)
    decreases |chunks|
  {
    if chunks != [] {
      hide SaidBy, InTime, SamplesOf, V.LastVoice, V.InForce;
      var after, last := before + WordsOf(chunks[0]), |chunks| == 1;
      AsWanted(after, chunks[1..]);
      VoiceInTime(after, last);
      OneVoiced(SamplesOf(chunks[0].pcm), V.LastVoice(SaidBy(after, last), S.Neutral), V.InForce(after),
                Voiced(after, chunks[1..]), Wanted(after, chunks[1..]));
    }
  }

  // ------------------------------------------------------------ call by call

  lemma {:induction false} CallbacksJoin(a: seq<Call>, b: seq<Call>)
    ensures CallbacksOf(a + b) == CallbacksOf(a) + CallbacksOf(b)
    decreases |a|
  {
    if a == [] {
      assert a + b == b;
    } else {
      hide CallbackOf;
      assert (a + b)[1..] == a[1..] + b;
      CallbacksJoin(a[1..], b);
    }
  }

  /** The expression after some callbacks. */
  function VoiceAfter(callbacks: seq<P.Callback>, e: S.Expression): S.Expression {
    if callbacks == [] then e
    else VoiceAfter(callbacks[1..], if callbacks[0].Sentence? then callbacks[0].expression else e)
  }

  lemma {:induction false} GivenJoin(a: seq<P.Callback>, b: seq<P.Callback>, e: S.Expression)
    ensures P.Given(a + b, e) == P.Given(a, e) + P.Given(b, VoiceAfter(a, e))
    ensures VoiceAfter(a + b, e) == VoiceAfter(b, VoiceAfter(a, e))
    decreases |a|
  {
    hide P.Arrivals;
    if a == [] {
      assert a + b == b;
    } else {
      assert (a + b)[1..] == a[1..] + b;
      GivenJoin(a[1..], b, if a[0].Sentence? then a[0].expression else e);
    }
  }

  lemma {:induction false} SentencesGive(segments: seq<S.Segment>, e: S.Expression)
    ensures P.Given(CallbacksOf(SentencesOf(segments)), e) == []
    ensures VoiceAfter(CallbacksOf(SentencesOf(segments)), e) == V.LastVoice(segments, e)
    decreases |segments|
  {
    if segments != [] {
      var s, rest := segments[0], segments[1..];
      assert SentencesOf(segments)[1..] == SentencesOf(rest);
      var callbacks := CallbacksOf(SentencesOf(segments));
      assert callbacks == [P.Sentence(s.expression)] + CallbacksOf(SentencesOf(rest));
      assert callbacks[1..] == CallbacksOf(SentencesOf(rest));
      hide CallbacksOf, SentencesOf;
      SentencesGive(rest, s.expression);
    }
  }

  lemma AudioGives(pcm: seq<byte>, e: S.Expression)
    ensures P.Given(CallbacksOf([OnAudio(pcm)]), e) == P.Arrivals(SamplesOf(pcm), e)
    ensures VoiceAfter(CallbacksOf([OnAudio(pcm)]), e) == e
    ensures P.Given(CallbacksOf([]), e) == [] && VoiceAfter(CallbacksOf([]), e) == e
    ensures pcm == [] ==> P.Arrivals(SamplesOf(pcm), e) == []
  {
    var callbacks := CallbacksOf([OnAudio(pcm)]);
    assert [OnAudio(pcm)][1..] == [];
    assert callbacks == [P.Audio(SamplesOf(pcm))] && callbacks[1..] == [];
    assert P.Arrivals(SamplesOf(pcm), e) + [] == P.Arrivals(SamplesOf(pcm), e);
  }

  /** Sentences, then a sound. */
  lemma GivenAfter(said: seq<S.Segment>, flushed: seq<S.Segment>, pcm: seq<byte>, e: S.Expression)
    ensures
      var third := if pcm == [] then [] else [OnAudio(pcm)];
      var callbacks := CallbacksOf(SentencesOf(said) + (SentencesOf(flushed) + third));
      var voice := V.LastVoice(flushed, V.LastVoice(said, e));
      && P.Given(callbacks, e) == P.Arrivals(SamplesOf(pcm), voice)
      && VoiceAfter(callbacks, e) == voice
  {
    hide CallbacksOf, P.Given, VoiceAfter, SentencesOf, P.Arrivals, SamplesOf, V.LastVoice;
    var first, second := SentencesOf(said), SentencesOf(flushed);
    var third := if pcm == [] then [] else [OnAudio(pcm)];
    var e1 := V.LastVoice(said, e);
    var e2 := V.LastVoice(flushed, e1);
    SentencesGive(said, e);
    SentencesGive(flushed, e1);
    AudioGives(pcm, e2);
    CallbacksJoin(first, second + third);
    CallbacksJoin(second, third);
    GivenJoin(CallbacksOf(first), CallbacksOf(second + third), e);
    GivenJoin(CallbacksOf(second), CallbacksOf(third), e1);
  }

  // --------------------------------------------------------- chunk by chunk

  lemma AnnouncesAll(t: Turn, r: S.Result)
    requires Q.Load(r.segments) <= Q.SPEECH_QUEUE_BYTES
    ensures Announce(t, r) == Reaction(t.(talk := r.state), SentencesOf(r.segments))
  {
    hide Q.EnqueueAll, SentencesOf, Q.Load;
    Q.AllFit(Q.Queue(0, [], t.unspoken), r.segments);
    assert [] + r.segments == r.segments;
  }

  /** With room, a chunk says its sentences and then plays its samples. */
  lemma EffectCalls(t: Turn, before: string, c: Chunk, last: bool)
    requires Ready(t, before)
    requires Q.Load(S.Run(t.talk, WordsOf(c), SEGMENT_BYTES).segments) <= Q.SPEECH_QUEUE_BYTES
    ensures
      var said := S.Run(t.talk, WordsOf(c), SEGMENT_BYTES);
      var flushed := if last then S.Flush(said.state, SEGMENT_BYTES).segments else [];
      Effect(t, c, last).calls
      == SentencesOf(said.segments) + (SentencesOf(flushed) + if c.pcm == [] then [] else [OnAudio(c.pcm)])
  {
    hide S.Run, S.Flush, Announce, Q.Load;
    var u := t.(expectedSeq := t.expectedSeq + 1);
    var said := S.Run(u.talk, WordsOf(c), SEGMENT_BYTES);
    NoWords(u);
    AnnouncesAll(u, said);
    var v := u.(talk := said.state);
    FlushFits(before, WordsOf(c));
    AnnouncesAll(v, S.Flush(v.talk, SEGMENT_BYTES));
  }

  lemma SaidByFinished(text: string)
    ensures SaidBy(text, false) == M.Finished(text, SEGMENT_BYTES)
  {
  }

  /** What the words up to a chunk have said, with the machine. */
  lemma SaidByIs(before: string, words: string, last: bool)
    ensures
      var said := S.Run(S.Run(S.SILENT, before, SEGMENT_BYTES).state, words, SEGMENT_BYTES);
      var flushed := if last then S.Flush(said.state, SEGMENT_BYTES).segments else [];
      SaidBy(before + words, last) == M.Finished(before, SEGMENT_BYTES) + said.segments + flushed
  {
    hide S.Run, S.Flush, M.Sentences, S.Tokens;
    var text := before + words;
    M.PieceFinishes(before, words, SEGMENT_BYTES);
    S.RunAppend(S.SILENT, before, words, SEGMENT_BYTES);
    M.EmitsFinished(text, SEGMENT_BYTES);
    M.EmitsSentences(text, SEGMENT_BYTES);
    var said := S.Run(S.Run(S.SILENT, before, SEGMENT_BYTES).state, words, SEGMENT_BYTES).segments;
    SaidByFinished(text);
    hide M.Finished;
    assert M.Finished(before, SEGMENT_BYTES) + said + [] == M.Finished(before, SEGMENT_BYTES) + said;
  }

  /** The samples of a chunk are given with the expression of the last sentence finished. */
  lemma ChunkGives(t: Turn, before: string, c: Chunk, last: bool)
    requires Ready(t, before)
    requires Q.Load(S.Run(t.talk, WordsOf(c), SEGMENT_BYTES).segments) <= Q.SPEECH_QUEUE_BYTES
    ensures
      var callbacks := CallbacksOf(Effect(t, c, last).calls);
      var e := V.LastVoice(M.Finished(before, SEGMENT_BYTES), S.Neutral);
      var voice := V.LastVoice(SaidBy(before + WordsOf(c), last), S.Neutral);
      && P.Given(callbacks, e) == P.Arrivals(SamplesOf(c.pcm), voice)
      && VoiceAfter(callbacks, e) == voice
  {
    hide S.Run, S.Flush, M.Finished, SaidBy, V.LastVoice, P.Arrivals, SamplesOf, CallbacksOf, P.Given, VoiceAfter,
         Q.Load, Effect;
    var said := S.Run(t.talk, WordsOf(c), SEGMENT_BYTES);
    var flushed := if last then S.Flush(said.state, SEGMENT_BYTES).segments else [];
    var finished := M.Finished(before, SEGMENT_BYTES);
    EffectCalls(t, before, c, last);
    GivenAfter(said.segments, flushed, c.pcm, V.LastVoice(finished, S.Neutral));
    SaidByIs(before, WordsOf(c), last);
    V.LastVoiceJoin(finished, said.segments, S.Neutral);
    V.LastVoiceJoin(finished + said.segments, flushed, S.Neutral);
  }

  lemma {:induction false} ChunksGive(t: Turn, before: string, chunks: seq<Chunk>)
    requires Ready(t, before) && chunks != [] && forall k | 0 <= k < |chunks| :: Sendable(chunks[k])
    requires t.expectedSeq + |chunks| <= MAX_INT64 && Roomy(before, chunks)
    ensures
      var calls := InterpretAll(t, AudioEvents(t.expectedSeq, chunks)).calls;
      P.Given(CallbacksOf(calls), V.LastVoice(M.Finished(before, SEGMENT_BYTES), S.Neutral)) == Voiced(before, chunks)
    decreases |chunks|
  {
    hide Interpret, Effect, AudioEvent, S.Run, S.Flush, Sendable, Roomy, Q.Load, M.Finished, V.LastVoice, P.Arrivals,
         SamplesOf, CallbacksOf, P.Given, VoiceAfter, SaidBy, AudioEvents;
    var c, rest := chunks[0], chunks[1..];
    var last := |chunks| == 1;
    var r := Effect(t, c, last);
    AudioInterpreted(t, t.expectedSeq, c, last);
    EffectHeard(t, before, c, last);
    RoomyFirst(before, chunks);
    AudioEventsFirst(t.expectedSeq, chunks);
    ChunkGives(t, before, c, last);
    if last {
      assert rest == [];
      LastChunk(r, c, before + WordsOf(c));
      NoEvents(t.expectedSeq + 1);
      var voice := V.LastVoice(SaidBy(before + WordsOf(c), last), S.Neutral);
      NothingMore(before + WordsOf(c), P.Arrivals(SamplesOf(c.pcm), voice));
    } else {
      SaidByFinished(before + WordsOf(c));
      ChunksGive(r.turn, before + WordsOf(c), rest);
      var s := InterpretAll(r.turn, AudioEvents(r.turn.expectedSeq, rest));
      CallbacksJoin(r.calls, s.calls);
      GivenJoin(CallbacksOf(r.calls), CallbacksOf(s.calls), V.LastVoice(M.Finished(before, SEGMENT_BYTES), S.Neutral));
    }
  }

  lemma NoEvents(n: nat)
    ensures AudioEvents(n, []) == []
  {
  }

  lemma NothingMore(after: string, given: seq<(P.Sample, S.Expression)>)
    ensures Voiced(after, []) == [] && given + [] == given
  {
  }

  // ------------------------------------------------------- whole samples only

  /** Only whole samples are played. */
  predicate AllWhole(calls: seq<Call>) {
    forall k | 0 <= k < |calls| :: calls[k].OnAudio? ==> |calls[k].pcm| % 2 == 0
  }

  lemma {:induction false} SentencesWhole(segments: seq<S.Segment>)
    ensures AllWhole(SentencesOf(segments))
    decreases |segments|
  {
    if segments != [] {
      SentencesWhole(segments[1..]);
    }
  }

  lemma AnnounceWhole(t: Turn, r: S.Result)
    ensures AllWhole(Announce(t, r).calls)
  {
    SentencesWhole(Q.EnqueueAll(Q.Queue(0, [], t.unspoken), r.segments).segments);
    hide Q.EnqueueAll, AllWhole, SentencesOf;
  }

  lemma WholeJoin(a: seq<Call>, b: seq<Call>)
    requires AllWhole(a) && AllWhole(b)
    ensures AllWhole(a + b)
  {
  }

  lemma SamplesWhole(t: Turn, payload: string)
    ensures AllWhole(HandleSamples(t, payload).calls)
  {
    hide RawStringOf, BoolOf, PcmOf, S.Flush, Announce, AllWhole;
    NothingPlayed();
    var text := RawStringOf(payload, "pcm");
    if text.Some? && PcmOf(text.value).Some? {
      var pcm := PcmOf(text.value).value;
      var said :=
        if BoolOf(payload, "last") == Some(true) then Announce(t, S.Flush(t.talk, SEGMENT_BYTES)) else Ignored(t);
      var played := if pcm == [] then [] else [OnAudio(pcm)];
      AnnounceWhole(t, S.Flush(t.talk, SEGMENT_BYTES));
      PcmWhole(text.value);
      PlayedWhole(pcm);
      WholeJoin(said.calls, played);
      assert HandleSamples(t, payload).calls == said.calls + played;
    }
  }

  lemma PcmWhole(text: string)
    ensures PcmOf(text).Some? ==> |PcmOf(text).value| % 2 == 0
  {
    hide Decode;
  }

  lemma PlayedWhole(pcm: seq<byte>)
    requires |pcm| % 2 == 0
    ensures AllWhole(if pcm == [] then [] else [OnAudio(pcm)])
  {
  }

  lemma NothingPlayed()
    ensures AllWhole([]) && forall outcome, code :: AllWhole([OnFinished(outcome, code)])
  {
  }

  lemma AudioWhole(t: Turn, payload: string)
    ensures AllWhole(HandleAudio(t, payload).calls)
  {
    hide RawStringOf, IntegerOf, Unescaped, S.Run, Announce, HandleSamples;
    var u := t.(expectedSeq := t.expectedSeq + 1);
    SamplesWhole(u, payload);
    forall text: string
      ensures
        var r := Announce(u, S.Run(u.talk, text, SEGMENT_BYTES));
        AllWhole(r.calls + HandleSamples(r.turn, payload).calls)
    {
      var r := Announce(u, S.Run(u.talk, text, SEGMENT_BYTES));
      AnnounceWhole(u, S.Run(u.talk, text, SEGMENT_BYTES));
      SamplesWhole(r.turn, payload);
      WholeJoin(r.calls, HandleSamples(r.turn, payload).calls);
    }
  }

  lemma InterpretWhole(t: Turn, data: string)
    ensures AllWhole(Interpret(t, data).calls)
  {
    hide RawStringOf, BoolOf, Unescaped, ParseErrorCode, EnvelopeOf, HandleAudio;
    var e := EnvelopeOf(data, t.overflow);
    if e.Some? {
      AudioWhole(t, e.value.payload);
    }
  }

  lemma {:induction false} InterpretAllWhole(t: Turn, events: seq<string>)
    ensures AllWhole(InterpretAll(t, events).calls)
    decreases |events|
  {
    hide Interpret;
    if events != [] && t.outcome == Running {
      InterpretWhole(t, events[0]);
      InterpretAllWhole(Interpret(t, events[0]).turn, events[1..]);
      WholeJoin(Interpret(t, events[0]).calls, InterpretAll(Interpret(t, events[0]).turn, events[1..]).calls);
      hide AllWhole;
    }
  }

  // ------------------------------------------------------------ every sample

  function Sounds(given: seq<(P.Sample, S.Expression)>): seq<P.Sample> {
    seq(|given|, k requires 0 <= k < |given| => given[k].0)
  }

  lemma SamplesJoin(a: seq<byte>, b: seq<byte>)
    requires |a| % 2 == 0
    ensures SamplesOf(a + b) == SamplesOf(a) + SamplesOf(b)
  {
    hide SampleOf;
    var n := |a| / 2;
    forall k | 0 <= k < |a + b| / 2 ensures SamplesOf(a + b)[k] == (SamplesOf(a) + SamplesOf(b))[k] {
      if k >= n {
        assert (a + b)[2 * k] == b[2 * (k - n)] && (a + b)[2 * k + 1] == b[2 * (k - n) + 1];
      }
    }
  }

  lemma SoundsJoin(samples: seq<P.Sample>, e: S.Expression, rest: seq<(P.Sample, S.Expression)>)
    ensures Sounds(P.Arrivals(samples, e) + rest) == samples + Sounds(rest)
  {
  }

  /** The samples given to the player are the bytes played, two by two. */
  lemma {:induction false} AllSounds(calls: seq<Call>, e: S.Expression)
    requires AllWhole(calls)
    ensures Sounds(P.Given(CallbacksOf(calls), e)) == SamplesOf(PcmIn(calls))
    decreases |calls|
  {
    hide P.Arrivals, SamplesOf, Sounds, P.Given, PcmIn;
    if calls == [] {
      NoSounds(e);
    } else {
      var call, rest := calls[0], calls[1..];
      assert [call] + rest == calls;
      InFirst(call, rest);
      var e1 := if call.OnSentence? then call.segment.expression else e;
      AllSounds(rest, e1);
      GivenFirst(call, CallbacksOf(rest), e);
      var pcm := if call.OnAudio? then call.pcm else [];
      SamplesJoin(pcm, PcmIn(rest));
      SoundsJoin(SamplesOf(pcm), e, P.Given(CallbacksOf(rest), e1));
    }
  }

  lemma NoSounds(e: S.Expression)
    ensures Sounds(P.Given(CallbacksOf([]), e)) == SamplesOf(PcmIn([])) == []
  {
  }

  lemma GivenFirst(call: Call, rest: seq<P.Callback>, e: S.Expression)
    ensures
      var e1 := if call.OnSentence? then call.segment.expression else e;
      P.Given(CallbackOf(call) + rest, e)
      == P.Arrivals(SamplesOf(if call.OnAudio? then call.pcm else []), e) + P.Given(rest, e1)
  {
    assert P.Arrivals(SamplesOf([]), e) == [];
    assert CallbackOf(call) != [] ==> (CallbackOf(call) + rest)[1..] == rest;
    assert CallbackOf(call) == [] ==> CallbackOf(call) + rest == rest;
    hide P.Arrivals, SamplesOf;
  }

  // ------------------------------------------------------------- the theorem

  lemma {:induction false} EndOfCalls(calls: seq<Call>)
    requires calls != [] && calls[|calls| - 1] == OnFinished(Completed, NoError)
    ensures CallbacksOf(calls) == CallbacksOf(calls[..|calls| - 1]) + [P.Finished(true)]
  {
    var before := calls[..|calls| - 1];
    var end := [OnFinished(Completed, NoError)];
    assert calls == before + end && end[1..] == [];
    CallbacksJoin(before, end);
    assert CallbacksOf(end) == [P.Finished(true)];
  }

  /** With room for every chunk, the player is given every sample with the expression of the last sentence that the
      words up to its chunk have finished. */
  lemma GivenAsVoiced(chunks: seq<Chunk>, overflow: Overflow)
    requires AllSendable(chunks) && Roomy("", chunks)
    ensures P.Given(CallbacksOf(WholeReply(ReplyStream(chunks), overflow).calls), S.Neutral) == Voiced("", chunks)
  {
    hide WholeReply, ReplyStream, Interpret, AudioEvent, EndEvent, CallbacksOf, P.Given, Voiced, Roomy, M.Finished;
    var t := StartTurn(overflow);
    var audio := AudioEvents(0, chunks);
    var s := InterpretAll(t, audio);
    StreamHeard(chunks, overflow);
    InterpretAppend(t, audio, [EndEvent()]);
    WordsHeard(chunks, overflow);
    EndInterpreted(s.turn);
    OneEvent(s.turn, EndEvent());
    var end := [OnFinished(Completed, NoError)];
    assert WholeReply(ReplyStream(chunks), overflow).calls == s.calls + end by { hide AudioEvents, InterpretAll; }
    NoSentences();
    if chunks != [] {
      assert Ready(t, "");
      hide AudioEvents, InterpretAll;
      ChunksGive(t, "", chunks);
    }
    hide AudioEvents, InterpretAll;
    CallbacksJoin(s.calls, end);
    GivenJoin(CallbacksOf(s.calls), CallbacksOf(end), S.Neutral);
    EndGives(VoiceAfter(CallbacksOf(s.calls), S.Neutral));
    NothingMore("", P.Given(CallbacksOf(s.calls), S.Neutral));
  }

  lemma NoSentences()
    ensures M.Finished("", SEGMENT_BYTES) == [] && P.Given(CallbacksOf([]), S.Neutral) == []
  {
    assert S.Tokens("", false) == [];
  }

  lemma EndGives(e: S.Expression)
    ensures P.Given(CallbacksOf([OnFinished(Completed, NoError)]), e) == []
  {
    var end := [OnFinished(Completed, NoError)];
    assert end[1..] == [];
    assert CallbacksOf(end) == [P.Finished(true)] && [P.Finished(true)][1..] == [];
  }

  lemma {:induction false} NoEndAmong(calls: seq<Call>)
    requires Ends(calls) == 0
    ensures forall completed :: P.Finished(completed) !in CallbacksOf(calls)
    decreases |calls|
  {
    if calls != [] {
      NoEndAmong(calls[1..]);
    }
  }

  /** A turn that completes reports no other end. */
  lemma OnlyCompleted(calls: seq<Call>)
    requires calls != [] && calls[|calls| - 1] == OnFinished(Completed, NoError) && Ends(calls) == 1
    ensures P.Finished(false) !in CallbacksOf(calls)
  {
    hide Ends, CallbacksOf;
    var front, end := calls[..|calls| - 1], [OnFinished(Completed, NoError)];
    assert calls == front + end;
    EndsAppend(front, end);
    EndIsOne();
    NoEndAmong(front);
    EndOfCalls(calls);
  }

  lemma EndIsOne()
    ensures Ends([OnFinished(Completed, NoError)]) == 1
  {
    assert [OnFinished(Completed, NoError)][1..] == [];
  }

  /** What a player that starts fresh does with a run: each sample is heard under the expression it was given with or
      counted as lost, in order, and nothing stays behind; all is heard if and only if every instruction lands. */
  ghost predicate PlaysOut(callbacks: seq<P.Callback>, capacity: nat, sink: nat -> P.Deed)
    requires P.Settled(P.FRESH_PLAYER, capacity) && capacity > 0
  {
    var given, plan := P.Given(callbacks, S.Neutral), L.Plan(callbacks, 0, capacity);
    var p := P.ReactAll(P.FRESH_PLAYER, callbacks, capacity, sink);
    && P.Origins(p.past) == given && P.AllPaired(p.past) && P.IsThinned(P.Heard(p.past), given)
    && |given| == |P.Heard(p.past)| + P.Lost(p.past) && p.stager.staged == []
    && L.Covered(plan) == |given| && (forall k | 0 <= k < |plan| :: plan[k].Play?)
    && P.Heard(p.past) == L.Played(given, plan, 0, sink)
    && (P.Heard(p.past) == given <==> L.AllDelivered(plan, 0, sink))
  }

  lemma {:induction false} RunPlaysOut(calls: seq<Call>, capacity: nat, sink: nat -> P.Deed)
    requires capacity > 0
    requires calls != [] && calls[|calls| - 1] == OnFinished(Completed, NoError) && Ends(calls) == 1
    ensures P.Settled(P.FRESH_PLAYER, capacity) && PlaysOut(CallbacksOf(calls), capacity, sink)
  {
    hide CallbacksOf, P.Given, P.ReactAll, P.Origins, P.AllPaired, P.IsThinned, P.Heard, P.Lost, P.Arrivals, L.Plan,
         L.Played, L.AllDelivered, L.Covered, Ends;
    EndOfCalls(calls);
    P.PairedAlways(CallbacksOf(calls), capacity, sink);
    P.NothingLeft(CallbacksOf(calls[..|calls| - 1]), true, capacity, sink);
    P.RunSettles(P.FRESH_PLAYER, CallbacksOf(calls), capacity, sink);
    L.HeardExactly(CallbacksOf(calls), capacity, sink);
    L.NothingLostIff(CallbacksOf(calls[..|calls| - 1]), true, capacity, sink);
    OnlyCompleted(calls);
    L.CompletedDropsNothing(CallbacksOf(calls), 0, capacity);
  }

  /** A reply is played as it was sent, however the network cuts it and whatever the sink does. The player is given
      exactly the samples that were sent, in order; if no chunk outruns the speech queue, each with the expression
      of the last sentence finished, and with those that the markers ask for if and only if every sentence comes in
      time. Each sample was written under the expression it was given with or discarded and counted; what was
      written kept its order; and nothing is left behind. What is heard is what the instructions of the reply land;
      it is everything if and only if the sink takes every instruction whole. */
  lemma PlayedAsSent(chunks: seq<Chunk>, blocks: seq<string>, overflow: Overflow, capacity: nat, sink: nat -> P.Deed)
    requires AllSendable(chunks) && capacity > 0
    requires Concat(blocks) == ReplyStream(chunks) && forall k | 0 <= k < |blocks| :: |blocks[k]| <= R.MAX_BLOCK_BYTES
    ensures P.Settled(P.FRESH_PLAYER, capacity)
    ensures
      var fed := FeedAll(StartMachine(overflow), blocks);
      var callbacks := CallbacksOf(fed.1 + FinishInput(fed.0).1);
      var given := P.Given(callbacks, S.Neutral);
      && Sounds(given) == SamplesOf(AllPcm(chunks))
      && (Roomy("", chunks) ==>
            given == Voiced("", chunks) && (given == Wanted("", chunks) <==> Timely("", chunks)))
      && PlaysOut(callbacks, capacity, sink)
  {
    var calls := WholeReply(ReplyStream(chunks), overflow).calls;
    hide FeedAll, FinishInput, WholeReply, ReplyStream, PcmIn, SegmentsIn, M.Sentences, S.Tokens, Concat, Roomy,
         CallbacksOf, P.Given, AllWhole, Sounds, SamplesOf, Voiced, Wanted, Timely, P.Arrivals, P.Settled, PlaysOut,
         Ends;
    AnyCuts(blocks, overflow);
    HeardAsSent(chunks, overflow);
    ReplyWhole(ReplyStream(chunks), overflow);
    AllSounds(calls, S.Neutral);
    if Roomy("", chunks) {
      GivenAsVoiced(chunks, overflow);
      AsWanted("", chunks);
    }
    EndsOnce(ReplyStream(chunks), overflow);
    RunPlaysOut(calls, capacity, sink);
  }

  // --------------------------------------------------------- faces that lag

  /** Speech that finishes no sentence until more is known: one that ends with a dot, for example. */
  predicate Undecided(p: string) {
    p != "" && M.Open(p, SEGMENT_BYTES) && forall k | 0 <= k < |p| :: p[k] != '['
  }

  lemma MarkedTokens(e: S.Expression, p: string, rest: string)
    requires Undecided(p)
    ensures S.Tokens(S.MarkerText(e) + p + rest, false) == [S.Mark(e)] + (S.Chs(p) + S.Tokens(rest, false))
  {
    S.NameLetters(e);
    hide M.Open, S.Tokens, S.Chs, S.ParseExpression;
    S.MarkerFound(S.NameOf(e), p + rest, false);
    S.PlainTokens(p, rest, false);
    assert S.MarkerText(e) + p + rest == "[" + S.NameOf(e) + "]" + (p + rest);
  }

  /** A marker and undecided speech: nothing is finished, although the expression is selected. */
  lemma FirstUndecided(e: S.Expression, p: string)
    requires Undecided(p)
    ensures var text := S.MarkerText(e) + p; M.Finished(text, SEGMENT_BYTES) == [] && V.InForce(text) == e
  {
    MarkedTokens(e, p, "");
    assert S.MarkerText(e) + p + "" == S.MarkerText(e) + p;
    S.NothingTold(false);
    OneMarkEnd(e, p);
    M.SpeechJoin(p, []);
    assert p + M.Speech([]) == p && |S.Chs(p) + []| == |p|;
    hide S.Tokens, M.Open, M.Speech, V.MarkEnd;
    MarkSkipped(e, S.Chs(p) + [], S.Neutral, false);
    assert M.Sentences(S.Chs(p) + [], e, SEGMENT_BYTES, false) == [];
  }

  lemma MarkSkipped(e: S.Expression, rest: seq<S.Token>, before: S.Expression, closed: bool)
    ensures M.Sentences([S.Mark(e)] + rest, before, SEGMENT_BYTES, closed)
         == M.Sentences(rest, e, SEGMENT_BYTES, closed)
  {
    assert ([S.Mark(e)] + rest)[1..] == rest;
  }

  lemma OneMarkEnd(e: S.Expression, p: string)
    ensures V.MarkEnd([S.Mark(e)] + (S.Chs(p) + [])) == 1
  {
    V.ChsKeepMark([S.Mark(e)], p);
    assert [S.Mark(e)] + (S.Chs(p) + []) == [S.Mark(e)] + S.Chs(p);
  }

  /** The tokens of two marked sentences. */
  lemma TwoMarkedTokens(e: S.Expression, p: string, f: S.Expression, q: string)
    requires Undecided(p) && Undecided(q)
    ensures
      S.Tokens(S.MarkerText(e) + p + (S.MarkerText(f) + q), false)
      == [S.Mark(e)] + (S.Chs(p) + ([S.Mark(f)] + (S.Chs(q) + [])))
    ensures S.Tokens(S.MarkerText(f) + q, false) == [S.Mark(f)] + (S.Chs(q) + [])
  {
    MarkedTokens(e, p, S.MarkerText(f) + q);
    MarkedTokens(f, q, "");
    S.NothingTold(false);
    hide *;
    assert S.MarkerText(f) + q + "" == S.MarkerText(f) + q;
  }

  /** The marker of the second sentence finishes the first one. */
  lemma FirstFinished(e: S.Expression, p: string, f: S.Expression, rest: seq<S.Token>)
    requires Undecided(p)
    ensures M.Sentences([S.Mark(e)] + (S.Chs(p) + ([S.Mark(f)] + rest)), S.Neutral, SEGMENT_BYTES, false)
         == [S.Segment(e, p)] + M.Sentences(rest, f, SEGMENT_BYTES, false)
  {
    var tail := [S.Mark(f)] + rest;
    assert M.Speech(tail) == "" && p + M.Speech(tail) == p;
    OpenIsGrowing(p);
    hide *;
    MarkSkipped(e, S.Chs(p) + tail, S.Neutral, false);
    MarkSkipped(f, rest, e, false);
    M.SentenceEnds(p, tail, e, SEGMENT_BYTES, false);
  }

  lemma LastMarkEnd(e: S.Expression, p: string, f: S.Expression, q: string)
    ensures V.Selected([S.Mark(e)] + (S.Chs(p) + ([S.Mark(f)] + (S.Chs(q) + [])))) == f
  {
    var before := [S.Mark(e)] + S.Chs(p) + [S.Mark(f)];
    assert [S.Mark(e)] + (S.Chs(p) + ([S.Mark(f)] + (S.Chs(q) + []))) == before + S.Chs(q);
    V.ChsKeepMark(before, q);
    assert V.MarkEnd(before) == |before|;
    hide S.Chs;
  }

  /** Of two such sentences only the first is finished, although the second expression is selected. */
  lemma SecondUndecided(e: S.Expression, p: string, f: S.Expression, q: string)
    requires Undecided(p) && Undecided(q)
    ensures
      var text := S.MarkerText(e) + p + (S.MarkerText(f) + q);
      M.Finished(text, SEGMENT_BYTES) == [S.Segment(e, p)] && V.InForce(text) == f
  {
    hide Undecided, S.Tokens, S.MarkerText, M.Sentences, V.Selected, S.Chs;
    TwoMarkedTokens(e, p, f, q);
    LastMarkEnd(e, p, f, q);
    FirstFinished(e, p, f, S.Chs(q) + []);
    FirstUndecided(f, q);
    MarkSkipped(f, S.Chs(q) + [], S.Neutral, false);
  }

  lemma OpenIsGrowing(p: string)
    requires Undecided(p)
    ensures M.Growing(p, SEGMENT_BYTES) && |p| < SEGMENT_BYTES && M.Ends(p, |p|)
  {
  }

  /** Two sentences with their sound, each finished only by what follows it: the sound of the first is played under
      the neutral expression and that of the second under the expression of the first, whatever comes after. */
  lemma FacesLag(e: S.Expression, p: string, a: seq<byte>, f: S.Expression, q: string, b: seq<byte>, rest: seq<Chunk>)
    requires Undecided(p) && Undecided(q) && rest != []
    ensures
      var chunks := [Chunk(Some(S.MarkerText(e) + p), a), Chunk(Some(S.MarkerText(f) + q), b)] + rest;
      var text := S.MarkerText(e) + p + (S.MarkerText(f) + q);
      && (Roomy("", chunks) <==> Roomy(text, rest))
      && Voiced("", chunks)
      == P.Arrivals(SamplesOf(a), S.Neutral) + (P.Arrivals(SamplesOf(b), e) + Voiced(text, rest))
      && Wanted("", chunks) == P.Arrivals(SamplesOf(a), e) + (P.Arrivals(SamplesOf(b), f) + Wanted(text, rest))
  {
    hide *;
    var first, second := S.MarkerText(e) + p, S.MarkerText(f) + q;
    var c, d := Chunk(Some(first), a), Chunk(Some(second), b);
    FirstUndecided(e, p);
    SecondUndecided(e, p, f, q);
    NoSentences();
    LoadOf(S.Segment(e, p));
    SaidByFinished(first);
    SaidByFinished(first + second);
    FirstOf("", c, [d] + rest);
    FirstOf(first, d, rest);
    FirstWords(first, a);
    FirstWords(second, b);
    assert "" + first == first;
    assert [c, d] + rest == [c] + ([d] + rest);
    OnlyVoice(S.Segment(e, p));
  }

  lemma FirstWords(words: string, pcm: seq<byte>)
    ensures WordsOf(Chunk(Some(words), pcm)) == words
  {
  }

  lemma OnlyVoice(s: S.Segment)
    ensures V.LastVoice([s], S.Neutral) == s.expression && V.LastVoice([], S.Neutral) == S.Neutral
    ensures |[s]| == 1
  {
  }

  /** One chunk at a time. */
  lemma FirstOf(before: string, c: Chunk, rest: seq<Chunk>)
    requires rest != []
    ensures
      var after := before + WordsOf(c);
      && Voiced(before, [c] + rest)
      == P.Arrivals(SamplesOf(c.pcm), V.LastVoice(SaidBy(after, false), S.Neutral)) + Voiced(after, rest)
      && Wanted(before, [c] + rest) == P.Arrivals(SamplesOf(c.pcm), V.InForce(after)) + Wanted(after, rest)
      && (Roomy(before, [c] + rest) <==>
            && Q.Load(M.Finished(after, SEGMENT_BYTES)) - Q.Load(M.Finished(before, SEGMENT_BYTES))
               <= Q.SPEECH_QUEUE_BYTES
            && Roomy(after, rest))
  {
    hide SaidBy, V.LastVoice, V.InForce, P.Arrivals, SamplesOf, Q.Load, M.Finished;
    assert ([c] + rest)[1..] == rest;
  }

  lemma LoadOf(s: S.Segment)
    requires Undecided(s.text)
    ensures Q.Load([s]) <= Q.SPEECH_QUEUE_BYTES && Q.Load([s]) - Q.Load([]) <= Q.SPEECH_QUEUE_BYTES
    ensures Q.Load([]) - Q.Load([]) <= Q.SPEECH_QUEUE_BYTES
  {
  }

  /** So it is not what the markers ask for. */
  lemma FirstLags(e: S.Expression, p: string, a: seq<byte>, rest: seq<Chunk>)
    requires Undecided(p) && rest != [] && e != S.Neutral && SamplesOf(a) != []
    ensures !Timely("", [Chunk(Some(S.MarkerText(e) + p), a)] + rest)
  {
    var first := S.MarkerText(e) + p;
    var chunks := [Chunk(Some(first), a)] + rest;
    FirstUndecided(e, p);
    hide S.MarkerText, M.Finished, V.InForce, SamplesOf, Undecided, SaidBy, InTime;
    SaidByFinished(first);
    VoiceInTime(first, false);
    assert "" + first == first;
  }

  lemma ShortIsUndecided(p: string)
    requires |p| == 3 && 'A' <= p[0] <= 'Z' && 'a' <= p[1] <= 'z' && p[2] == '.'
    ensures Undecided(p)
  {
    assert !S.TailIsTerminator(p) by {
      assert p[|p| - 3..][2] == '.';
    }
    forall k | 1 <= k < 3 ensures !M.Ends(p, k) {
      assert |p[..k]| < 3 && p[..k][|p[..k]| - 1] == p[k - 1];
    }
    hide M.Ends, S.TailIsTerminator;
  }

  lemma HiAndNo()
    ensures Undecided("Hi.") && Undecided("No.")
  {
    ShortIsUndecided("Hi.");
    ShortIsUndecided("No.");
    hide Undecided;
  }

  lemma HiAndNoMarked()
    ensures S.MarkerText(S.Happy) + "Hi." == "[happy]Hi." && S.MarkerText(S.Sad) + "No." == "[sad]No."
  {
  }

  /** A happy sentence and a sad one, and an event after them. */
  lemma DotsLag(a: seq<byte>, b: seq<byte>, rest: seq<Chunk>)
    requires rest != [] && SamplesOf(a) != []
    ensures
      var chunks := [Chunk(Some("[happy]Hi."), a), Chunk(Some("[sad]No."), b)] + rest;
      var text := "[happy]Hi." + "[sad]No.";
      && Voiced("", chunks)
      == P.Arrivals(SamplesOf(a), S.Neutral) + (P.Arrivals(SamplesOf(b), S.Happy) + Voiced(text, rest))
      && Wanted("", chunks)
      == P.Arrivals(SamplesOf(a), S.Happy) + (P.Arrivals(SamplesOf(b), S.Sad) + Wanted(text, rest))
      && (Roomy("", chunks) <==> Roomy(text, rest)) && !Timely("", chunks)
  {
    hide *;
    HiAndNo();
    HiAndNoMarked();
    FacesLag(S.Happy, "Hi.", a, S.Sad, "No.", b, rest);
    var d := Chunk(Some("[sad]No."), b);
    FirstLags(S.Happy, "Hi.", a, [d] + rest);
    assert [Chunk(Some("[happy]Hi."), a)] + ([d] + rest) == [Chunk(Some("[happy]Hi."), a), d] + rest;
  }

  lemma ReplyWhole(stream: string, overflow: Overflow)
    ensures AllWhole(WholeReply(stream, overflow).calls)
  {
    var r := R.Run(R.FRESH, stream);
    var events := R.DataOf(r.items + R.Finish(r.state).items);
    hide R.Run, R.Finish, R.DataOf, InterpretAll;
    InterpretAllWhole(StartTurn(overflow), events);
    var s := InterpretAll(StartTurn(overflow), events);
    WholeJoin(s.calls, Close(s.turn).calls);
  }
}
