/** A reply as the gateway sends it, and as the listener hears it.

    The gateway prints one audio event for each chunk of a reply, numbered from zero, with the samples in base64
    and the words still holding their markers; then an event that completes the conversation. `HeardAsSent` is
    the promise of the whole pipeline: printer, framing, event reader, envelope checks, sequence numbers, base64
    and segmenter together give the listener exactly the samples that were sent, in order, and, exactly when no
    chunk finishes more sentences than the queue holds, all the sentences of all the words together. */
module ReplyRoundTrip {
  import opened Bytes
  import opened Base64
  import opened JsonGrammar
  import opened JsonLenient
  import opened JsonRead
  import opened JsonRoundTrip
  import opened JsonSize
  import opened JsonObjects
  import opened Protocol
  import opened ConversationSpec
  import F = SseFrames
  import M = SpeechMeaning
  import Q = SpeechQueue
  import R = SseSpec
  import S = SpeechSpec
  import W = JsonWriter

  /** What one audio event carries: words, on the first chunk of a sentence, and samples. */
  datatype Chunk = Chunk(words: Option<string>, pcm: seq<byte>)

  /** What the event buffers hold: whole samples, and words that need no four-digit escape. */
  predicate Sendable(c: Chunk) {
    && |c.pcm| <= PCM_BYTES && |c.pcm| % 2 == 0
    && (c.words.Some? ==> IsPlain(c.words.value) && |c.words.value| <= TEXT_BYTES)
  }

  predicate AllSendable(chunks: seq<Chunk>) {
    && |chunks| <= MAX_INT64
    && forall k | 0 <= k < |chunks| :: Sendable(chunks[k])
  }

  /** After the words `before`, no chunk finishes sentences that cost over 512 bytes of the speech queue: two
      bytes for each sentence, and its length. */
  predicate Roomy(before: string, chunks: seq<Chunk>)
    decreases |chunks|
  {
    chunks != [] ==>
      var after := before + WordsOf(chunks[0]);
      && Q.Load(M.Finished(after, SEGMENT_BYTES)) - Q.Load(M.Finished(before, SEGMENT_BYTES)) <= Q.SPEECH_QUEUE_BYTES
      && Roomy(after, chunks[1..])
  }

  // ------------------------------------------------------------- the sender

  function EventData(name: string, payload: Entries): Data {
    DBox(true, Entry("v", DInt(1), Entry("kind", DText("event"),
                     Entry("name", DText(name), Entry("payload", DBox(true, payload), NoEntries)))))
  }

  function AudioTail(pcm: seq<byte>, last: bool): Entries {
    Entry("pcm", DText(Encode(pcm)), Entry("last", DFlag(last), NoEntries))
  }

  function AudioPayload(n: nat, c: Chunk, last: bool): Entries {
    var tail := AudioTail(c.pcm, last);
    Entry("rate", DInt(AUDIO_RATE), Entry("seq", DInt(n),
          if c.words.Some? then Entry("text", DText(c.words.value), tail) else tail))
  }

  function AudioEvent(n: nat, c: Chunk, last: bool): string {
    Render(EventData("reply.audio", AudioPayload(n, c, last)))
  }

  const END_PAYLOAD: Entries := Entry("reason", DText("completed"), NoEntries)

  function EndEvent(): string { Render(EventData("conversation.finished", END_PAYLOAD)) }

  /** The events of the chunks; the last one is marked. */
  function AudioEvents(n: nat, chunks: seq<Chunk>): seq<string>
    decreases |chunks|
  {
    if chunks == [] then [] else [AudioEvent(n, chunks[0], |chunks| == 1)] + AudioEvents(n + 1, chunks[1..])
  }

  function ReplyStream(chunks: seq<Chunk>): string { F.Frames(AudioEvents(0, chunks) + [EndEvent()]) }

  // --------------------------------------------------- what was sent and heard

  function AllPcm(chunks: seq<Chunk>): seq<byte> {
    if chunks == [] then [] else chunks[0].pcm + AllPcm(chunks[1..])
  }

  function WordsOf(c: Chunk): string { if c.words.Some? then c.words.value else "" }

  function AllWords(chunks: seq<Chunk>): string {
    if chunks == [] then "" else WordsOf(chunks[0]) + AllWords(chunks[1..])
  }

  function PcmIn(calls: seq<Call>): seq<byte> {
    if calls == [] then [] else (if calls[0].OnAudio? then calls[0].pcm else []) + PcmIn(calls[1..])
  }

  function SegmentsIn(calls: seq<Call>): seq<S.Segment> {
    if calls == [] then [] else (if calls[0].OnSentence? then [calls[0].segment] else []) + SegmentsIn(calls[1..])
  }

  lemma InFirst(call: Call, rest: seq<Call>)
    ensures PcmIn([call] + rest) == (if call.OnAudio? then call.pcm else []) + PcmIn(rest)
    ensures SegmentsIn([call] + rest) == (if call.OnSentence? then [call.segment] else []) + SegmentsIn(rest)
  {
    assert ([call] + rest)[1..] == rest;
  }

  lemma {:induction false} InJoin(a: seq<Call>, b: seq<Call>)
    ensures PcmIn(a + b) == PcmIn(a) + PcmIn(b) && SegmentsIn(a + b) == SegmentsIn(a) + SegmentsIn(b)
    decreases |a|
  {
    if a == [] {
      assert a + b == b;
    } else {
      hide PcmIn, SegmentsIn;
      var rest := a[1..];
      assert a == [a[0]] + rest && a + b == [a[0]] + (rest + b);
      InFirst(a[0], rest);
      InFirst(a[0], rest + b);
      InJoin(rest, b);
    }
  }

  lemma {:induction false} InSentences(segments: seq<S.Segment>)
    ensures PcmIn(SentencesOf(segments)) == [] && SegmentsIn(SentencesOf(segments)) == segments
    decreases |segments|
  {
    if segments != [] {
      InSentences(segments[1..]);
      assert SentencesOf(segments)[1..] == SentencesOf(segments[1..]);
    }
  }

  lemma InOne(pcm: seq<byte>)
    ensures PcmIn([OnAudio(pcm)]) == pcm && SegmentsIn([OnAudio(pcm)]) == []
    ensures PcmIn([OnFinished(Completed, NoError)]) == [] && SegmentsIn([OnFinished(Completed, NoError)]) == []
    ensures PcmIn([]) == [] && SegmentsIn([]) == []
  {
    assert [OnAudio(pcm)][1..] == [] && [OnFinished(Completed, NoError)][1..] == [];
  }

  // --------------------------------------------------------- one event arrives

  lemma AlphabetSafe()
    ensures forall v: Six :: IsSafe([CharOf(v)])
    ensures IsSafe("=") && IsSafe("==") && IsSafe("")
  {
  }

  lemma SafeJoin(a: string, b: string)
    requires IsSafe(a) && IsSafe(b)
    ensures IsSafe(a + b)
  {
  }

  lemma EncodeShort(data: seq<byte>)
    requires |data| < 3
    ensures IsSafe(Encode(data)) && |Encode(data)| <= (|data| + 2) / 3 * 4
  {
    AlphabetSafe();
    hide CharOf, IsSafe, S0, S1, S2;
    if |data| > 0 {
      var a, b := [CharOf(S0(data[0]))], [CharOf(S1(data[0], if |data| == 1 then 0 else data[1]))];
      SafeJoin(a, b);
      if |data| == 1 {
        SafeJoin(a + b, "==");
        assert Encode(data) == a + b + "==";
      } else {
        var c := [CharOf(S2(data[1], 0))];
        SafeJoin(a + b, c);
        SafeJoin(a + b + c, "=");
        assert Encode(data) == a + b + c + "=";
      }
    }
  }

  lemma ThreeSafe(x: byte, y: byte, z: byte)
    ensures IsSafe(Encode3(x, y, z))
  {
    AlphabetSafe();
    hide CharOf, IsSafe, S0, S1, S2, S3;
    var a, b, c, d := [CharOf(S0(x))], [CharOf(S1(x, y))], [CharOf(S2(y, z))], [CharOf(S3(z))];
    SafeJoin(a, b);
    SafeJoin(a + b, c);
    SafeJoin(a + b + c, d);
    assert Encode3(x, y, z) == a + b + c + d;
  }

  lemma {:induction false} EncodeSafe(data: seq<byte>)
    ensures IsSafe(Encode(data)) && |Encode(data)| <= (|data| + 2) / 3 * 4
    decreases |data|
  {
    hide IsSafe, Encode3;
    if |data| < 3 {
      EncodeShort(data);
    } else {
      EncodeSafe(data[3..]);
      ThreeSafe(data[0], data[1], data[2]);
      SafeJoin(Encode3(data[0], data[1], data[2]), Encode(data[3..]));
    }
  }

  lemma SafeNames()
    ensures forall name | name in ["v", "kind", "name", "payload", "rate", "seq", "text", "pcm", "last", "reason"] ::
      IsPlain(name) && W.Escape(name) == name
    ensures forall text | text in ["event", "reply.audio", "conversation.finished", "completed"] ::
      W.Escape(text) == text
  {
    hide W.Escape, IsSafe;
    forall name | name in ["v", "kind", "name", "payload", "rate", "seq", "text", "pcm", "last", "reason"]
      ensures IsPlain(name) && W.Escape(name) == name
    {
      SafeName(name);
      EscapeSafe(name);
      SafeIsPlain(name);
    }
    forall text | text in ["event", "reply.audio", "conversation.finished", "completed"]
      ensures W.Escape(text) == text
    {
      SafeText(text);
      EscapeSafe(text);
    }
  }

  lemma SafeName(name: string)
    requires name in ["v", "kind", "name", "payload", "rate", "seq", "text", "pcm", "last", "reason"]
    ensures IsSafe(name)
  {
  }

  lemma SafeText(text: string)
    requires text in ["event", "reply.audio", "conversation.finished", "completed"]
    ensures IsSafe(text)
  {
  }

  lemma EventShape(name: string, payload: Entries)
    requires Printable(DBox(true, payload)) && PrintHeight(DBox(true, payload)) < W.MAX_DEPTH
    ensures Printable(EventData(name, payload)) && PrintHeight(EventData(name, payload)) <= W.MAX_DEPTH
    ensures var es := EventData(name, payload).entries;
      && EntryOf(es, "v") == Some(DInt(1)) && EntryOf(es, "kind") == Some(DText("event"))
      && EntryOf(es, "name") == Some(DText(name)) && EntryOf(es, "payload") == Some(DBox(true, payload))
  {
    hide Printable, PrintableEntries, EntryNames, EntryOf, PrintHeight, EntriesPrintHeight, IsPlain, W.Escape;
    var inner := DBox(true, payload);
    var e2 := Entry("payload", inner, NoEntries);
    var e1 := Entry("name", DText(name), e2);
    var e0 := Entry("kind", DText("event"), e1);
    NoSteps();
    Scalars();
    SafeNames();
    EntryStep("payload", inner, NoEntries);
    EntryStep("name", DText(name), e2);
    EntryStep("kind", DText("event"), e1);
    EntryStep("v", DInt(1), e0);
    var es := Entry("v", DInt(1), e0);
    assert EntryNames(es) == ["v", "kind", "name", "payload"];
    BoxShape(es);
  }

  lemma BraceFirst(name: string, payload: Entries)
    ensures Render(EventData(name, payload)) != "[DONE]"
  {
    hide ConcreteItems, ItemsText;
    assert Render(EventData(name, payload))[0] == '{';
  }

  /** The envelope checks pass and hand on the name and the payload. */
  lemma EventReads(name: string, payload: Entries, overflow: Overflow)
    requires Printable(DBox(true, payload)) && PrintHeight(DBox(true, payload)) < W.MAX_DEPTH
    requires W.Escape(name) == name
    ensures EnvelopeOf(Render(EventData(name, payload)), overflow) == Some(Envelope(name, Render(DBox(true, payload))))
  {
    hide Printable, PrintHeight, Render, EntryOf, IsPlain, W.Escape, FindSpec, Unescape, IntegerOf, RawStringOf,
         ObjectOf;
    EventShape(name, payload);
    SafeNames();
    var es := EventData(name, payload).entries;
    Reads(es, "v", overflow);
    Reads(es, "kind");
    Reads(es, "name");
    Reads(es, "payload");
  }

  lemma AudioShape(n: nat, c: Chunk, last: bool)
    ensures var es := AudioPayload(n, c, last);
      && Printable(DBox(true, es)) && PrintHeight(DBox(true, es)) == 1
      && EntryOf(es, "rate") == Some(DInt(AUDIO_RATE)) && EntryOf(es, "seq") == Some(DInt(n))
      && EntryOf(es, "text") == (if c.words.Some? then Some(DText(c.words.value)) else None)
      && EntryOf(es, "pcm") == Some(DText(Encode(c.pcm))) && EntryOf(es, "last") == Some(DFlag(last))
  {
    hide Printable, PrintableEntries, EntryNames, EntryOf, PrintHeight, EntriesPrintHeight, IsPlain, Encode, W.Escape;
    var pcm := DText(Encode(c.pcm));
    var e3 := Entry("last", DFlag(last), NoEntries);
    var e2 := AudioTail(c.pcm, last);
    var e1 := if c.words.Some? then Entry("text", DText(c.words.value), e2) else e2;
    NoSteps();
    Scalars();
    SafeNames();
    EntryStep("last", DFlag(last), NoEntries);
    EntryStep("pcm", pcm, e3);
    EntryStep("text", DText(WordsOf(c)), e2);
    EntryStep("seq", DInt(n), e1);
    EntryStep("rate", DInt(AUDIO_RATE), Entry("seq", DInt(n), e1));
    var es := AudioPayload(n, c, last);
    assert EntryNames(es)
        == if c.words.Some? then ["rate", "seq", "text", "pcm", "last"] else ["rate", "seq", "pcm", "last"];
    BoxShape(es);
  }

  /** What a printed number is read as. */
  function NumberRead(n: nat, overflow: Overflow): Option<int> {
    if n <= MAX_INT64 then Some(n) else Overflown(W.IntegerText(n), overflow)
  }

  lemma AudioReads(n: nat, c: Chunk, last: bool, overflow: Overflow)
    ensures
      var s := Render(DBox(true, AudioPayload(n, c, last)));
      && IntegerOf(s, "rate", overflow) == Some(AUDIO_RATE) && IntegerOf(s, "seq", overflow) == NumberRead(n, overflow)
      && RawStringOf(s, "text") == (if c.words.Some? then Some(W.Escape(c.words.value)) else None)
      && RawStringOf(s, "pcm") == Some(Encode(c.pcm)) && BoolOf(s, "last") == Some(last)
  {
    hide Printable, PrintHeight, Render, EntryOf, IsPlain, IsSafe, W.Escape, Unescape, IntegerOf, BoolOf,
         AudioPayload, Encode, FindSpec;
    AudioShape(n, c, last);
    SafeNames();
    EncodeSafe(c.pcm);
    EscapeSafe(Encode(c.pcm));
    var es := AudioPayload(n, c, last);
    Reads(es, "rate", overflow);
    Reads(es, "seq", overflow);
    Reads(es, "text");
    Reads(es, "pcm");
    Reads(es, "last");
  }

  /** What a chunk makes the turn do, when its number is the next. */
  function Effect(t: Turn, c: Chunk, last: bool): Reaction {
    var u := t.(expectedSeq := t.expectedSeq + 1);
    var said := if c.words.Some? then Announce(u, S.Run(u.talk, c.words.value, SEGMENT_BYTES)) else Ignored(u);
    var flushed := if last then Announce(said.turn, S.Flush(said.turn.talk, SEGMENT_BYTES)) else Ignored(said.turn);
    Then(said, Then(flushed, Reaction(flushed.turn, if c.pcm == [] then [] else [OnAudio(c.pcm)])))
  }

  /** An audio event whose number reads as the next one. */
  lemma AudioInterpreted(t: Turn, n: nat, c: Chunk, last: bool)
    requires t.outcome == Running && Sendable(c) && NumberRead(n, t.overflow) == Some(t.expectedSeq)
    ensures Interpret(t, AudioEvent(n, c, last)) == Effect(t, c, last)
  {
    hide AudioPayload, Render, RawStringOf, IntegerOf, BoolOf, EnvelopeOf, Encode, W.Escape, Unescaped, PcmOf,
         HandleAudio, Effect, Printable, PrintHeight, EntryOf, Sendable, IsPlain, NumberRead;
    var payload := AudioPayload(n, c, last);
    AudioShape(n, c, last);
    AudioReads(n, c, last, t.overflow);
    SafeNames();
    BraceFirst("reply.audio", payload);
    EventReads("reply.audio", payload, t.overflow);
    WordsDecode(c);
    HandledAudio(t, Render(DBox(true, payload)), c, last);
  }

  /** A number that overflows may be taken for the next one: what it reads as is left open, and 2^64 may read
      as 0. Where it reads as nothing, the turn fails. */
  lemma OverflowIsAccepted(c: Chunk, last: bool)
    requires Sendable(c)
    ensures
      var n := 0x1_0000_0000_0000_0000;
      var wraps, fails := StartTurn(map[W.IntegerText(n) := 0]), StartTurn(map[]);
      && Interpret(wraps, AudioEvent(n, c, last)) == Effect(wraps, c, last)
      && Interpret(fails, AudioEvent(n, c, last)) == Finish(fails, Failed, Internal)
  {
    hide AudioPayload, Render, RawStringOf, IntegerOf, EnvelopeOf, Printable, PrintHeight, EntryOf, HandleNumbered,
         W.IntegerText, Effect, Sendable;
    var n := 0x1_0000_0000_0000_0000;
    AudioInterpreted(StartTurn(map[W.IntegerText(n) := 0]), n, c, last);
    var payload := AudioPayload(n, c, last);
    AudioShape(n, c, last);
    AudioReads(n, c, last, map[]);
    SafeNames();
    BraceFirst("reply.audio", payload);
    EventReads("reply.audio", payload, map[]);
  }

  lemma WordsDecode(c: Chunk)
    requires Sendable(c)
    ensures PcmOf(Encode(c.pcm)) == Some(c.pcm)
    ensures c.words.Some? ==> Unescaped(W.Escape(c.words.value)) == c.words
  {
    hide Encode, Decode, W.Escape, Unescape;
    DecodeEncode(c.pcm);
    if c.words.Some? {
      UnescapeEscape(c.words.value);
    }
  }

  /** A payload with the right members does what its chunk is to do. */
  lemma HandledAudio(t: Turn, s: string, c: Chunk, last: bool)
    requires IntegerOf(s, "rate", t.overflow) == Some(AUDIO_RATE)
    requires IntegerOf(s, "seq", t.overflow) == Some(t.expectedSeq)
    requires RawStringOf(s, "text") == if c.words.Some? then Some(W.Escape(c.words.value)) else None
    requires RawStringOf(s, "pcm") == Some(Encode(c.pcm)) && BoolOf(s, "last") == Some(last)
    requires PcmOf(Encode(c.pcm)) == Some(c.pcm)
    requires c.words.Some? ==> Unescaped(W.Escape(c.words.value)) == c.words
    ensures HandleAudio(t, s) == Effect(t, c, last)
  {
    hide RawStringOf, IntegerOf, BoolOf, Encode, W.Escape, Unescaped, PcmOf, S.Run, S.Flush, Announce;
    NothingFirst(HandleSamples(t.(expectedSeq := t.expectedSeq + 1), s).calls);
  }

  lemma NothingFirst(calls: seq<Call>)
    ensures [] + calls == calls
  {
  }

  lemma EndInterpreted(t: Turn)
    requires t.outcome == Running
    ensures Interpret(t, EndEvent()) == Finish(t, Completed, NoError)
  {
    hide Printable, PrintableEntries, EntryNames, EntryOf, PrintHeight, EntriesPrintHeight, IsPlain, Render,
         RawStringOf,
         EnvelopeOf, W.Escape, FindSpec, Unescape;
    NoSteps();
    Scalars();
    SafeNames();
    EntryStep("reason", DText("completed"), NoEntries);
    assert EntryNames(END_PAYLOAD) == ["reason"];
    BoxShape(END_PAYLOAD);
    BraceFirst("conversation.finished", END_PAYLOAD);
    EventReads("conversation.finished", END_PAYLOAD, t.overflow);
    Reads(END_PAYLOAD, "reason");
  }

  // --------------------------------------------------------- the whole reply

  /** Between chunks: running, with everything so far accepted, and the segmenter where the words left it. */
  predicate Ready(t: Turn, before: string) {
    && t.outcome == Running && t.dropped == 0
    && t.talk == S.Run(S.SILENT, before, SEGMENT_BYTES).state
  }

  lemma {:induction false} RunShort(talk: S.Talk, text: string)
    requires Q.Short(talk, SEGMENT_BYTES)
    ensures Q.Short(S.Run(talk, text, SEGMENT_BYTES).state, SEGMENT_BYTES)
    decreases |text|
  {
    hide S.PutChar, Q.Weight, Q.Load, S.IsPartial;
    if text != "" {
      Q.PutCharWeight(talk, text[0], SEGMENT_BYTES);
      S.StepDue(talk, text, SEGMENT_BYTES, true);
      RunShort(S.PutChar(talk, text[0], SEGMENT_BYTES).state, text[1..]);
    }
  }

  /** What announcing does: every sentence is announced or counted, and all are announced exactly when they fit. */
  lemma Announces(t: Turn, r: S.Result)
    ensures
      var a := Announce(t, r);
      && a.turn == t.(talk := r.state, unspoken := a.turn.unspoken)
      && PcmIn(a.calls) == []
      && |SegmentsIn(a.calls)| + a.turn.unspoken == t.unspoken + |r.segments|
      && a.turn.unspoken >= t.unspoken
      && (a.turn.unspoken == t.unspoken <==> Q.Load(r.segments) <= Q.SPEECH_QUEUE_BYTES)
      && (a.turn.unspoken == t.unspoken ==> SegmentsIn(a.calls) == r.segments)
      && Q.IsPart(SegmentsIn(a.calls), r.segments)
  {
    hide Q.EnqueueAll, SentencesOf, Q.Load, PcmIn, SegmentsIn, Q.IsPart;
    var q := Q.Queue(0, [], t.unspoken);
    var kept := Q.EnqueueAll(q, r.segments).segments;
    assert kept[0..] == kept;
    Q.AllFit(q, r.segments);
    Q.KeptOrCounted(q, r.segments);
    InSentences(Q.EnqueueAll(q, r.segments).segments);
    assert [] + r.segments == r.segments;
  }

  /** A flush always fits. */
  lemma FlushFits(before: string, words: string)
    ensures
      var said := S.Run(S.Run(S.SILENT, before, SEGMENT_BYTES).state, words, SEGMENT_BYTES);
      Q.Load(S.Flush(said.state, SEGMENT_BYTES).segments) <= Q.SPEECH_QUEUE_BYTES
  {
    hide S.Run, S.Flush, Q.Load;
    RunShort(S.SILENT, before);
    RunShort(S.Run(S.SILENT, before, SEGMENT_BYTES).state, words);
    Q.FlushWeight(S.Run(S.Run(S.SILENT, before, SEGMENT_BYTES).state, words, SEGMENT_BYTES).state, SEGMENT_BYTES);
  }

  /** What was announced of the sentences `said` between two turns. */
  predicate Tells(t: Turn, r: Reaction, said: seq<S.Segment>, all: bool) {
    && |SegmentsIn(r.calls)| + r.turn.unspoken == t.unspoken + |said|
    && Q.IsPart(SegmentsIn(r.calls), said)
    && r.turn.unspoken >= t.unspoken
    && (r.turn.unspoken == t.unspoken <==> all)
    && (all ==> SegmentsIn(r.calls) == said)
  }

  /** One chunk: its samples, the sentences its words finish, and, if it is the last, those that a flush does. */
  lemma EffectHeard(t: Turn, before: string, c: Chunk, last: bool)
    requires Ready(t, before)
    ensures
      var r := Effect(t, c, last);
      var said := S.Run(t.talk, WordsOf(c), SEGMENT_BYTES);
      && PcmIn(r.calls) == c.pcm
      && Tells(t, r, said.segments + (if last then S.Flush(said.state, SEGMENT_BYTES).segments else []),
               Q.Load(said.segments) <= Q.SPEECH_QUEUE_BYTES)
      && r.turn.outcome == Running && r.turn.dropped == 0 && r.turn.overflow == t.overflow
      && r.turn.expectedSeq == t.expectedSeq + 1
      && (!last ==> r.turn.talk == said.state)
  {
    hide S.Run, S.Flush, Announce, Q.Short, PcmIn, SegmentsIn, Q.Load, Q.IsPart;
    var u := t.(expectedSeq := t.expectedSeq + 1);
    var said := S.Run(u.talk, WordsOf(c), SEGMENT_BYTES);
    NoWords(u);
    Announces(u, said);
    var first := if c.words.Some? then Announce(u, said) else Ignored(u);
    var v := first.turn;
    var rest := S.Flush(v.talk, SEGMENT_BYTES);
    Announces(v, rest);
    FlushFits(before, WordsOf(c));
    var second := if last then Announce(v, rest) else Ignored(v);
    var third := if c.pcm == [] then [] else [OnAudio(c.pcm)];
    assert Effect(t, c, last).calls == first.calls + (second.calls + third);
    InJoin(first.calls, second.calls + third);
    InJoin(second.calls, third);
    InOne(c.pcm);
    PartsSaid(SegmentsIn(first.calls), said.segments, SegmentsIn(second.calls), if last then rest.segments else []);
  }

  lemma PartsSaid(a: seq<S.Segment>, b: seq<S.Segment>, c: seq<S.Segment>, d: seq<S.Segment>)
    requires Q.IsPart(a, b) && Q.IsPart(c, d)
    ensures Q.IsPart(a + (c + []), b + d)
  {
    Q.PartJoin(a, b, c, d);
    assert a + (c + []) == a + c;
  }

  lemma NoWords(t: Turn)
    ensures S.Run(t.talk, "", SEGMENT_BYTES) == S.Result(t.talk, []) && t.(talk := t.talk) == t
    ensures Q.Load([]) == 0
  {
  }

  lemma TellsBoth(t: Turn, r: Reaction, s: Reaction, a: seq<S.Segment>, b: seq<S.Segment>, x: bool, y: bool)
    requires Tells(t, r, a, x) && Tells(r.turn, s, b, y)
    ensures Tells(t, Then(r, s), a + b, x && y)
  {
    InJoin(r.calls, s.calls);
    Q.PartJoin(SegmentsIn(r.calls), a, SegmentsIn(s.calls), b);
    hide SegmentsIn, PcmIn, Q.IsPart;
  }

  /** Whether the chunk at the front has room, said with the machine. */
  lemma RoomyFirst(before: string, chunks: seq<Chunk>)
    requires chunks != []
    ensures
      var w := WordsOf(chunks[0]);
      var said := S.Run(S.Run(S.SILENT, before, SEGMENT_BYTES).state, w, SEGMENT_BYTES);
      && S.Run(S.SILENT, before + w, SEGMENT_BYTES).state == said.state
      && (Roomy(before, chunks) <==>
            Q.Load(said.segments) <= Q.SPEECH_QUEUE_BYTES && Roomy(before + w, chunks[1..]))
  {
    hide S.Run, Q.Load, M.Finished;
    var w := WordsOf(chunks[0]);
    S.RunAppend(S.SILENT, before, w, SEGMENT_BYTES);
    M.PieceFinishes(before, w, SEGMENT_BYTES);
    Q.LoadAppend(M.Finished(before, SEGMENT_BYTES),
                 S.Run(S.Run(S.SILENT, before, SEGMENT_BYTES).state, w, SEGMENT_BYTES).segments);
  }

  /** The chunks of a reply, and after the last the flush: all samples, and all sentences exactly when there was
      room for those of every chunk. */
  lemma {:induction false} ChunksHeard(t: Turn, before: string, chunks: seq<Chunk>)
    requires Ready(t, before) && chunks != [] && forall k | 0 <= k < |chunks| :: Sendable(chunks[k])
    requires t.expectedSeq + |chunks| <= MAX_INT64
    ensures
      var r := InterpretAll(t, AudioEvents(t.expectedSeq, chunks));
      && PcmIn(r.calls) == AllPcm(chunks)
      && Tells(t, r, S.Said(t.talk, AllWords(chunks), SEGMENT_BYTES, true), Roomy(before, chunks))
      && r.turn.outcome == Running && r.turn.dropped == 0
    decreases |chunks|
  {
    hide Interpret, Effect, AudioEvent, PcmIn, SegmentsIn, S.Run, S.Flush, Sendable, Tells, Roomy, Q.Load, S.Said;
    var c, rest := chunks[0], chunks[1..];
    var last := |chunks| == 1;
    var r := Effect(t, c, last);
    AudioInterpreted(t, t.expectedSeq, c, last);
    EffectHeard(t, before, c, last);
    RoomyFirst(before, chunks);
    SaidIs(t.talk, WordsOf(c));
    AudioEventsFirst(t.expectedSeq, chunks);
    if last {
      LastChunk(r, c, before + WordsOf(c));
    } else {
      ChunksHeard(r.turn, before + WordsOf(c), rest);
      var s := InterpretAll(r.turn, AudioEvents(r.turn.expectedSeq, rest));
      InJoin(r.calls, s.calls);
      SaidOn(t.talk, WordsOf(c), AllWords(rest));
      NoneSaid(S.Run(t.talk, WordsOf(c), SEGMENT_BYTES).segments);
      TellsBoth(t, r, s, S.Run(t.talk, WordsOf(c), SEGMENT_BYTES).segments,
                S.Said(r.turn.talk, AllWords(rest), SEGMENT_BYTES, true),
                Q.Load(S.Run(t.talk, WordsOf(c), SEGMENT_BYTES).segments) <= Q.SPEECH_QUEUE_BYTES,
                Roomy(before + WordsOf(c), rest));
    }
  }

  lemma AudioEventsFirst(n: nat, chunks: seq<Chunk>)
    requires chunks != []
    ensures
      var events := AudioEvents(n, chunks);
      && events != [] && events[0] == AudioEvent(n, chunks[0], |chunks| == 1)
      && events[1..] == AudioEvents(n + 1, chunks[1..])
    ensures AllWords(chunks) == WordsOf(chunks[0]) + AllWords(chunks[1..])
    ensures AllPcm(chunks) == chunks[0].pcm + AllPcm(chunks[1..])
  {
    hide AudioEvent;
  }

  lemma NoneSaid(segments: seq<S.Segment>)
    ensures segments + [] == segments
  {
  }

  lemma LastChunk(r: Reaction, c: Chunk, after: string)
    ensures InterpretAll(r.turn, []) == Ignored(r.turn) && Then(r, Ignored(r.turn)) == r
    ensures AudioEvents(0, []) == []
    ensures AllWords([]) == "" && WordsOf(c) + "" == WordsOf(c) && AllPcm([]) == [] && c.pcm + [] == c.pcm
    ensures Roomy(after, [])
  {
    assert r.calls + [] == r.calls;
  }

  lemma SaidOn(talk: S.Talk, x: string, y: string)
    ensures
      var r := S.Run(talk, x, SEGMENT_BYTES);
      S.Said(talk, x + y, SEGMENT_BYTES, true) == r.segments + S.Said(r.state, y, SEGMENT_BYTES, true)
  {
    hide S.Run, S.Flush, S.Said;
    S.RunAppend(talk, x, y, SEGMENT_BYTES);
    var r := S.Run(talk, x, SEGMENT_BYTES);
    var s := S.Run(r.state, y, SEGMENT_BYTES);
    SaidIs(talk, x + y);
    SaidIs(r.state, y);
    SegmentsJoin(r.segments, s.segments, S.Flush(s.state, SEGMENT_BYTES).segments);
  }

  lemma SaidIs(talk: S.Talk, text: string)
    ensures
      var r := S.Run(talk, text, SEGMENT_BYTES);
      S.Said(talk, text, SEGMENT_BYTES, true) == r.segments + S.Flush(r.state, SEGMENT_BYTES).segments
  {
    hide S.Run, S.Flush;
  }

  lemma SegmentsJoin(a: seq<S.Segment>, b: seq<S.Segment>, c: seq<S.Segment>)
    ensures a + (b + c) == a + b + c
  {
  }

  // --------------------------------------------------------------- it all fits

  lemma OneDigit()
    ensures |W.IntegerText(1)| == 1
  {
  }

  lemma NumberSize(n: nat)
    requires n <= W.MAX_UINT64
    ensures |W.IntegerText(n)| <= 20 && |W.IntegerText(AUDIO_RATE)| <= 20
  {
    W.FitsTwenty(n);
    W.FitsTwenty(AUDIO_RATE);
    hide W.DigitsOf;
  }

  lemma TextSizes(c: Chunk)
    requires Sendable(c)
    ensures |W.Escape(WordsOf(c))| <= 2 * TEXT_BYTES
    ensures |Encode(c.pcm)| <= 5464 && W.Escape(Encode(c.pcm)) == Encode(c.pcm)
  {
    hide W.Escape, Encode, IsSafe;
    EncodeSafe(c.pcm);
    EscapeSafe(Encode(c.pcm));
    EscapeAtMost(WordsOf(c));
  }

  lemma AudioSize(n: nat, c: Chunk, last: bool)
    requires Sendable(c) && n <= MAX_INT64
    ensures |AudioEvent(n, c, last)| <= F.MAX_LINE_DATA
  {
    hide W.Escape, Render, Sendable, EventData, AudioPayload, SizeOf;
    ReplyAudioSafe();
    EventSize("reply.audio", AudioPayload(n, c, last));
    RenderSize(DBox(true, AudioPayload(n, c, last)));
    AudioPayloadSize(n, c, last);
  }

  lemma ReplyAudioSafe()
    ensures W.Escape("reply.audio") == "reply.audio"
  {
    hide IsPlain, W.Escape;
    SafeNames();
  }

  lemma AudioPayloadSize(n: nat, c: Chunk, last: bool)
    requires Sendable(c) && n <= MAX_INT64
    ensures SizeOf(DBox(true, AudioPayload(n, c, last))) <= F.MAX_LINE_DATA - 54
  {
    hide W.Escape, W.IntegerText, Encode, Sendable, IsPlain, SizeOf, EntriesSize;
    var payload := AudioPayload(n, c, last);
    SafeNames();
    BoxSize(payload);
    NumberSize(n);
    TextSizes(c);
    var tail := AudioTail(c.pcm, last);
    var e3 := Entry("last", DFlag(last), NoEntries);
    var e1 := if c.words.Some? then Entry("text", DText(c.words.value), tail) else tail;
    EntrySize("last", DFlag(last), NoEntries);
    EntrySize("pcm", DText(Encode(c.pcm)), e3);
    EntrySize("text", DText(WordsOf(c)), tail);
    EntrySize("seq", DInt(n), e1);
    EntrySize("rate", DInt(AUDIO_RATE), Entry("seq", DInt(n), e1));
  }

  lemma EventSize(name: string, payload: Entries)
    requires W.Escape(name) == name
    ensures |Render(EventData(name, payload))| == 43 + |name| + |Render(DBox(true, payload))|
  {
    hide W.Escape, W.IntegerText, Render, SizeOf, EntriesSize, IsPlain;
    SafeNames();
    OneDigit();
    var inner := DBox(true, payload);
    var e2 := Entry("payload", inner, NoEntries);
    var e1 := Entry("name", DText(name), e2);
    var e0 := Entry("kind", DText("event"), e1);
    RenderSize(EventData(name, payload));
    RenderSize(inner);
    BoxSize(Entry("v", DInt(1), e0));
    EntrySize("payload", inner, NoEntries);
    EntrySize("name", DText(name), e2);
    EntrySize("kind", DText("event"), e1);
    EntrySize("v", DInt(1), e0);
  }

  lemma EndSize()
    ensures |EndEvent()| <= F.MAX_LINE_DATA
  {
    hide W.Escape, Render, SizeOf, EntriesSize;
    SafeNames();
    EventSize("conversation.finished", END_PAYLOAD);
    RenderSize(DBox(true, END_PAYLOAD));
    BoxSize(END_PAYLOAD);
    EntrySize("reason", DText("completed"), NoEntries);
  }

  lemma RawStep(name: string, value: Data, rest: Entries)
    ensures EntriesHaveRaw(Entry(name, value, rest)) <==> HasRaw(value) || EntriesHaveRaw(rest)
    ensures !EntriesHaveRaw(NoEntries)
    ensures forall es :: HasRaw(DBox(true, es)) <==> EntriesHaveRaw(es)
    ensures forall t :: !HasRaw(DText(t))
    ensures forall i :: !HasRaw(DInt(i))
    ensures forall b :: !HasRaw(DFlag(b))
  {
  }

  lemma EventOneLine(name: string, payload: Entries)
    requires !EntriesHaveRaw(payload)
    ensures F.IsOneLine(Render(EventData(name, payload)))
  {
    hide HasRaw, EntriesHaveRaw, Render, F.IsOneLine;
    var inner := DBox(true, payload);
    var e2 := Entry("payload", inner, NoEntries);
    var e1 := Entry("name", DText(name), e2);
    RawStep("payload", inner, NoEntries);
    RawStep("name", DText(name), e2);
    RawStep("kind", DText("event"), e1);
    RawStep("v", DInt(1), Entry("kind", DText("event"), e1));
    OneLine(EventData(name, payload));
  }

  lemma AudioOneLine(n: nat, c: Chunk, last: bool)
    ensures F.IsOneLine(AudioEvent(n, c, last))
  {
    hide HasRaw, EntriesHaveRaw, Render, F.IsOneLine, Encode;
    var tail := AudioTail(c.pcm, last);
    var e1 := if c.words.Some? then Entry("text", DText(c.words.value), tail) else tail;
    RawStep("last", DFlag(last), NoEntries);
    RawStep("pcm", DText(Encode(c.pcm)), Entry("last", DFlag(last), NoEntries));
    RawStep("text", DText(WordsOf(c)), tail);
    RawStep("seq", DInt(n), e1);
    RawStep("rate", DInt(AUDIO_RATE), Entry("seq", DInt(n), e1));
    EventOneLine("reply.audio", AudioPayload(n, c, last));
  }

  lemma EndOneLine()
    ensures F.IsOneLine(EndEvent())
  {
    hide HasRaw, EntriesHaveRaw, Render, F.IsOneLine;
    RawStep("reason", DText("completed"), NoEntries);
    EventOneLine("conversation.finished", END_PAYLOAD);
  }

  lemma OneLine(d: Data)
    requires !HasRaw(d)
    ensures F.IsOneLine(Render(d))
  {
    RenderHasNoControls(d);
    hide Render;
  }

  lemma {:induction false} EventsFit(n: nat, chunks: seq<Chunk>)
    requires n + |chunks| <= MAX_INT64 && forall k | 0 <= k < |chunks| :: Sendable(chunks[k])
    ensures forall k | 0 <= k < |AudioEvents(n, chunks)| ::
      F.IsOneLine(AudioEvents(n, chunks)[k]) && |AudioEvents(n, chunks)[k]| <= F.MAX_LINE_DATA
    decreases |chunks|
  {
    if chunks != [] {
      hide F.IsOneLine, AudioEvent, Sendable;
      var c, last := chunks[0], |chunks| == 1;
      EventsFit(n + 1, chunks[1..]);
      AudioSize(n, c, last);
      AudioOneLine(n, c, last);
    }
  }

  lemma {:induction false} FramesOf(vs: seq<string>)
    ensures R.DataOf(F.EventsOf(vs) + []) == vs
    decreases |vs|
  {
    assert F.EventsOf(vs) + [] == F.EventsOf(vs);
    if vs != [] {
      FramesOf(vs[1..]);
      assert F.EventsOf(vs)[1..] == F.EventsOf(vs[1..]) && F.EventsOf(vs[1..]) + [] == F.EventsOf(vs[1..]);
      assert [vs[0]] + vs[1..] == vs;
    }
  }

  lemma StreamFits(chunks: seq<Chunk>)
    requires AllSendable(chunks)
    ensures F.AllDeliverable(AudioEvents(0, chunks) + [EndEvent()])
  {
    hide F.IsOneLine, EndEvent, AudioEvents, Sendable;
    EventsFit(0, chunks);
    EndSize();
    EndOneLine();
  }

  /** The stream of a reply is heard as its events. */
  lemma StreamHeard(chunks: seq<Chunk>, overflow: Overflow)
    requires AllSendable(chunks)
    ensures
      var s := InterpretAll(StartTurn(overflow), AudioEvents(0, chunks) + [EndEvent()]);
      WholeReply(ReplyStream(chunks), overflow) == Then(s, ConversationSpec.Close(s.turn))
  {
    hide F.AllDeliverable, EndEvent, AudioEvents, InterpretAll, R.Run, R.Finish, F.Frames, R.DataOf, F.EventsOf,
         Sendable;
    StreamFits(chunks);
    F.FramesDelivered(AudioEvents(0, chunks) + [EndEvent()]);
    FramesOf(AudioEvents(0, chunks) + [EndEvent()]);
  }

  /** A reply is heard as it was sent: the samples of all chunks in order and nothing else, no event dropped, and
      one completed end as the last call. Every sentence of all the words together is heard, in its place, or
      counted; all of them are heard if and only if no chunk finishes more than the queue holds. */
  lemma HeardAsSent(chunks: seq<Chunk>, overflow: Overflow)
    requires AllSendable(chunks)
    ensures
      var r := WholeReply(ReplyStream(chunks), overflow);
      var sentences := M.Sentences(S.Tokens(AllWords(chunks)), S.Neutral, SEGMENT_BYTES);
      && PcmIn(r.calls) == AllPcm(chunks)
      && |SegmentsIn(r.calls)| + r.turn.unspoken == |sentences| && Q.IsPart(SegmentsIn(r.calls), sentences)
      && (SegmentsIn(r.calls) == sentences <==> Roomy("", chunks))
      && (r.turn.unspoken == 0 <==> Roomy("", chunks))
      && r.turn.outcome == Completed && r.turn.code == NoError && r.turn.dropped == 0
      && r.calls != [] && r.calls[|r.calls| - 1] == OnFinished(Completed, NoError)
  {
    hide WholeReply, ReplyStream, Interpret, S.Said, PcmIn, SegmentsIn, AudioEvents, EndEvent, M.Sentences, S.Tokens,
         Roomy;
    StreamHeard(chunks, overflow);
    var audio := AudioEvents(0, chunks);
    var s := InterpretAll(StartTurn(overflow), audio);
    InterpretAppend(StartTurn(overflow), audio, [EndEvent()]);
    WordsHeard(chunks, overflow);
    EndInterpreted(s.turn);
    OneEvent(s.turn, EndEvent());
    InJoin(s.calls, [OnFinished(Completed, NoError)]);
    InOne([]);
    NoneSaid(SegmentsIn(s.calls));
    assert WholeReply(ReplyStream(chunks), overflow).calls == s.calls + [OnFinished(Completed, NoError)];
  }

  lemma OneEvent(t: Turn, data: string)
    requires t.outcome == Running && Interpret(t, data).turn.outcome != Running
    ensures InterpretAll(t, [data]) == Interpret(t, data)
  {
    hide Interpret;
    assert [data][1..] == [];
    assert Interpret(t, data).calls + [] == Interpret(t, data).calls;
  }

  lemma WordsHeard(chunks: seq<Chunk>, overflow: Overflow)
    requires AllSendable(chunks)
    ensures
      var r := InterpretAll(StartTurn(overflow), AudioEvents(0, chunks));
      var sentences := M.Sentences(S.Tokens(AllWords(chunks)), S.Neutral, SEGMENT_BYTES);
      && PcmIn(r.calls) == AllPcm(chunks)
      && Tells(StartTurn(overflow), r, sentences, Roomy("", chunks))
      && r.turn.outcome == Running && r.turn.dropped == 0
  {
    hide Interpret, M.Sentences, AudioEvent;
    var t := StartTurn(overflow);
    if chunks == [] {
      NothingSaid();
    } else {
      assert Ready(t, "");
      hide AudioEvents, InterpretAll, S.Tokens, S.Run, S.Flush, PcmIn, SegmentsIn, Tells, Roomy;
      ChunksHeard(t, "", chunks);
      M.SaidIsSentences(AllWords(chunks), SEGMENT_BYTES, true);
    }
  }

  lemma NothingSaid()
    ensures M.Sentences(S.Tokens(""), S.Neutral, SEGMENT_BYTES) == []
  {
    assert S.Tokens("") == [];
  }

  /** And however the network cuts the stream into blocks of at most 8190 bytes. */
  lemma HeardHoweverCut(chunks: seq<Chunk>, blocks: seq<string>, overflow: Overflow)
    requires AllSendable(chunks)
    requires Concat(blocks) == ReplyStream(chunks) && forall k | 0 <= k < |blocks| :: |blocks[k]| <= R.MAX_BLOCK_BYTES
    ensures
      var fed := FeedAll(StartMachine(overflow), blocks);
      var end := FinishInput(fed.0);
      var calls := fed.1 + end.1;
      var sentences := M.Sentences(S.Tokens(AllWords(chunks)), S.Neutral, SEGMENT_BYTES);
      && PcmIn(calls) == AllPcm(chunks)
      && |SegmentsIn(calls)| + end.0.turn.unspoken == |sentences| && Q.IsPart(SegmentsIn(calls), sentences)
      && (SegmentsIn(calls) == sentences <==> Roomy("", chunks))
      && end.0.turn.outcome == Completed && end.0.turn.dropped == 0
      && calls != [] && calls[|calls| - 1] == OnFinished(Completed, NoError)
  {
    hide FeedAll, FinishInput, WholeReply, ReplyStream, PcmIn, SegmentsIn, M.Sentences, S.Tokens, Concat, Roomy;
    AnyCuts(blocks, overflow);
    HeardAsSent(chunks, overflow);
  }

  /** One event is enough to lose a sentence: 171 exclamation marks are well under 512 bytes of words. */
  lemma ShoutsAreLost(overflow: Overflow)
    ensures
      var chunks := [Chunk(Some(Q.Bangs(171)), [])];
      && AllSendable(chunks) && !Roomy("", chunks)
      && WholeReply(ReplyStream(chunks), overflow).turn.unspoken > 0
  {
    hide *;
    ShoutsOverflow();
    HeardAsSent([Chunk(Some(Q.Bangs(171)), [])], overflow);
  }

  lemma ShoutsOverflow()
    ensures var chunks := [Chunk(Some(Q.Bangs(171)), [])]; AllSendable(chunks) && !Roomy("", chunks)
  {
    hide S.Run, Q.Load, Roomy;
    var bangs := Q.Bangs(171);
    assert IsPlain(bangs);
    Q.BangsAreSentences(171, SEGMENT_BYTES);
    RoomyFirst("", [Chunk(Some(bangs), [])]);
    RunNothing();
  }

  lemma RunNothing()
    ensures S.Run(S.SILENT, "", SEGMENT_BYTES).state == S.SILENT
  {
  }
}
