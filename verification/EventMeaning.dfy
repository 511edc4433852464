/** What every event of the interface does to a turn, and how a turn ends.

    `Printed` is an event as the gateway prints it, with any member of its payload absent, or present with any value
    of its type. The lemmas say what the turn makes of it without naming the steps that `Interpret` takes;
    `EndsAs` and `ClosesAs` say with what outcome and what code a sequence of events ends. */
module EventMeaning {
  import opened Bytes
  import opened Base64
  import opened JsonGrammar
  import opened JsonLookup
  import opened JsonLenient
  import opened JsonRead
  import opened JsonRoundTrip
  import opened JsonSize
  import opened JsonObjects
  import opened JsonMeaning
  import opened Protocol
  import opened Envelope
  import opened ConversationSpec
  import opened ReplyRoundTrip
  import Q = SpeechQueue
  import S = SpeechSpec
  import W = JsonWriter

  // ------------------------------------------------------------ the events

  datatype Event =
    | Recognized(text: Option<string>, final: Option<bool>)
    | Sound(rate: int, number: int, words: Option<string>, pcm: Option<string>, last: Option<bool>)
    | Ended(reason: Option<string>)
    | Raised(code: Option<string>)
    | Other(name: string, payload: Entries)
    | Foreign(data: string)

  function Text(value: Option<string>): Option<Data> { if value.Some? then Some(DText(value.value)) else None }

  function Flag(value: Option<bool>): Option<Data> { if value.Some? then Some(DFlag(value.value)) else None }

  function Field(name: string, value: Option<Data>, rest: Entries): Entries {
    if value.Some? then Entry(name, value.value, rest) else rest
  }

  function NameIn(e: Event): string {
    match e
    case Recognized(_, _) => "conversation.text"
    case Sound(_, _, _, _, _) => "reply.audio"
    case Ended(_) => "conversation.finished"
    case Raised(_) => "error.raised"
    case Other(name, _) => name
    case Foreign(_) => ""
  }

  function PayloadIn(e: Event): Entries {
    match e
    case Recognized(text, final) => Field("text", Text(text), Field("final", Flag(final), NoEntries))
    case Sound(rate, number, words, pcm, last) =>
      Entry("rate", DInt(rate), Entry("seq", DInt(number),
            Field("text", Text(words), Field("pcm", Text(pcm), Field("last", Flag(last), NoEntries)))))
    case Ended(reason) => Field("reason", Text(reason), NoEntries)
    case Raised(code) => Field("code", Text(code), NoEntries)
    case Other(_, payload) => payload
    case Foreign(_) => NoEntries
  }

  function Printed(e: Event): string {
    if e.Foreign? then e.data else Render(EventData(NameIn(e), PayloadIn(e)))
  }

  predicate IsKnown(name: string) {
    name == "reply.audio" || name == "conversation.text" || name == "conversation.finished" || name == "error.raised"
  }

  /** Numbers of 64 bits; names that are no event of the interface; texts that are no event at all. */
  predicate IsEvent(e: Event, overflow: Overflow) {
    match e
    case Sound(rate, number, _, _, _) => -MAX_INT64 <= rate <= MAX_INT64 && -MAX_INT64 <= number <= MAX_INT64
    case Other(name, payload) =>
      !IsKnown(name) && IsSafe(name) && Printable(DBox(true, payload)) && PrintHeight(DBox(true, payload)) < W.MAX_DEPTH
    case Foreign(data) => data == "[DONE]" || EnvelopeOf(data, overflow).None?
    case _ => true
  }

  // ----------------------------------------------------------- the envelope

  /** A document is taken for an event if and only if its version is 1, its kind is "event", and it has a name and an
      object for a payload. */
  lemma EnvelopeIs(data: string, overflow: Overflow)
    requires ParseDocument(data).Done?
    ensures
      var items := ParseDocument(data).tree.items;
      var v, name, payload := MemberOf(items, "v"), MemberOf(items, "name"), MemberOf(items, "payload");
      EnvelopeOf(data, overflow)
      == if && v.Some? && v.value.Num? && ReadIn(NumberText(v.value.number), overflow) == Some(1)
            && MemberOf(items, "kind") == Some(Str("event"))
            && name.Some? && name.value.Str? && payload.Some? && payload.value.Box? && payload.value.isObject
         then Some(Envelope(name.value.raw, ValueText(payload.value))) else None
  {
    hide ParseDocument, MemberOf, ReadIn, NumberText, ValueText, RawStringOf, IntegerOf, ObjectOf, BoolOf;
    DocumentReads(data, "v", overflow);
    DocumentReads(data, "kind", overflow);
    DocumentReads(data, "name", overflow);
    DocumentReads(data, "payload", overflow);
  }

  // ----------------------------------------------------- members read back

  lemma FieldStep(name: string, value: Option<Data>, rest: Entries)
    ensures var es := Field(name, value, rest);
      && EntryNames(es) == (if value.Some? then [name] else []) + EntryNames(rest)
      && PrintableEntries(es) == ((value.Some? ==> Printable(value.value)) && PrintableEntries(rest))
      && EntriesPrintHeight(es)
         == Max(if value.Some? then PrintHeight(value.value) else 0, EntriesPrintHeight(rest))
      && forall key :: EntryOf(es, key) == if name == key && value.Some? then value else EntryOf(rest, key)
  {
    hide Printable, PrintHeight, EntryOf;
    if value.Some? {
      EntryStep(name, value.value, rest);
    }
  }

  lemma OptionalScalars(text: Option<string>, flag: Option<bool>)
    ensures Text(text).Some? ==> Printable(Text(text).value) && PrintHeight(Text(text).value) == 0
    ensures Flag(flag).Some? ==> Printable(Flag(flag).value) && PrintHeight(Flag(flag).value) == 0
  {
  }

  lemma Plain(name: string)
    requires name in ["rate", "seq", "text", "pcm", "last", "final", "reason", "code"]
    ensures IsPlain(name) && W.Escape(name) == name
  {
    hide W.Escape, IsPlain;
    PlainLetters(name);
    SafeIsPlain(name);
    EscapeSafe(name);
  }

  lemma PlainLetters(name: string)
    requires name in ["rate", "seq", "text", "pcm", "last", "final", "reason", "code"]
    ensures IsSafe(name)
  {
  }

  lemma KnownSafe(name: string)
    requires IsKnown(name)
    ensures IsSafe(name)
  {
  }

  /** The payload of an event of one or two members that may be absent. */
  lemma ShortShape(first: string, a: Option<Data>, second: string, b: Option<Data>)
    requires first in ["text", "reason", "code"] && second == "final"
    requires a.Some? ==> Printable(a.value) && PrintHeight(a.value) == 0
    requires b.Some? ==> Printable(b.value) && PrintHeight(b.value) == 0
    ensures var es := Field(first, a, Field(second, b, NoEntries));
      && Printable(DBox(true, es)) && PrintHeight(DBox(true, es)) == 1
      && EntryOf(es, first) == a && EntryOf(es, second) == b
  {
    hide Field, Printable, PrintableEntries, EntryNames, EntryOf, PrintHeight, EntriesPrintHeight, IsPlain, W.Escape;
    NoSteps();
    Plain(first);
    Plain(second);
    FieldStep(second, b, NoEntries);
    FieldStep(first, a, Field(second, b, NoEntries));
    BoxShape(Field(first, a, Field(second, b, NoEntries)));
  }

  lemma SoundShape(rate: int, number: int, words: Option<string>, pcm: Option<string>, last: Option<bool>)
    ensures var es := PayloadIn(Sound(rate, number, words, pcm, last));
      && Printable(DBox(true, es)) && PrintHeight(DBox(true, es)) == 1
      && EntryOf(es, "rate") == Some(DInt(rate)) && EntryOf(es, "seq") == Some(DInt(number))
      && EntryOf(es, "text") == Text(words) && EntryOf(es, "pcm") == Text(pcm) && EntryOf(es, "last") == Flag(last)
  {
    hide Field, Text, Flag, Printable, PrintableEntries, EntryNames, EntryOf, PrintHeight, EntriesPrintHeight, IsPlain,
         W.Escape;
    NoSteps();
    Scalars();
    OptionalScalars(words, last);
    OptionalScalars(pcm, last);
    Plain("rate");
    Plain("seq");
    Plain("text");
    Plain("pcm");
    Plain("last");
    var e3 := Field("last", Flag(last), NoEntries);
    var e2 := Field("pcm", Text(pcm), e3);
    var e1 := Field("text", Text(words), e2);
    var e0 := Entry("seq", DInt(number), e1);
    FieldStep("last", Flag(last), NoEntries);
    FieldStep("pcm", Text(pcm), e3);
    FieldStep("text", Text(words), e2);
    EntryStep("seq", DInt(number), e1);
    EntryStep("rate", DInt(rate), e0);
    BoxShape(Entry("rate", DInt(rate), e0));
  }

  /** What the readers see of a member that is a text, a flag, or not there. */
  lemma FieldReads(es: Entries, name: string, text: Option<string>, flag: Option<bool>)
    requires Printable(DBox(true, es)) && PrintHeight(DBox(true, es)) <= W.MAX_DEPTH
    requires IsPlain(name) && W.Escape(name) == name
    ensures var s := Render(DBox(true, es));
      && (EntryOf(es, name) == Text(text) ==>
            RawStringOf(s, name) == if text.Some? then Some(W.Escape(text.value)) else None)
      && (EntryOf(es, name) == Flag(flag) ==> BoolOf(s, name) == flag)
  {
    hide W.Escape, IsPlain, Printable, PrintHeight, Render, EntryOf, FindSpec;
    Reads(es, name);
  }

  /** The envelope of a printed event passes the checks. */
  lemma PrintedReads(e: Event, overflow: Overflow)
    requires IsEvent(e, overflow) && !e.Foreign?
    requires Printable(DBox(true, PayloadIn(e))) && PrintHeight(DBox(true, PayloadIn(e))) < W.MAX_DEPTH
    ensures Printed(e) != "[DONE]"
    ensures EnvelopeOf(Printed(e), overflow) == Some(Envelope(NameIn(e), Render(DBox(true, PayloadIn(e)))))
  {
    hide PayloadIn, IsSafe, W.Escape, Render, EventData, Printable, PrintHeight, EnvelopeOf;
    if IsKnown(NameIn(e)) {
      KnownSafe(NameIn(e));
    }
    EscapeSafe(NameIn(e));
    BraceFirst(NameIn(e), PayloadIn(e));
    EventReads(NameIn(e), PayloadIn(e), overflow);
  }

  // ------------------------------------------------------- what they mean

  /** A text that the event buffers can take. */
  predicate Legal(text: string) { IsPlain(text) && |text| <= 512 }

  lemma LegalReads(text: string)
    ensures Unescaped(W.Escape(text)) == if Legal(text) then Some(text) else None
  {
    hide Unescape, W.Escape, IsPlain;
    UnescapeEscape(text);
  }

  /** Recognised speech is passed on as it stands, and as settled unless it says that it is not; without a text that
      the buffer can take, the event is counted and dropped. */
  lemma RecognizedMeans(t: Turn, text: Option<string>, final: Option<bool>)
    requires t.outcome == Running
    ensures
      var r := Interpret(t, Printed(Recognized(text, final)));
      if text.Some? && Legal(text.value) then r.turn == t && r.calls == [OnRecognized(text.value, final != Some(false))]
      else r.turn == t.(dropped := t.dropped + 1) && r.calls == []
  {
    hide Printed, PayloadIn, Text, Flag, Printable, PrintHeight, EntryOf, Render, EnvelopeOf, RawStringOf, BoolOf,
         W.Escape, IsPlain, Unescaped, Legal;
    var e := Recognized(text, final);
    RecognizedShape(text, final);
    PrintedReads(e, t.overflow);
    Plain("text");
    Plain("final");
    FieldReads(PayloadIn(e), "text", text, None);
    FieldReads(PayloadIn(e), "final", None, final);
    if text.Some? {
      LegalReads(text.value);
    }
  }

  lemma RecognizedShape(text: Option<string>, final: Option<bool>)
    ensures var es := PayloadIn(Recognized(text, final));
      && Printable(DBox(true, es)) && PrintHeight(DBox(true, es)) == 1
      && EntryOf(es, "text") == Text(text) && EntryOf(es, "final") == Flag(final)
  {
    hide Field, Text, Flag, Printable, PrintHeight, EntryOf;
    OptionalScalars(text, final);
    ShortShape("text", Text(text), "final", Flag(final));
  }

  lemma OneShape(name: string, text: Option<string>)
    requires name in ["text", "reason", "code"]
    ensures var es := Field(name, Text(text), NoEntries);
      && Printable(DBox(true, es)) && PrintHeight(DBox(true, es)) == 1 && EntryOf(es, name) == Text(text)
  {
    hide Text, Printable, PrintHeight, EntryOf;
    OptionalScalars(text, None);
    ShortShape(name, Text(text), "final", None);
  }

  /** A printed text is one of the known words only if it is that word. */
  lemma {:induction false} EscapeIsWord(text: string, word: string)
    requires IsSafe(word)
    ensures W.Escape(text) == word <==> text == word
    decreases |text|
  {
    if text == word {
      EscapeSafe(word);
    }
    if text != "" && W.Escape(text) == word {
      hide W.EscapeOf, IsSafe;
      EscapeStarts(text[0]);
      SafeTail(word);
      assert W.Escape(text)[0] == W.EscapeOf(text[0])[0];
      assert word[1..] == W.Escape(text[1..]);
      EscapeIsWord(text[1..], word[1..]);
      assert text == [text[0]] + text[1..] && word == [word[0]] + word[1..];
    }
  }

  lemma EscapeStarts(c: char)
    ensures W.EscapeOf(c) != "" && (W.EscapeOf(c) == [c] || W.EscapeOf(c)[0] == '\\')
  {
  }

  lemma SafeTail(word: string)
    requires IsSafe(word)
    ensures word != "" ==> word[0] != '\\' && IsSafe(word[1..])
  {
  }

  lemma ReasonWords(reason: string)
    ensures W.Escape(reason) == "completed" <==> reason == "completed"
    ensures W.Escape(reason) == "cancelled" <==> reason == "cancelled"
  {
    hide W.Escape;
    EscapeIsWord(reason, "completed");
    EscapeIsWord(reason, "cancelled");
  }

  /** The gateway ends the turn: completed or cancelled if it says exactly so, and without an error; for any other
      reason the turn has failed, with the code reported before, or an internal error. Without a reason the event is
      counted and dropped. */
  lemma EndedMeans(t: Turn, reason: Option<string>)
    requires t.outcome == Running
    ensures
      var r := Interpret(t, Printed(Ended(reason)));
      if reason.None? then r.turn == t.(dropped := t.dropped + 1) && r.calls == []
      else
        && r.turn == t.(outcome := r.turn.outcome, code := r.turn.code)
        && r.calls == [OnFinished(r.turn.outcome, r.turn.code)]
        && (r.turn.outcome == Completed <==> reason.value == "completed")
        && (r.turn.outcome == Cancelled <==> reason.value == "cancelled")
        && (r.turn.outcome == Failed <==> reason.value != "completed" && reason.value != "cancelled")
        && r.turn.code == if r.turn.outcome != Failed then NoError
                          else if t.reported != NoError then t.reported else Internal
  {
    hide Printed, Printable, PrintHeight, EntryOf, Render, EnvelopeOf, RawStringOf, W.Escape, Text, Field;
    var e := Ended(reason);
    OneShape("reason", reason);
    PrintedReads(e, t.overflow);
    Plain("reason");
    FieldReads(PayloadIn(e), "reason", reason, None);
    if reason.Some? {
      ReasonWords(reason.value);
    }
  }

  /** An error is kept by its name, and as an internal one without a known name; nobody is told of it yet. */
  lemma RaisedMeans(t: Turn, code: Option<string>)
    requires t.outcome == Running
    ensures
      var r := Interpret(t, Printed(Raised(code)));
      && r.calls == [] && r.turn == t.(reported := r.turn.reported)
      && (if exists c :: code == Some(CodeName(c)) then code == Some(CodeName(r.turn.reported))
          else r.turn.reported == Internal)
  {
    hide Printed, Printable, PrintHeight, EntryOf, Render, EnvelopeOf, RawStringOf, W.Escape, Text, Field, CodeName,
         ParseErrorCode;
    var e := Raised(code);
    OneShape("code", code);
    PrintedReads(e, t.overflow);
    Plain("code");
    FieldReads(PayloadIn(e), "code", code, None);
    if code.Some? {
      CodeWords(code.value);
    }
  }

  lemma CodeWords(text: string)
    ensures ParseErrorCode(W.Escape(text)).Some? <==> exists c :: text == CodeName(c)
    ensures ParseErrorCode(W.Escape(text)).Some? ==> CodeName(ParseErrorCode(W.Escape(text)).value) == text
  {
    hide W.Escape, CodeName, ParseErrorCode, IsSafe;
    forall c: ErrorCode ensures ParseErrorCode(W.Escape(text)) == Some(c) <==> text == CodeName(c) {
      NamesReadBack(c, W.Escape(text));
      CodeNameSafe(c);
      EscapeIsWord(text, CodeName(c));
    }
  }

  /** Events that are not known, and texts that are no events, make no difference but for the count of the dropped. */
  lemma OthersMean(t: Turn, e: Event)
    requires t.outcome == Running && IsEvent(e, t.overflow) && (e.Other? || e.Foreign?)
    ensures
      var r := Interpret(t, Printed(e));
      r.calls == [] && r.turn == t.(dropped := t.dropped + if e.Foreign? && e.data != "[DONE]" then 1 else 0)
  {
    hide Printable, PrintHeight, Render, EnvelopeOf, IsSafe;
    if e.Other? {
      PrintedReads(e, t.overflow);
    }
  }

  // --------------------------------------------------------------- sound

  /** Whole 16-bit samples in base64, at most 4096 bytes of them. */
  predicate IsSound(text: string) {
    Decode(text).Some? && |Decode(text).value| <= 4096 && |Decode(text).value| % 2 == 0
  }

  lemma {:induction false} SafeIfEscaped(text: string)
    requires IsSafe(W.Escape(text))
    ensures IsSafe(text)
    decreases |text|
  {
    if text != "" {
      var head, tail := W.EscapeOf(text[0]), W.Escape(text[1..]);
      EscapeStarts(text[0]);
      assert head[0] == W.Escape(text)[0];
      SafeParts(head, tail);
      SafeIfEscaped(text[1..]);
      SafeJoin([text[0]], text[1..]);
      assert [text[0]] + text[1..] == text;
    }
  }

  lemma SafeParts(a: string, b: string)
    requires IsSafe(a + b)
    ensures IsSafe(a) && IsSafe(b)
  {
    assert forall k | 0 <= k < |a| :: a[k] == (a + b)[k];
    assert forall k | 0 <= k < |b| :: b[k] == (a + b)[|a| + k];
  }

  lemma AlphabetIsSafe(text: string)
    requires IsBase64(text)
    ensures IsSafe(text)
  {
  }

  lemma SoundReads(text: string)
    ensures PcmOf(W.Escape(text)) == if IsSound(text) then Decode(text) else None
  {
    hide W.Escape, IsBase64, IsSafe, Decode;
    AcceptsExactly(text);
    AcceptsExactly(W.Escape(text));
    if IsBase64(text) {
      AlphabetIsSafe(text);
      EscapeSafe(text);
    }
    if IsBase64(W.Escape(text)) {
      AlphabetIsSafe(W.Escape(text));
      SafeIfEscaped(text);
      EscapeSafe(text);
    }
  }

  /** Every sentence that the words finish is announced, in order, or counted as unspoken. */
  predicate Announced(before: nat, r: Reaction, said: seq<S.Segment>) {
    |SegmentsIn(r.calls)| + r.turn.unspoken == before + |said| && Q.IsPart(SegmentsIn(r.calls), said)
  }

  /** What the samples of an accepted event do: they are played, after the last sentence if the reply ends here; if
      they are not there the event is counted, and if they are not whole the turn fails. */
  predicate Sounded(t: Turn, r: Reaction, pcm: Option<string>, last: bool) {
    var sound := pcm.Some? && IsSound(pcm.value);
    var rest := if sound && last then S.Flush(t.talk, 60) else S.Result(t.talk, []);
    && Announced(t.unspoken, r, rest.segments)
    && PcmIn(r.calls) == (if sound then Decode(pcm.value).value else [])
    && (sound && Decode(pcm.value).value != [] ==>
          r.calls != [] && r.calls[|r.calls| - 1] == OnAudio(Decode(pcm.value).value))
    && (if pcm.Some? && !sound
        then r.calls == [OnFinished(Failed, Internal)] && r.turn == t.(outcome := Failed, code := Internal)
        else r.turn == t.(talk := rest.state, unspoken := r.turn.unspoken,
                          dropped := t.dropped + if pcm.None? then 1 else 0))
  }

  lemma SamplesMean(t: Turn, payload: string, pcm: Option<string>, last: Option<bool>)
    requires t.outcome == Running
    requires RawStringOf(payload, "pcm") == if pcm.Some? then Some(W.Escape(pcm.value)) else None
    requires BoolOf(payload, "last") == last
    ensures Sounded(t, HandleSamples(t, payload), pcm, last == Some(true))
  {
    hide RawStringOf, BoolOf, W.Escape, PcmOf, S.Flush, Announce, PcmIn, SegmentsIn, Q.IsPart, Decode;
    NoSound();
    NonePart();
    if pcm.Some? {
      SoundReads(pcm.value);
      if IsSound(pcm.value) {
        SoundPlays(t, Decode(pcm.value).value, last == Some(true));
      }
    }
  }

  lemma NoSound()
    ensures PcmIn([]) == [] && SegmentsIn([]) == []
    ensures PcmIn([OnFinished(Failed, Internal)]) == [] && SegmentsIn([OnFinished(Failed, Internal)]) == []
  {
    assert [OnFinished(Failed, Internal)][1..] == [];
  }

  lemma NonePart()
    ensures Q.IsPart([], [])
  {
  }

  lemma SoundPlays(t: Turn, pcm: seq<byte>, flush: bool)
    ensures
      var a := if flush then Announce(t, S.Flush(t.talk, SEGMENT_BYTES)) else Ignored(t);
      var r := Then(a, Reaction(a.turn, if pcm == [] then [] else [OnAudio(pcm)]));
      var rest := if flush then S.Flush(t.talk, SEGMENT_BYTES) else S.Result(t.talk, []);
      && Announced(t.unspoken, r, rest.segments) && PcmIn(r.calls) == pcm
      && (pcm != [] ==> r.calls != [] && r.calls[|r.calls| - 1] == OnAudio(pcm))
      && r.turn == t.(talk := rest.state, unspoken := r.turn.unspoken)
  {
    hide S.Flush, Announce, PcmIn, SegmentsIn, Q.IsPart;
    NoSound();
    NonePart();
    InOne(pcm);
    var a := if flush then Announce(t, S.Flush(t.talk, SEGMENT_BYTES)) else Ignored(t);
    if flush {
      Announces(t, S.Flush(t.talk, SEGMENT_BYTES));
    }
    var sound := if pcm == [] then [] else [OnAudio(pcm)];
    InJoin(a.calls, sound);
    assert [] + pcm == pcm && SegmentsIn(a.calls) + [] == SegmentsIn(a.calls);
  }

  /** An audio event is played if its rate is 16000 and its number the next: its words are said first, then its samples
      are sounded. At another rate, or with words that the buffer cannot take, it is counted and dropped; another
      number fails the turn. */
  lemma SoundMeans(t: Turn, e: Event)
    requires t.outcome == Running && e.Sound? && IsEvent(e, t.overflow)
    ensures
      var r := Interpret(t, Printed(e));
      var next := t.(expectedSeq := t.expectedSeq + 1);
      if e.rate != 16000 then r == Reaction(t.(dropped := t.dropped + 1), [])
      else if e.number != t.expectedSeq then
        r == Reaction(t.(outcome := Failed, code := Internal), [OnFinished(Failed, Internal)])
      else if e.words.Some? && !Legal(e.words.value) then r == Reaction(next.(dropped := t.dropped + 1), [])
      else
        var heard := if e.words.Some? then S.Run(t.talk, e.words.value, 60) else S.Result(t.talk, []);
        exists said: Reaction, sounded: Reaction ::
          && r == Then(said, sounded)
          && said.turn == next.(talk := heard.state, unspoken := said.turn.unspoken)
          && Announced(t.unspoken, said, heard.segments) && PcmIn(said.calls) == [] && Ends(said.calls) == 0
          && Sounded(said.turn, sounded, e.pcm, e.last == Some(true))
  {
    hide PayloadIn, Text, Flag, Printable, PrintHeight, EntryOf, Render, EnvelopeOf, RawStringOf, BoolOf, IntegerOf,
         W.Escape, IsPlain, Unescaped, Legal, HandleSamples, Announce, Announced, Sounded, S.Run, PcmIn, Ends, Printed;
    SoundShape(e.rate, e.number, e.words, e.pcm, e.last);
    PrintedReads(e, t.overflow);
    var payload := Render(DBox(true, PayloadIn(e)));
    SoundMembers(e, t.overflow);
    if e.words.Some? {
      LegalReads(e.words.value);
    }
    var u := t.(expectedSeq := t.expectedSeq + 1);
    if e.rate == 16000 && e.number == t.expectedSeq && (e.words.Some? ==> Legal(e.words.value)) {
      SaidFirst(u, e.words);
      var heard := if e.words.Some? then S.Run(t.talk, e.words.value, 60) else S.Result(t.talk, []);
      var said := if e.words.Some? then Announce(u, heard) else Ignored(u);
      SamplesMean(said.turn, payload, e.pcm, e.last);
      NothingFirst(HandleSamples(u, payload).calls);
      assert Interpret(t, Printed(e)) == Then(said, HandleSamples(said.turn, payload));
    }
  }

  lemma SaidFirst(t: Turn, words: Option<string>)
    ensures
      var heard := if words.Some? then S.Run(t.talk, words.value, SEGMENT_BYTES) else S.Result(t.talk, []);
      var said := if words.Some? then Announce(t, heard) else Ignored(t);
      && said.turn == t.(talk := heard.state, unspoken := said.turn.unspoken)
      && Announced(t.unspoken, said, heard.segments) && PcmIn(said.calls) == [] && Ends(said.calls) == 0
  {
    hide S.Run, Announce, PcmIn, SegmentsIn, Q.IsPart;
    NoSound();
    NonePart();
    if words.Some? {
      Announces(t, S.Run(t.talk, words.value, SEGMENT_BYTES));
      AnnounceHonest(t, S.Run(t.talk, words.value, SEGMENT_BYTES));
    }
  }

  lemma SoundMembers(e: Event, overflow: Overflow)
    requires e.Sound? && IsEvent(e, overflow)
    requires Printable(DBox(true, PayloadIn(e))) && PrintHeight(DBox(true, PayloadIn(e))) == 1
    requires var es := PayloadIn(e);
      && EntryOf(es, "rate") == Some(DInt(e.rate)) && EntryOf(es, "seq") == Some(DInt(e.number))
      && EntryOf(es, "text") == Text(e.words) && EntryOf(es, "pcm") == Text(e.pcm)
      && EntryOf(es, "last") == Flag(e.last)
    ensures var s := Render(DBox(true, PayloadIn(e)));
      && IntegerOf(s, "rate", overflow) == Some(e.rate) && IntegerOf(s, "seq", overflow) == Some(e.number)
      && RawStringOf(s, "text") == (if e.words.Some? then Some(W.Escape(e.words.value)) else None)
      && RawStringOf(s, "pcm") == (if e.pcm.Some? then Some(W.Escape(e.pcm.value)) else None)
      && BoolOf(s, "last") == e.last
  {
    hide PayloadIn, Text, Flag, Printable, PrintHeight, EntryOf, Render, RawStringOf, BoolOf, IntegerOf, W.Escape,
         IsPlain, FindSpec;
    var es := PayloadIn(e);
    Plain("rate");
    Plain("seq");
    Plain("text");
    Plain("pcm");
    Plain("last");
    Reads(es, "rate", overflow);
    Reads(es, "seq", overflow);
    FieldReads(es, "text", e.words, None);
    FieldReads(es, "pcm", e.pcm, None);
    FieldReads(es, "last", None, e.last);
  }

  // -------------------------------------------------------- a whole reply

  function AllPrinted(events: seq<Event>): seq<string> {
    if events == [] then [] else [Printed(events[0])] + AllPrinted(events[1..])
  }

  predicate AllEvents(events: seq<Event>, overflow: Overflow) {
    forall k | 0 <= k < |events| :: IsEvent(events[k], overflow)
  }

  /** The code that the last error of the events carries, if any error was raised. */
  function LastRaised(events: seq<Event>, before: Option<Option<string>>): Option<Option<string>> {
    if events == [] then before
    else LastRaised(events[1..], if events[0].Raised? then Some(events[0].code) else before)
  }

  /** The code of a turn that fails: the one whose name was raised last, and an internal error if no error was raised,
      if the last one had no name that is known, or if its name was that of no error. */
  predicate FailsAs(raised: Option<Option<string>>, code: ErrorCode) {
    if exists c :: c != NoError && raised == Some(Some(CodeName(c)))
    then code != NoError && raised == Some(Some(CodeName(code)))
    else code == Internal
  }

  /** What a turn has kept of the errors raised. */
  predicate Keeps(t: Turn, raised: Option<Option<string>>) {
    if raised.None? then t.reported == NoError
    else if exists c :: raised == Some(Some(CodeName(c))) then raised == Some(Some(CodeName(t.reported)))
    else t.reported == Internal
  }

  function RecognizedIn(calls: seq<Call>): seq<Call> {
    if calls == [] then [] else (if calls[0].OnRecognized? then [calls[0]] else []) + RecognizedIn(calls[1..])
  }

  /** What was recognised, in order: the texts that the buffer can take. */
  function Texts(events: seq<Event>): seq<Call> {
    if events == [] then []
    else
      var e := events[0];
      (if e.Recognized? && e.text.Some? && Legal(e.text.value)
       then [OnRecognized(e.text.value, e.final != Some(false))] else []) + Texts(events[1..])
  }

  lemma RecognizedFirst(call: Call, rest: seq<Call>)
    ensures RecognizedIn([call] + rest) == (if call.OnRecognized? then [call] else []) + RecognizedIn(rest)
  {
    assert ([call] + rest)[1..] == rest;
  }

  lemma {:induction false} RecognizedJoin(a: seq<Call>, b: seq<Call>)
    ensures RecognizedIn(a + b) == RecognizedIn(a) + RecognizedIn(b)
    decreases |a|
  {
    if a == [] {
      assert a + b == b;
    } else {
      hide RecognizedIn;
      var rest := a[1..];
      assert a == [a[0]] + rest && a + b == [a[0]] + (rest + b);
      RecognizedFirst(a[0], rest);
      RecognizedFirst(a[0], rest + b);
      RecognizedJoin(rest, b);
    }
  }

  lemma {:induction false} SentencesRecognizeNothing(segments: seq<S.Segment>)
    ensures RecognizedIn(SentencesOf(segments)) == []
    decreases |segments|
  {
    if segments != [] {
      SentencesRecognizeNothing(segments[1..]);
      assert SentencesOf(segments)[1..] == SentencesOf(segments[1..]);
    }
  }

  lemma RecognizedOne(call: Call)
    ensures RecognizedIn([call]) == (if call.OnRecognized? then [call] else []) && RecognizedIn([]) == []
  {
    assert [call][1..] == [];
  }

  /** Sound is never taken for recognised speech, nor for an error. */
  lemma SoundIsNoText(t: Turn, payload: string)
    ensures var r := HandleAudio(t, payload);
      RecognizedIn(r.calls) == [] && r.turn.reported == t.reported && r.turn.overflow == t.overflow
  {
    hide RawStringOf, IntegerOf, BoolOf, Unescaped, PcmOf, S.Run, S.Flush, RecognizedIn, HandleSamples, Announce;
    RecognizedOne(OnFinished(Failed, Internal));
    var u := t.(expectedSeq := t.expectedSeq + 1);
    SamplesAreNoText(u, payload);
    var raw := RawStringOf(payload, "text");
    if raw.Some? && Unescaped(raw.value).Some? {
      var said := S.Run(u.talk, Unescaped(raw.value).value, SEGMENT_BYTES);
      var r := Announce(u, said);
      AnnouncedIsNoText(u, said);
      SamplesAreNoText(r.turn, payload);
      RecognizedJoin(r.calls, HandleSamples(r.turn, payload).calls);
    }
  }

  lemma AnnouncedIsNoText(t: Turn, said: S.Result)
    ensures var r := Announce(t, said);
      RecognizedIn(r.calls) == [] && r.turn.reported == t.reported && r.turn.overflow == t.overflow
  {
    hide Q.EnqueueAll, RecognizedIn, SentencesOf;
    SentencesRecognizeNothing(Q.EnqueueAll(Q.Queue(0, [], t.unspoken), said.segments).segments);
  }

  lemma SamplesAreNoText(t: Turn, payload: string)
    ensures var r := HandleSamples(t, payload);
      RecognizedIn(r.calls) == [] && r.turn.reported == t.reported && r.turn.overflow == t.overflow
  {
    hide RawStringOf, BoolOf, PcmOf, S.Flush, RecognizedIn, Announce;
    RecognizedOne(OnFinished(Failed, Internal));
    AnnouncedIsNoText(t, S.Flush(t.talk, SEGMENT_BYTES));
    var text := RawStringOf(payload, "pcm");
    if text.Some? && PcmOf(text.value).Some? {
      var pcm := PcmOf(text.value).value;
      var flushed := Announce(t, S.Flush(t.talk, SEGMENT_BYTES));
      var a := if BoolOf(payload, "last") == Some(true) then flushed else Ignored(t);
      RecognizedOne(OnAudio(pcm));
      RecognizedJoin(a.calls, if pcm == [] then [] else [OnAudio(pcm)]);
    }
  }

  /** One event that leaves the turn running. */
  lemma OneMeans(t: Turn, e: Event, raised: Option<Option<string>>)
    requires t.outcome == Running && IsEvent(e, t.overflow) && Keeps(t, raised)
    requires Interpret(t, Printed(e)).turn.outcome == Running
    ensures
      var r := Interpret(t, Printed(e));
      && r.turn.overflow == t.overflow && Keeps(r.turn, LastRaised([e], raised))
      && RecognizedIn(r.calls) == Texts([e])
  {
    hide Interpret, Printed, IsEvent, CodeName, Legal, RecognizedIn, LastRaised, Texts;
    RaisedOne(e, raised);
    match e {
      case Recognized(text, final) =>
        RecognizedMeans(t, text, final);
        RecognizedOne(OnRecognized(if text.Some? then text.value else "", final != Some(false)));
      case Sound(_, _, _, _, _) => SoundIsSound(t, e);
      case Ended(reason) =>
        EndedMeans(t, reason);
        RecognizedOne(OnAudio([]));
      case Raised(code) =>
        RaisedMeans(t, code);
        RecognizedOne(OnAudio([]));
      case _ =>
        OthersMean(t, e);
        RecognizedOne(OnAudio([]));
    }
  }

  lemma RaisedOne(e: Event, raised: Option<Option<string>>)
    ensures LastRaised([e], raised) == if e.Raised? then Some(e.code) else raised
    ensures Texts([e])
         == if e.Recognized? && e.text.Some? && Legal(e.text.value)
            then [OnRecognized(e.text.value, e.final != Some(false))] else []
  {
    hide Legal;
    assert [e][1..] == [];
  }

  lemma SoundIsSound(t: Turn, e: Event)
    requires t.outcome == Running && IsEvent(e, t.overflow) && e.Sound?
    ensures var r := Interpret(t, Printed(e));
      RecognizedIn(r.calls) == [] && r.turn.reported == t.reported && r.turn.overflow == t.overflow
  {
    hide PayloadIn, Printed, EnvelopeOf, HandleAudio, RecognizedIn, Render, Printable, PrintHeight, EntryOf;
    SoundShape(e.rate, e.number, e.words, e.pcm, e.last);
    PrintedReads(e, t.overflow);
    SoundIsNoText(t, Render(DBox(true, PayloadIn(e))));
  }

  /** As long as the turn runs it keeps the error raised last, and passes on what was recognised. */
  lemma {:induction false} RunMeans(t: Turn, events: seq<Event>, raised: Option<Option<string>>)
    requires t.outcome == Running && AllEvents(events, t.overflow) && Keeps(t, raised)
    ensures
      var r := InterpretAll(t, AllPrinted(events));
      r.turn.outcome == Running ==>
        && r.turn.overflow == t.overflow && Keeps(r.turn, LastRaised(events, raised))
        && RecognizedIn(r.calls) == Texts(events)
    decreases |events|
  {
    hide Interpret, Printed, IsEvent, Keeps, RecognizedIn, Legal;
    if events == [] {
      RecognizedOne(OnAudio([]));
    } else {
      var e, rest := events[0], events[1..];
      var u := Interpret(t, Printed(e)).turn;
      assert AllPrinted(events)[0] == Printed(e) && AllPrinted(events)[1..] == AllPrinted(rest);
      OverStaysOver(u, AllPrinted(rest));
      if u.outcome == Running {
        OneMeans(t, e, raised);
        RaisedOne(e, raised);
        RunMeans(u, rest, LastRaised([e], raised));
        RecognizedJoin(Interpret(t, Printed(e)).calls, InterpretAll(u, AllPrinted(rest)).calls);
        TextsNext(events);
      }
    }
  }

  lemma {:induction false} TextsNext(events: seq<Event>)
    requires events != []
    ensures Texts(events) == Texts([events[0]]) + Texts(events[1..])
  {
    hide Legal;
    RaisedOne(events[0], None);
  }

  lemma {:induction false} PrintedJoin(events: seq<Event>, e: Event)
    ensures AllPrinted(events + [e]) == AllPrinted(events) + [Printed(e)]
    decreases |events|
  {
    hide Printed;
    if events == [] {
      assert [] + [e] == [e] && [e][1..] == [];
    } else {
      assert (events + [e])[1..] == events[1..] + [e];
      PrintedJoin(events[1..], e);
    }
  }

  /** The gateway ends a reply with a reason. The listener is told once, last: completed or cancelled, without an error,
      if the gateway says exactly so; otherwise that the turn failed, with the code of the error raised last. */
  lemma EndsAs(events: seq<Event>, reason: string, overflow: Overflow)
    requires AllEvents(events, overflow)
    requires InterpretAll(StartTurn(overflow), AllPrinted(events)).turn.outcome == Running
    ensures
      var before := InterpretAll(StartTurn(overflow), AllPrinted(events));
      var r := InterpretAll(StartTurn(overflow), AllPrinted(events + [Ended(Some(reason))]));
      && r.calls == before.calls + [OnFinished(r.turn.outcome, r.turn.code)]
      && RecognizedIn(before.calls) == Texts(events)
      && (r.turn.outcome == Completed <==> reason == "completed")
      && (r.turn.outcome == Cancelled <==> reason == "cancelled")
      && (r.turn.outcome == Failed <==> reason != "completed" && reason != "cancelled")
      && (if r.turn.outcome == Failed then FailsAs(LastRaised(events, None), r.turn.code) else r.turn.code == NoError)
  {
    hide Interpret, Printed, IsEvent, CodeName, RecognizedIn, Legal;
    var t := StartTurn(overflow);
    var u := InterpretAll(t, AllPrinted(events)).turn;
    var last := Printed(Ended(Some(reason)));
    RunMeans(t, events, None);
    EndedMeans(u, Some(reason));
    PrintedJoin(events, Ended(Some(reason)));
    InterpretAppend(t, AllPrinted(events), [last]);
    InterpretOne(u, last);
    KeptIsGiven(u, LastRaised(events, None));
  }

  /** A reply that closes without a reason has failed in the same way. */
  lemma ClosesAs(events: seq<Event>, overflow: Overflow)
    requires AllEvents(events, overflow)
    requires InterpretAll(StartTurn(overflow), AllPrinted(events)).turn.outcome == Running
    ensures
      var before := InterpretAll(StartTurn(overflow), AllPrinted(events));
      var end := ConversationSpec.Close(before.turn);
      && end.calls == [OnFinished(Failed, end.turn.code)] && FailsAs(LastRaised(events, None), end.turn.code)
  {
    hide Interpret, Printed, IsEvent, CodeName, RecognizedIn, Legal, Texts;
    RunMeans(StartTurn(overflow), events, None);
    KeptIsGiven(InterpretAll(StartTurn(overflow), AllPrinted(events)).turn, LastRaised(events, None));
  }

  lemma InterpretOne(t: Turn, data: string)
    requires t.outcome == Running
    ensures InterpretAll(t, [data]) == Interpret(t, data)
  {
    hide Interpret;
    var r := Interpret(t, data);
    assert [data][1..] == [] && r.calls + [] == r.calls;
  }

  lemma KeptIsGiven(t: Turn, raised: Option<Option<string>>)
    requires Keeps(t, raised)
    ensures FailsAs(raised, if t.reported != NoError then t.reported else Internal)
  {
    hide CodeName;
    forall a: ErrorCode, b: ErrorCode ensures CodeName(a) == CodeName(b) ==> a == b {
      NamesReadBack(a, CodeName(b));
      NamesReadBack(b, CodeName(b));
    }
  }
}
