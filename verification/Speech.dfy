/** The segmenter itself: fixed arrays for the sentence, the marker and the queue, and their lengths. */
module Speech {
  import opened Bytes
  import opened SpeechSpec
  import opened SpeechMeaning
  import opened SpeechQueue

  function Code(e: Expression): char {
    match e
    case Neutral => 0 as char
    case Happy => 1 as char
    case Sad => 2 as char
    case Doubt => 3 as char
    case Sleepy => 4 as char
    case Angry => 5 as char
  }

  function Decoded(c: char): Expression {
    match c as int
    case 1 => Happy
    case 2 => Sad
    case 3 => Doubt
    case 4 => Sleepy
    case 5 => Angry
    case _ => Neutral
  }

  /** A sentence as it waits: one byte of length, one of expression, the text. */
  function Record(s: Segment): string {
    [(|s.text| % 256) as char, Code(s.expression)] + s.text
  }

  predicate Fits(s: Segment) { |s.text| < 256 }

  predicate AllFitLength(segments: seq<Segment>) { forall k | 0 <= k < |segments| :: Fits(segments[k]) }

  function Records(segments: seq<Segment>): string {
    if segments == [] then "" else Record(segments[0]) + Records(segments[1..])
  }

  lemma {:induction false} RecordsAppend(segments: seq<Segment>, s: Segment)
    ensures Records(segments + [s]) == Records(segments) + Record(s)
    decreases |segments|
  {
    hide Record;
    if segments == [] {
      assert segments + [s] == [s];
      assert Record(s) + "" == Record(s);
    } else {
      assert (segments + [s])[1..] == segments[1..] + [s];
      RecordsAppend(segments[1..], s);
    }
  }

  lemma FitsAppend(segments: seq<Segment>, s: Segment)
    requires AllFitLength(segments) && Fits(s)
    ensures AllFitLength(segments + [s])
  {
  }

  lemma FitsTail(segments: seq<Segment>)
    requires AllFitLength(segments) && segments != []
    ensures Fits(segments[0]) && AllFitLength(segments[1..])
  {
  }

  lemma RecordsEmpty(segments: seq<Segment>)
    ensures Records(segments) == "" <==> segments == []
  {
  }

  /** What the bytes of the first record are. */
  lemma RecordsFirst(segments: seq<Segment>)
    requires segments != [] && Fits(segments[0])
    ensures
      var s, queued := segments[0], Records(segments);
      && 2 + |s.text| <= |queued| && queued[0] as nat == |s.text| && Decoded(queued[1]) == s.expression
      && queued[2..2 + |s.text|] == s.text && queued[2 + |s.text|..] == Records(segments[1..])
  {
    var s, rest := segments[0], Records(segments[1..]);
    assert Records(segments) == Record(s) + rest;
    hide Records;
    var queued := Record(s) + rest;
    assert queued[2..2 + |s.text|] == s.text && queued[2 + |s.text|..] == rest;
  }

  class SpeechSegmenter {
    const maxBytes: nat
    var expression: Expression
    const pending: array<char>
    var pendingLen: nat
    const marker: array<char>
    var markerLen: nat
    var dotPending: bool
    const fifo: array<char>
    var fifoWrite: nat
    var fifoRead: nat
    var dropped: nat
    /** The sentences between the read and write positions. */
    ghost var waiting: seq<Segment>

    ghost predicate Valid()
      reads this, pending, marker, fifo
      ensures Valid() ==> pendingLen <= pending.Length && markerLen <= marker.Length
    {
      && MIN_SEGMENT_BYTES <= maxBytes <= MAX_SEGMENT_BYTES
      && pending.Length == MAX_SEGMENT_BYTES && marker.Length == MAX_MARKER_BYTES + 1
      && fifo.Length == SPEECH_QUEUE_BYTES
      && pending != marker && marker != fifo && pending != fifo
      && pendingLen < maxBytes && markerLen <= MAX_MARKER_BYTES
      && IsPartial(marker[..markerLen]) && (markerLen > 0 ==> !dotPending)
      && fifoRead <= fifoWrite <= fifo.Length
      && AllFitLength(waiting)
      && fifo[fifoRead..fifoWrite] == Records(waiting)
    }

    ghost function State(): Talk
      reads this, pending, marker
      requires pendingLen <= pending.Length && markerLen <= marker.Length
    {
      Talk(expression, pending[..pendingLen], marker[..markerLen], dotPending)
    }

    ghost function Waiting(): Queue
      reads this
    {
      Queue(fifoWrite, waiting, dropped)
    }

    constructor (maxSegmentBytes: nat)
      ensures Valid() && fresh(pending) && fresh(marker) && fresh(fifo)
      ensures maxBytes == if maxSegmentBytes < MIN_SEGMENT_BYTES then MIN_SEGMENT_BYTES
                          else if maxSegmentBytes > MAX_SEGMENT_BYTES then MAX_SEGMENT_BYTES else maxSegmentBytes
      ensures State() == SILENT && Waiting() == Queue(0, [], 0)
    {
      maxBytes := if maxSegmentBytes < MIN_SEGMENT_BYTES then MIN_SEGMENT_BYTES
      else if maxSegmentBytes > MAX_SEGMENT_BYTES then MAX_SEGMENT_BYTES else maxSegmentBytes;
      expression := Neutral;
      pending := new char[MAX_SEGMENT_BYTES];
      marker := new char[MAX_MARKER_BYTES + 1];
      fifo := new char[SPEECH_QUEUE_BYTES];
      pendingLen, markerLen, dotPending := 0, 0, false;
      fifoWrite, fifoRead, dropped, waiting := 0, 0, 0, [];
    }

    /** Queue what the buffer holds as a sentence, or count its loss. */
    method EmitSentence()
      requires Valid0()
      modifies this`dotPending, this`pendingLen, this`fifoWrite, this`waiting, this`dropped, fifo
      ensures Valid() && State() == Emit(old(State())).state
      ensures Waiting() == EnqueueAll(old(Waiting()), Emit(old(State())).segments)
    {
      hide Records, AllFitLength, IsPartial, EnqueueAll, Record, Code;
      EnqueueNone(Waiting());
      dotPending := false;
      if pendingLen == 0 {
        return;
      }
      ghost var s := Segment(expression, pending[..pendingLen]);
      EnqueueOne(Waiting(), s);
      var need := 2 + pendingLen;
      if fifoWrite + need > fifo.Length {
        dropped := dropped + 1;
        pendingLen := 0;
        return;
      }
      CopyRecord([pendingLen as char, Code(expression)], pending, pendingLen, fifo, fifoRead, fifoWrite);
      RecordIs(s);
      RecordsAppend(waiting, s);
      fifoWrite := fifoWrite + need;
      pendingLen := 0;
      FitsAppend(waiting, s);
      waiting := waiting + [s];
    }

    /** `Valid` while the buffer may be full. */
    ghost predicate Valid0()
      reads this, pending, marker, fifo
    {
      && MIN_SEGMENT_BYTES <= maxBytes <= MAX_SEGMENT_BYTES
      && pending.Length == MAX_SEGMENT_BYTES && marker.Length == MAX_MARKER_BYTES + 1
      && fifo.Length == SPEECH_QUEUE_BYTES
      && pending != marker && marker != fifo && pending != fifo
      && pendingLen <= maxBytes && markerLen <= MAX_MARKER_BYTES
      && IsPartial(marker[..markerLen]) && (markerLen > 0 ==> !dotPending)
      && fifoRead <= fifoWrite <= fifo.Length
      && AllFitLength(waiting)
      && fifo[fifoRead..fifoWrite] == Records(waiting)
    }

    /** Add a byte to the sentence; a full buffer is emitted up to its last whole character. */
    method Append(c: char)
      requires Valid()
      modifies this`dotPending, this`pendingLen, this`fifoWrite, this`waiting, this`dropped, pending, fifo
      ensures Valid() && State() == AppendText(old(State()), c, maxBytes).state
      ensures Waiting() == EnqueueAll(old(Waiting()), AppendText(old(State()), c, maxBytes).segments)
    {
      hide Records, AllFitLength;
      EnqueueNone(Waiting());
      ghost var p := pending[..pendingLen] + [c];
      pending[pendingLen] := c;
      pendingLen := pendingLen + 1;
      assert pending[..pendingLen] == p;
      if pendingLen < maxBytes {
        return;
      }
      CutBounds(p);
      EnqueueOne(Waiting(), Segment(expression, p[..Cut(p)]));
      EmitCut();
    }

    /** The buffer is full: emit it up to its last whole character and carry the rest to the front. */
    method EmitCut()
      requires Valid0() && pendingLen == maxBytes && markerLen <= marker.Length
      modifies this`dotPending, this`pendingLen, this`fifoWrite, this`waiting, this`dropped, pending, fifo
      ensures Valid()
      ensures
        var t := old(State());
        State() == t.(pending := t.pending[Cut(t.pending)..], dot := false)
      ensures
        var p := old(State()).pending;
        Waiting() == Enqueue(old(Waiting()), Segment(expression, p[..Cut(p)]))
    {
      hide Records, AllFitLength, IsPartial, Enqueue;
      ghost var p := pending[..pendingLen];
      var cut := CutPoint();
      CutBounds(p);
      hide Cut;
      if cut == 0 {
        assert false;
        return;
      }
      var rest := pendingLen - cut;
      // At most three bytes, so the source's eight bytes of scratch suffice.
      var keep := pending[cut..pendingLen];
      assert keep == p[cut..] && |keep| <= 8;
      pendingLen := cut;
      assert pending[..cut] == p[..cut];
      EnqueueOne(Waiting(), Segment(expression, p[..cut]));
      EmitSentence();
      CopyText(keep, pending, 0);
      pendingLen := rest;
      assert pending[..pendingLen] == pending[0..0 + rest];
    }

    /** Where the full buffer is cut. */
    method CutPoint() returns (cut: nat)
      requires pendingLen <= pending.Length
      ensures cut == Cut(pending[..pendingLen])
    {
      ghost var p := pending[..pendingLen];
      var lead := pendingLen;
      assert p[..lead] == p;
      while lead > 0 && Utf8Length(pending[lead - 1]) == 0
        invariant lead <= pendingLen && Lead(p) == Lead(p[..lead])
      {
        assert p[..lead][..lead - 1] == p[..lead - 1];
        lead := lead - 1;
      }
      assert lead > 0 ==> p[..lead][lead - 1] == p[lead - 1];
      assert Lead(p) == lead;
      cut := pendingLen;
      if lead > 0 {
        var charLen := Utf8Length(pending[lead - 1]);
        if lead - 1 + charLen > pendingLen {
          cut := lead - 1;
        }
      }
    }

    /** Append a text that is not looked at for sentence ends. */
    method AppendEach(text: string)
      requires Valid()
      modifies this`dotPending, this`pendingLen, this`fifoWrite, this`waiting, this`dropped, pending, fifo
      ensures Valid() && State() == AppendAll(old(State()), text, maxBytes).state
      ensures Waiting() == EnqueueAll(old(Waiting()), AppendAll(old(State()), text, maxBytes).segments)
    {
      hide Records, AppendText, EnqueueAll, IsPartial;
      ghost var start, queue := State(), Waiting();
      EnqueueNone(queue);
      assert text[..0] == "";
      for i := 0 to |text|
        invariant Valid()
        invariant State() == AppendAll(start, text[..i], maxBytes).state
        invariant Waiting() == EnqueueAll(queue, AppendAll(start, text[..i], maxBytes).segments)
      {
        AppendAllStep(start, text, i, maxBytes);
        EnqueueAppend(queue, AppendAll(start, text[..i], maxBytes).segments,
                      AppendText(State(), text[i], maxBytes).segments);
        Append(text[i]);
      }
      assert text[..|text|] == text;
    }

    method DumpMarkerAsText()
      requires Valid()
      modifies this, pending, fifo
      ensures Valid() && State() == DumpMarker(old(State()), maxBytes).state
      ensures Waiting() == EnqueueAll(old(Waiting()), DumpMarker(old(State()), maxBytes).segments)
    {
      hide Records, AppendAll, EnqueueAll;
      var text := marker[..markerLen];
      markerLen := 0;
      AppendEach(text);
    }

    /** The closing bracket of a marker: switch the expression, or keep the brackets as text. */
    method EndMarker()
      requires Valid() && markerLen > 0
      modifies this, pending, fifo
      ensures Valid() && State() == CloseMarker(old(State()), maxBytes).state
      ensures Waiting() == EnqueueAll(old(Waiting()), CloseMarker(old(State()), maxBytes).segments)
    {
      hide Records, AppendAll, EnqueueAll, ParseExpression;
      var name := marker[1..markerLen];
      ghost var m := marker[..markerLen];
      assert m[1..] == name && "[" + name + "]" == m + "]";
      var parsed := ParseExpression(name);
      markerLen := 0;
      if parsed.Some? {
        EmitSentence();
        expression := parsed.value;
      } else {
        AppendEach("[" + name + "]");
      }
    }

    /** One byte inside a candidate marker; false if the marker was given up and the byte is still to be read. */
    method ConsumeIntoMarker(c: char) returns (consumed: bool)
      requires Valid() && markerLen > 0
      modifies this, marker, pending, fifo
      ensures Valid()
      ensures consumed ==> State() == InMarker(old(State()), c, maxBytes).state
      ensures consumed ==> Waiting() == EnqueueAll(old(Waiting()), InMarker(old(State()), c, maxBytes).segments)
      ensures !consumed ==> c != ']' && !(IsMarkerChar(c) && old(markerLen) < MAX_MARKER_BYTES)
      ensures !consumed ==> State() == DumpMarker(old(State()), maxBytes).state && markerLen == 0 && !dotPending
      ensures !consumed ==> Waiting() == EnqueueAll(old(Waiting()), DumpMarker(old(State()), maxBytes).segments)
    {
      hide Records, AppendAll, EnqueueAll, CloseMarker, Plain;
      if c == ']' {
        EndMarker();
        return true;
      }
      if IsMarkerChar(c) && markerLen < MAX_MARKER_BYTES {
        ghost var m := marker[..markerLen];
        EnqueueNone(Waiting());
        marker[markerLen] := c;
        markerLen := markerLen + 1;
        assert marker[..markerLen] == m + [c];
        return true;
      }
      DumpQuiet(State(), maxBytes);
      DumpMarkerAsText();
      return false;
    }

    /** Whether the buffer ends with a multi-byte sentence end. */
    method TailEnds() returns (b: bool)
      requires pendingLen <= pending.Length
      ensures b == TailIsTerminator(pending[..pendingLen])
    {
      if pendingLen < 3 {
        return false;
      }
      assert pending[..pendingLen][pendingLen - 3..] == pending[pendingLen - 3..pendingLen];
      b := IsTerminator(pending[pendingLen - 3..pendingLen]);
    }

    /** A byte outside a marker. */
    method SpeakByte(c: char)
      requires Valid() && markerLen == 0 && !dotPending
      modifies this, marker, pending, fifo
      ensures Valid() && State() == Plain(old(State()), c, maxBytes).state
      ensures Waiting() == EnqueueAll(old(Waiting()), Plain(old(State()), c, maxBytes).segments)
    {
      hide Records, EnqueueAll, AppendText, TailIsTerminator;
      ghost var t, queue := State(), Waiting();
      EnqueueNone(queue);
      if c == '[' {
        marker[0] := '[';
        markerLen := 1;
        assert marker[..1] == "[";
        return;
      }
      if c == '\n' || c == '\r' {
        EmitSentence();
        return;
      }
      if pendingLen == 0 && IsSpace(c) {
        return;
      }
      ghost var a := AppendText(t, c, maxBytes);
      Append(c);
      EnqueueAppend(queue, a.segments, Emit(a.state).segments);
      if c == '!' || c == '?' {
        EmitSentence();
        return;
      }
      if c == '.' {
        dotPending := true;
        return;
      }
      var ends := TailEnds();
      if ends {
        EmitSentence();
      }
    }

    /** A byte after a '.': white space ends the sentence, and a blank goes no further. */
    method ResolvePendingDot(c: char) returns (consumed: bool)
      requires Valid() && dotPending
      modifies this, fifo
      ensures Valid() && !dotPending
      ensures consumed == IsSpace(c)
      ensures State() == if IsGap(c) then Emit(old(State())).state else old(State()).(dot := false)
      ensures Waiting() == if IsGap(c) then EnqueueAll(old(Waiting()), Emit(old(State())).segments) else old(Waiting())
    {
      hide Records, AllFitLength, IsPartial, EnqueueAll;
      dotPending := false;
      if IsSpace(c) || c == '\n' || c == '\r' {
        EmitSentence();
        return IsSpace(c);
      }
      return false;
    }

    /** One byte of text. */
    method TakeChar(c: char)
      requires Valid()
      modifies this, marker, pending, fifo
      ensures Valid() && State() == PutChar(old(State()), c, maxBytes).state
      ensures Waiting() == EnqueueAll(old(Waiting()), PutChar(old(State()), c, maxBytes).segments)
    {
      hide Records, AllFitLength, IsPartial, EnqueueAll, DumpMarker, CloseMarker, Plain;
      ghost var t, queue := State(), Waiting();
      EnqueueNone(queue);
      ghost var said: seq<Segment> := [];
      if dotPending {
        var consumed := ResolvePendingDot(c);
        if IsGap(c) {
          said := Emit(t).segments;
        }
        if consumed {
          return;
        }
      }
      ghost var u := State();
      ghost var r := InMarker(u, c, maxBytes);
      assert PutChar(t, c, maxBytes) == Result(r.state, said + r.segments) by {
        NoneFirst(InMarker(u, c, maxBytes).segments);
      }
      EnqueueAppend(queue, said, InMarker(u, c, maxBytes).segments);
      if markerLen > 0 {
        ghost var dumped := DumpMarker(u, maxBytes);
        var consumed := ConsumeIntoMarker(c);
        if consumed {
          return;
        }
        ghost var p := Plain(State(), c, maxBytes);
        EnqueueAppend(EnqueueAll(queue, said), dumped.segments, p.segments);
      }
      SpeakByte(c);
    }

    /** Take in a piece of text, split anywhere. A drained queue starts over from its front. */
    method Feed(text: string)
      requires Valid()
      modifies this, marker, pending, fifo
      ensures Valid() && State() == Run(old(State()), text, maxBytes).state
      ensures Waiting() == EnqueueAll(Rewound(old(Waiting())), Run(old(State()), text, maxBytes).segments)
    {
      hide Records, AllFitLength, IsPartial, EnqueueAll, PutChar, Run;
      RecordsEmpty(waiting);
      if fifoRead == fifoWrite {
        fifoRead := 0;
        fifoWrite := 0;
      }
      ghost var start, queue := State(), Waiting();
      RunNone(start, maxBytes);
      EnqueueNone(queue);
      assert text[..0] == "";
      for i := 0 to |text|
        invariant Valid()
        invariant State() == Run(start, text[..i], maxBytes).state
        invariant Waiting() == EnqueueAll(queue, Run(start, text[..i], maxBytes).segments)
      {
        StepRun(start, text, i, maxBytes);
        EnqueueAppend(queue, Run(start, text[..i], maxBytes).segments, PutChar(State(), text[i], maxBytes).segments);
        TakeChar(text[i]);
      }
      assert text[..|text|] == text;
    }

    /** The text has ended: an unclosed marker is text, and what is left is a sentence. */
    method FlushAll()
      requires Valid()
      modifies this, pending, fifo
      ensures Valid() && State() == Flush(old(State()), maxBytes).state
      ensures Waiting() == EnqueueAll(Rewound(old(Waiting())), Flush(old(State()), maxBytes).segments)
    {
      hide Records, AllFitLength, IsPartial, EnqueueAll, AppendAll;
      RecordsEmpty(waiting);
      if fifoRead == fifoWrite {
        fifoRead := 0;
        fifoWrite := 0;
      }
      ghost var t, queue := State(), Waiting();
      ghost var dumped := DumpMarker(t, maxBytes);
      EnqueueNone(queue);
      EnqueueAppend(queue, dumped.segments, Emit(dumped.state).segments);
      if markerLen > 0 {
        DumpMarkerAsText();
      } else {
        DumpNothing(t, maxBytes);
      }
      EmitSentence();
    }

    /** The oldest waiting sentence. Reading does not disturb the queue's bytes. */
    method NextSegment() returns (r: Option<Segment>)
      requires Valid()
      modifies this`fifoRead, this`waiting
      ensures Valid() && State() == old(State())
      ensures r == if old(waiting) == [] then None else Some(old(waiting)[0])
      ensures Waiting() == old(Waiting()).(segments := if old(waiting) == [] then [] else old(waiting)[1..])
    {
      hide AllFitLength, IsPartial, Record, Records, Decoded;
      RecordsEmpty(waiting);
      if fifoRead == fifoWrite {
        return None;
      }
      FitsTail(waiting);
      RecordsFirst(waiting);
      ghost var queued := fifo[fifoRead..fifoWrite];
      assert fifo[fifoRead] == queued[0] && fifo[fifoRead + 1] == queued[1];
      var len := fifo[fifoRead] as nat;
      var e := Decoded(fifo[fifoRead + 1]);
      SubSlice(fifo, fifoRead, fifoWrite, 2, 2 + len);
      SubSlice(fifo, fifoRead, fifoWrite, 2 + len, fifoWrite - fifoRead);
      r := Some(Segment(e, fifo[fifoRead + 2..fifoRead + 2 + len]));
      fifoRead := fifoRead + 2 + len;
      waiting := waiting[1..];
    }
  }

  lemma NoneFirst(segments: seq<Segment>)
    ensures [] + segments == segments
  {
  }

  lemma DumpNothing(t: Talk, limit: Limit)
    requires t.marker == ""
    ensures DumpMarker(t, limit) == Result(t, [])
  {
  }

  lemma RunNone(t: Talk, limit: Limit)
    ensures Run(t, "", limit) == Result(t, [])
  {
  }

  lemma StepRun(start: Talk, text: string, i: nat, limit: Limit)
    requires i < |text|
    ensures
      var a := Run(start, text[..i], limit);
      var s := PutChar(a.state, text[i], limit);
      Run(start, text[..i + 1], limit) == Result(s.state, a.segments + s.segments)
  {
    var a := Run(start, text[..i], limit);
    var s := PutChar(a.state, text[i], limit);
    hide PutChar;
    assert text[..i + 1] == text[..i] + [text[i]];
    RunAppend(start, text[..i], [text[i]], limit);
    assert [text[i]][1..] == "" && s.segments + [] == s.segments;
  }

  lemma EnqueueOne(q: Queue, s: Segment)
    ensures EnqueueAll(q, [s]) == Enqueue(q, s)
  {
    assert [s][1..] == [];
  }

  lemma RecordIs(s: Segment)
    requires Fits(s)
    ensures Record(s) == [|s.text| as char, Code(s.expression)] + s.text
  {
  }

  lemma EnqueueNone(q: Queue)
    ensures EnqueueAll(q, []) == q
  {
  }

  lemma {:induction false} AppendAllStep(t: Talk, text: string, i: nat, limit: Limit)
    requires i < |text|
    ensures
      var a := AppendAll(t, text[..i], limit);
      var r := AppendText(a.state, text[i], limit);
      AppendAll(t, text[..i + 1], limit) == Result(r.state, a.segments + r.segments)
    decreases i
  {
    hide AppendText;
    if i == 0 {
      assert text[..1][1..] == "" && text[..1][0] == text[0];
      var r := AppendText(t, text[0], limit);
      assert r.segments + [] == r.segments && [] + r.segments == r.segments;
    } else {
      var r := AppendText(t, text[0], limit);
      AppendAllStep(r.state, text[1..], i - 1, limit);
      assert text[1..][..i - 1] == text[..i][1..] && text[1..][..i] == text[..i + 1][1..];
      var a := AppendAll(r.state, text[1..][..i - 1], limit);
      var s := AppendText(a.state, text[i], limit);
      assert r.segments + (a.segments + s.segments) == (r.segments + a.segments) + s.segments;
    }
  }

  lemma {:induction false} QuietAll(t: Talk, text: string, limit: Limit)
    requires !t.dot
    ensures !AppendAll(t, text, limit).state.dot && AppendAll(t, text, limit).state.marker == t.marker
    decreases |text|
  {
    hide Cut;
    if text != "" {
      QuietAll(AppendText(t, text[0], limit).state, text[1..], limit);
    }
  }

  lemma DumpQuiet(t: Talk, limit: Limit)
    requires !t.dot
    ensures !DumpMarker(t, limit).state.dot && DumpMarker(t, limit).state.marker == ""
  {
    QuietAll(t.(marker := ""), t.marker, limit);
  }
}
