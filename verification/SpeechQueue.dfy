/** Where finished sentences wait: 512 bytes, two of them lost to the header of every sentence. */
module SpeechQueue {
  import opened SpeechSpec
  import opened SpeechMeaning

  const SPEECH_QUEUE_BYTES: nat := 512

  /** `used` counts from the last rewind, so a queue that is read but not drained does not shrink. */
  datatype Queue = Queue(used: nat, segments: seq<Segment>, dropped: nat)

  function Enqueue(q: Queue, s: Segment): Queue {
    if q.used + 2 + |s.text| > SPEECH_QUEUE_BYTES then q.(dropped := q.dropped + 1)
    else q.(used := q.used + 2 + |s.text|, segments := q.segments + [s])
  }

  function EnqueueAll(q: Queue, segments: seq<Segment>): Queue
    decreases |segments|
  {
    if segments == [] then q else EnqueueAll(Enqueue(q, segments[0]), segments[1..])
  }

  lemma {:induction false} EnqueueAppend(q: Queue, a: seq<Segment>, b: seq<Segment>)
    ensures EnqueueAll(q, a + b) == EnqueueAll(EnqueueAll(q, a), b)
    decreases |a|
  {
    if a == [] {
      assert a + b == b;
    } else {
      assert (a + b)[1..] == a[1..] + b;
      EnqueueAppend(Enqueue(q, a[0]), a[1..], b);
    }
  }

  function Rewound(q: Queue): Queue {
    if q.segments == [] then q.(used := 0) else q
  }

  function Load(segments: seq<Segment>): nat {
    if segments == [] then 0 else 2 + |segments[0].text| + Load(segments[1..])
  }

  lemma {:induction false} LoadAppend(a: seq<Segment>, b: seq<Segment>)
    ensures Load(a + b) == Load(a) + Load(b)
    decreases |a|
  {
    if a == [] {
      assert a + b == b;
    } else {
      assert (a + b)[1..] == a[1..] + b;
      LoadAppend(a[1..], b);
    }
  }

  /** Everything waits exactly when everything fits; otherwise something is counted as dropped. */
  lemma {:induction false} AllFit(q: Queue, segments: seq<Segment>)
    requires q.used <= SPEECH_QUEUE_BYTES
    ensures var r := EnqueueAll(q, segments);
      && (q.used + Load(segments) <= SPEECH_QUEUE_BYTES <==> r.dropped == q.dropped)
      && (r.dropped == q.dropped ==> r.segments == q.segments + segments)
      && r.dropped >= q.dropped
    decreases |segments|
  {
    if segments == [] {
      assert q.segments + [] == q.segments;
    } else {
      AllFit(Enqueue(q, segments[0]), segments[1..]);
      assert q.segments + [segments[0]] + segments[1..] == q.segments + segments;
    }
  }

  /** `a` comes from `b` by leaving sentences out. */
  predicate IsPart(a: seq<Segment>, b: seq<Segment>) {
    a == [] || (b != [] && ((a[0] == b[0] && IsPart(a[1..], b[1..])) || IsPart(a, b[1..])))
  }

  lemma {:induction false} PartJoin(a: seq<Segment>, b: seq<Segment>, c: seq<Segment>, d: seq<Segment>)
    requires IsPart(a, b) && IsPart(c, d)
    ensures IsPart(a + c, b + d)
    decreases |b|
  {
    if b == [] {
      assert a + c == c && b + d == d;
    } else {
      assert (b + d)[1..] == b[1..] + d;
      if a != [] && a[0] == b[0] && IsPart(a[1..], b[1..]) {
        assert (a + c)[1..] == a[1..] + c;
        PartJoin(a[1..], b[1..], c, d);
      } else {
        assert IsPart(a, b[1..]);
        PartJoin(a, b[1..], c, d);
      }
    }
  }

  /** Every sentence is kept, in its place, or counted. */
  lemma {:induction false} KeptOrCounted(q: Queue, segments: seq<Segment>)
    ensures var r := EnqueueAll(q, segments);
      && |r.segments| + r.dropped == |q.segments| + q.dropped + |segments|
      && q.segments <= r.segments && IsPart(r.segments[|q.segments|..], segments)
    decreases |segments|
  {
    if segments == [] {
      assert q.segments[|q.segments|..] == [];
    } else {
      var next := Enqueue(q, segments[0]);
      var r := EnqueueAll(q, segments);
      KeptOrCounted(next, segments[1..]);
      if next.segments != q.segments {
        var kept := r.segments[|q.segments|..];
        assert kept[0] == segments[0] && kept[1..] == r.segments[|next.segments|..];
      }
    }
  }

  // ------------------------------------------------------- when a feed loses

  /** A feed into a drained queue loses a sentence exactly when the sentences it finishes, with two bytes more
      for each, are over 512 bytes; and none is lost without being counted. */
  lemma RoomExactly(t: Talk, q: Queue, text: string, limit: Limit)
    requires q.segments == []
    ensures
      var said := Run(t, text, limit).segments;
      var fed := EnqueueAll(Rewound(q), said);
      && (fed.dropped == q.dropped <==> Load(said) <= SPEECH_QUEUE_BYTES)
      && (fed.dropped == q.dropped <==> fed.segments == said)
      && |fed.segments| + fed.dropped == q.dropped + |said| && IsPart(fed.segments, said)
  {
    var said := Run(t, text, limit).segments;
    AllFit(Rewound(q), said);
    KeptOrCounted(Rewound(q), said);
    assert [] + said == said;
    hide Run, EnqueueAll, Load, IsPart;
    var fed := EnqueueAll(Rewound(q), said);
    assert fed.segments[0..] == fed.segments;
  }

  /** The same, from the text alone: after `x`, a segmenter that is drained and fed `y` loses a sentence exactly
      when the sentences that `x + y` finishes and `x` does not are over 512 bytes. */
  lemma LosesExactly(x: string, y: string, q: Queue, limit: Limit)
    requires q.segments == []
    ensures
      var said := Run(Run(SILENT, x, limit).state, y, limit).segments;
      && Finished(x + y, limit) == Finished(x, limit) + said
      && (EnqueueAll(Rewound(q), said).dropped == q.dropped <==>
            Load(Finished(x + y, limit)) - Load(Finished(x, limit)) <= SPEECH_QUEUE_BYTES)
  {
    hide *;
    var t := Run(SILENT, x, limit).state;
    PieceFinishes(x, y, limit);
    LoadAppend(Finished(x, limit), Run(t, y, limit).segments);
    RoomExactly(t, q, y, limit);
  }

  // ------------------------------------------------------- room from the size alone

  /** Queue bytes that the unfinished sentence and the unfinished marker may still cost. */
  function Weight(t: Talk): nat {
    (if t.pending == "" then 0 else 2 + |t.pending|) + 3 * |t.marker|
  }

  predicate Short(t: Talk, limit: Limit) {
    |t.pending| < limit && Sound(t)
  }

  lemma LoadOne(s: Segment)
    ensures Load([s]) == 2 + |s.text| && Load([]) == 0
  {
  }

  lemma AppendWeight(t: Talk, c: char, limit: Limit)
    requires |t.pending| < limit
    ensures var r := AppendText(t, c, limit);
      |r.state.pending| < limit && Load(r.segments) + Weight(r.state) <= Weight(t) + 3
  {
    var p := t.pending + [c];
    if |p| == limit {
      CutBounds(p);
      LoadOne(Segment(t.expression, p[..Cut(p)]));
    }
    hide Cut, Load;
    LoadOne(Segment(t.expression, p));
  }

  lemma {:induction false} AppendAllWeight(t: Talk, text: string, limit: Limit)
    requires |t.pending| < limit
    ensures var r := AppendAll(t, text, limit);
      && |r.state.pending| < limit && r.state.marker == t.marker
      && Load(r.segments) + Weight(r.state) <= Weight(t) + 3 * |text|
    decreases |text|
  {
    if text != "" {
      AppendWeight(t, text[0], limit);
      var r := AppendText(t, text[0], limit);
      hide AppendText, Weight, Load;
      AppendAllWeight(r.state, text[1..], limit);
      AppendKeeps(t, text[0], limit);
      LoadAppend(r.segments, AppendAll(r.state, text[1..], limit).segments);
    } else {
      LoadNone();
    }
  }

  lemma LoadNone()
    ensures Load([]) == 0
  {
  }

  lemma EmitWeight(t: Talk)
    ensures Load(Emit(t).segments) + Weight(Emit(t).state) <= Weight(t)
  {
  }

  lemma SpeakWeight(t: Talk, c: char, limit: Limit)
    requires |t.pending| < limit && t.marker == ""
    ensures var r := Speak(t, c, limit);
      && |r.state.pending| < limit && r.state.marker == ""
      && Load(r.segments) + Weight(r.state) <= Weight(t) + 3
  {
    hide AppendText, TailIsTerminator, Load, Emit, IsNewline, IsSpace;
    LoadNone();
    EmitWeight(t);
    EmitClears(t);
    AppendWeight(t, c, limit);
    AppendKeeps(t, c, limit);
    var r := AppendText(t, c, limit);
    EmitWeight(r.state);
    EmitClears(r.state);
    LoadAppend(r.segments, Emit(r.state).segments);
  }

  lemma EmitClears(t: Talk)
    ensures Emit(t).state.pending == "" && Emit(t).state.marker == t.marker
  {
  }

  lemma PlainWeight(t: Talk, c: char, limit: Limit)
    requires |t.pending| < limit && t.marker == ""
    ensures var r := Plain(t, c, limit);
      |r.state.pending| < limit && Load(r.segments) + Weight(r.state) <= Weight(t) + 3
  {
    SpeakWeight(t, c, limit);
    hide Speak;
    LoadNone();
  }

  lemma CloseWeight(t: Talk, limit: Limit)
    requires |t.pending| < limit && t.marker != ""
    ensures var r := CloseMarker(t, limit);
      |r.state.pending| < limit && Load(r.segments) + Weight(r.state) <= Weight(t) + 3
  {
    var u := t.(marker := "");
    AppendAllWeight(u, t.marker + "]", limit);
    EmitWeight(u);
    hide AppendAll, ParseExpression, Load;
  }

  lemma InMarkerWeight(t: Talk, c: char, limit: Limit)
    requires |t.pending| < limit
    ensures var r := InMarker(t, c, limit);
      |r.state.pending| < limit && Load(r.segments) + Weight(r.state) <= Weight(t) + 3
  {
    LoadNone();
    if t.marker == "" {
      PlainWeight(t, c, limit);
    } else if c == ']' {
      CloseWeight(t, limit);
    } else {
      var r := DumpMarker(t, limit);
      AppendAllWeight(t.(marker := ""), t.marker, limit);
      PlainWeight(r.state, c, limit);
      LoadAppend(r.segments, Plain(r.state, c, limit).segments);
    }
    hide Plain, CloseMarker, AppendAll, Load;
  }

  /** A byte costs at most three bytes of queue, now or later. */
  lemma PutCharWeight(t: Talk, c: char, limit: Limit)
    requires |t.pending| < limit
    ensures var r := PutChar(t, c, limit);
      |r.state.pending| < limit && Load(r.segments) + Weight(r.state) <= Weight(t) + 3
  {
    hide InMarker, Load;
    var e := Emit(t);
    EmitWeight(t);
    InMarkerWeight(e.state, c, limit);
    InMarkerWeight(t.(dot := false), c, limit);
    LoadAppend(e.segments, InMarker(e.state, c, limit).segments);
  }

  lemma {:induction false} RunWeight(t: Talk, text: string, limit: Limit)
    requires |t.pending| < limit
    ensures var r := Run(t, text, limit);
      |r.state.pending| < limit && Load(r.segments) + Weight(r.state) <= Weight(t) + 3 * |text|
    decreases |text|
  {
    hide PutChar, Weight;
    if text != "" {
      PutCharWeight(t, text[0], limit);
      var r := PutChar(t, text[0], limit);
      RunWeight(r.state, text[1..], limit);
      LoadAppend(r.segments, Run(r.state, text[1..], limit).segments);
    }
  }

  lemma FlushWeight(t: Talk, limit: Limit)
    requires |t.pending| < limit
    ensures Load(Flush(t, limit).segments) <= Weight(t)
  {
    var r := DumpMarker(t, limit);
    AppendAllWeight(t.(marker := ""), t.marker, limit);
    EmitWeight(r.state);
    LoadAppend(r.segments, Emit(r.state).segments);
    hide AppendAll, Load;
  }

  /** What a flush finishes always fits into a drained queue. */
  lemma RoomForFlush(t: Talk, q: Queue, limit: Limit)
    requires Short(t, limit) && q.segments == []
    ensures
      var said := Flush(t, limit).segments;
      var flushed := EnqueueAll(Rewound(q), said);
      flushed.segments == said && flushed.dropped == q.dropped
  {
    var said := Flush(t, limit).segments;
    FlushWeight(t, limit);
    assert Weight(t) <= limit + 25;
    hide Flush, EnqueueAll;
    AllFit(Rewound(q), said);
    assert [] + said == said;
  }

  /** A feed of `n` bytes loses nothing whenever `limit + 25 + 3 * n` is at most 512. */
  lemma RoomForFeed(t: Talk, q: Queue, text: string, limit: Limit)
    requires Short(t, limit) && q.segments == []
    requires limit + 25 + 3 * |text| <= SPEECH_QUEUE_BYTES
    ensures
      var said := Run(t, text, limit).segments;
      var fed := EnqueueAll(Rewound(q), said);
      fed.segments == said && fed.dropped == q.dropped
  {
    RunWeight(t, text, limit);
    assert Weight(t) <= limit + 25;
    hide Run, EnqueueAll;
    RoomExactly(t, q, text, limit);
  }

  function Bangs(n: nat): string { seq(n, _ => '!') }

  lemma {:induction false} BangsAreSentences(n: nat, limit: Limit)
    ensures Run(SILENT, Bangs(n), limit).state == SILENT && Load(Run(SILENT, Bangs(n), limit).segments) == 3 * n
    decreases n
  {
    if n > 0 {
      var r := PutChar(SILENT, '!', limit);
      assert r == Result(SILENT, [Segment(Neutral, "!")]) by {
        assert "" + ['!'] == "!";
        assert AppendText(SILENT, '!', limit) == Result(SILENT.(pending := "!"), []);
        assert [] + [Segment(Neutral, "!")] == [Segment(Neutral, "!")];
      }
      assert Bangs(n)[0] == '!' && Bangs(n)[1..] == Bangs(n - 1);
      hide PutChar;
      BangsAreSentences(n - 1, limit);
      LoadAppend(r.segments, Run(SILENT, Bangs(n - 1), limit).segments);
    }
  }

  /** The cost of three bytes is reached: a feed of one-byte sentences loses some exactly from 171 on. */
  lemma BangsAreDropped(q: Queue, n: nat, limit: Limit)
    requires q.segments == []
    ensures EnqueueAll(Rewound(q), Run(SILENT, Bangs(n), limit).segments).dropped > q.dropped <==> n >= 171
  {
    BangsAreSentences(n, limit);
    AllFit(Rewound(q), Run(SILENT, Bangs(n), limit).segments);
    hide EnqueueAll, Run;
  }
}
