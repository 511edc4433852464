/** What the segments of a text are, said without a machine.

    `Sentences` reads the tokens of the whole text with look-ahead: it drops what stands between sentences,
    measures how far the next sentence reaches, and cuts it off. The module proves that the segmenter emits
    exactly these segments, and from that: what a segment looks like, that no byte of speech is lost or
    moved, and that well-formed UTF-8 is only ever cut between characters. */
module SpeechMeaning {
  import opened SpeechSpec

  predicate IsGap(c: char) { IsSpace(c) || IsNewline(c) }

  /** The bytes of speech up to the next marker. */
  function Speech(tokens: seq<Token>): (w: string)
    ensures |w| <= |tokens|
    ensures forall k | 0 <= k < |w| :: tokens[k] == Ch(w[k])
    ensures |w| < |tokens| ==> tokens[|w|].Mark?
  {
    if tokens == [] || tokens[0].Mark? then "" else [tokens[0].c] + Speech(tokens[1..])
  }

  // ------------------------------------------------------- cutting long text

  /** A full buffer is never kept whole, and at most three bytes of it are carried over. */
  lemma CutBounds(p: string)
    requires |p| >= MIN_SEGMENT_BYTES
    ensures 0 < Cut(p) <= |p| && |p| - Cut(p) <= 3
  {
  }

  /** What is carried over is the start of one character and nothing else. */
  predicate IsCarried(q: string) {
    q != "" ==>
      && |q| < Utf8Length(q[0])
      && forall k | 1 <= k < |q| :: Utf8Length(q[k]) == 0
  }

  lemma CarriedOver(p: string)
    ensures IsCarried(p[Cut(p)..])
  {
  }

  // ------------------------------------------------------- the reference

  predicate Stop(p: string) {
    p != "" && (p[|p| - 1] == '!' || p[|p| - 1] == '?' || TailIsTerminator(p))
  }

  /** Whether a sentence that has reached length `n` in the speech `w` ends there. */
  predicate Ends(w: string, n: nat)
    requires 1 <= n <= |w|
  {
    || Stop(w[..n])
    || n == |w|
    || IsNewline(w[n])
    || (w[n - 1] == '.' && IsSpace(w[n]))
  }

  /** How far the sentence at the front of `w` reaches, knowing that it reaches `n`. */
  function Extent(w: string, n: nat, limit: Limit): (r: nat)
    requires 1 <= n <= |w|
    ensures 1 <= r <= |w|
    decreases |w| - n
  {
    if n >= limit then
      CutBounds(w[..n]);
      Cut(w[..n])
    else if Ends(w, n) then n
    else Extent(w, n + 1, limit)
  }

  /** The start of a sentence that has not ended before its last byte. */
  predicate Growing(p: string, limit: Limit) {
    && |p| <= limit
    && (p != "" ==> !IsGap(p[0]))
    && forall k | 1 <= k < |p| :: !Ends(p, k)
  }

  predicate Open(p: string, limit: Limit) {
    Growing(p, limit) && |p| < limit && !Stop(p)
  }

  /** A sentence that only the end of the text would end. */
  predicate Unfinished(tokens: seq<Token>, limit: Limit) {
    var w := Speech(tokens);
    |w| == |tokens| && Open(w, limit)
  }

  /** The sentences of the tokens of a text; of one that is not `closed`, the finished sentences. */
  function Sentences(tokens: seq<Token>, e: Expression, limit: Limit, closed: bool := true): seq<Segment>
    decreases |tokens|
  {
    if tokens == [] then []
    else
      match tokens[0]
      case Mark(f) => Sentences(tokens[1..], f, limit, closed)
      case Ch(c) =>
        if IsGap(c) then Sentences(tokens[1..], e, limit, closed)
        else if !closed && Unfinished(tokens, limit) then []
        else
          var w := Speech(tokens);
          var n := Extent(w, 1, limit);
          [Segment(e, w[..n])] + Sentences(tokens[n..], e, limit, closed)
  }

  // ------------------------------------- the machine emits the sentences

  lemma ChsJoin(a: string, b: string, tokens: seq<Token>)
    ensures Chs(a + b) + tokens == Chs(a) + (Chs(b) + tokens)
  {
    assert Chs(a + b) == Chs(a) + Chs(b);
    hide Chs;
  }

  lemma ChsOne(c: char, tokens: seq<Token>)
    ensures Chs([c]) + tokens == [Ch(c)] + tokens
    ensures Chs("") + tokens == tokens
  {
  }

  lemma ChsDrop(p: string, n: nat, tokens: seq<Token>)
    requires n <= |p|
    ensures n <= |Chs(p) + tokens| && (Chs(p) + tokens)[n..] == Chs(p[n..]) + tokens
  {
    assert p[..n] + p[n..] == p;
    ChsJoin(p[..n], p[n..], tokens);
  }

  lemma {:induction false} SpeechJoin(p: string, tokens: seq<Token>)
    ensures Speech(Chs(p) + tokens) == p + Speech(tokens)
    decreases |p|
  {
    hide *;
    if p == "" {
      ChsOne('a', tokens);
      assert p + Speech(tokens) == Speech(tokens);
    } else {
      var q := p[1..];
      SpeechJoin(q, tokens);
      assert [p[0]] + q == p;
      ChsJoin([p[0]], q, tokens);
      ChsOne(p[0], Chs(q) + tokens);
      SpeechNext(p[0], Chs(q) + tokens);
      BytesJoin(p[0], q, Speech(tokens));
    }
  }

  lemma SpeechNext(c: char, rest: seq<Token>)
    ensures Speech([Ch(c)] + rest) == [c] + Speech(rest)
  {
    assert ([Ch(c)] + rest)[1..] == rest;
  }

  lemma EndsEarly(p: string, more: string, k: nat)
    requires 1 <= k < |p|
    ensures Ends(p + more, k) == Ends(p, k)
  {
    assert (p + more)[..k] == p[..k];
  }

  lemma ExtentSkips(p: string, more: string, n: nat, limit: Limit)
    requires Growing(p, limit) && 1 <= n <= |p|
    ensures Extent(p + more, n, limit) == Extent(p + more, |p|, limit)
    decreases |p| - n
  {
    if n < |p| {
      EndsEarly(p, more, n);
      ExtentSkips(p, more, n + 1, limit);
    }
  }

  /** The first sentence of a text that begins with a growing one. */
  lemma FirstSentence(p: string, tokens: seq<Token>, e: Expression, limit: Limit, closed: bool)
    requires p != "" && Growing(p, limit) && (closed || !Unfinished(Chs(p) + tokens, limit))
    ensures
      var w := p + Speech(tokens);
      var n := Extent(w, |p|, limit);
      && n <= |Chs(p) + tokens|
      && Sentences(Chs(p) + tokens, e, limit, closed)
      == [Segment(e, w[..n])] + Sentences((Chs(p) + tokens)[n..], e, limit, closed)
  {
    SpeechJoin(p, tokens);
    ExtentSkips(p, Speech(tokens), 1, limit);
    hide Extent, Speech, Ends, Unfinished;
    assert (Chs(p) + tokens)[0] == Ch(p[0]);
  }

  /** A sentence that ends is finished, unless it is the end of the text that ends it. */
  lemma NowFinished(p: string, tokens: seq<Token>, limit: Limit)
    requires p != "" && Ends(p + Speech(tokens), |p|) && (tokens != [] || Stop(p))
    ensures !Unfinished(Chs(p) + tokens, limit)
  {
    SpeechJoin(p, tokens);
    var w := p + Speech(tokens);
    assert w[..|p|] == p;
    if |w| == |p| {
      assert w == p;
    }
    hide Stop;
  }

  lemma SentenceEnds(p: string, tokens: seq<Token>, e: Expression, limit: Limit, closed: bool)
    requires p != "" && Growing(p, limit) && |p| < limit
    requires Ends(p + Speech(tokens), |p|) && (closed || tokens != [] || Stop(p))
    ensures Sentences(Chs(p) + tokens, e, limit, closed) == [Segment(e, p)] + Sentences(tokens, e, limit, closed)
  {
    if !closed {
      NowFinished(p, tokens, limit);
    }
    FirstSentence(p, tokens, e, limit, closed);
    ChsDrop(p, |p|, tokens);
    ChsOne('a', tokens);
    assert (p + Speech(tokens))[..|p|] == p && p[|p|..] == "";
    hide Sentences, Ends, Growing, Speech, Chs, Unfinished;
  }

  lemma FullIsFinished(p: string, tokens: seq<Token>, limit: Limit)
    requires |p| == limit
    ensures !Unfinished(Chs(p) + tokens, limit)
  {
    SpeechJoin(p, tokens);
    hide Growing, Stop, Speech;
  }

  lemma SentenceCut(p: string, tokens: seq<Token>, e: Expression, limit: Limit, closed: bool)
    requires Growing(p, limit) && |p| == limit
    ensures Sentences(Chs(p) + tokens, e, limit, closed)
         == [Segment(e, p[..Cut(p)])] + Sentences(Chs(p[Cut(p)..]) + tokens, e, limit, closed)
  {
    var w, n := p + Speech(tokens), Cut(p);
    FullIsFinished(p, tokens, limit);
    hide Sentences, Ends, Growing, Speech, Cut, Chs, Unfinished;
    FirstSentence(p, tokens, e, limit, closed);
    ChsDrop(p, n, tokens);
    assert w[..|p|] == p && w[..n] == p[..n];
  }

  lemma CarriedIsNoStop(q: string)
    requires IsCarried(q)
    ensures |q| < 4 && !Stop(q)
    ensures forall k | 0 <= k < |q| :: q[k] as int >= 0x80
  {
    if |q| == 3 {
      assert q[0] == q[|q| - 3..][0];
    }
  }

  lemma CarriedEndsLate(q: string, k: nat)
    requires IsCarried(q) && 1 <= k < |q|
    ensures !Ends(q, k)
  {
    CarriedIsNoStop(q);
    assert IsCarried(q[..k]);
    CarriedIsNoStop(q[..k]);
    hide Stop, IsCarried;
    assert q[k] as int >= 0x80 && q[k - 1] as int >= 0x80;
  }

  lemma CarriedIsOpen(q: string, limit: Limit)
    requires IsCarried(q)
    ensures Open(q, limit)
  {
    CarriedIsNoStop(q);
    forall k | 1 <= k < |q| ensures !Ends(q, k) {
      CarriedEndsLate(q, k);
    }
    hide Ends, Stop, IsCarried;
  }

  lemma Grows(p: string, c: char, limit: Limit)
    requires Open(p, limit)
    requires p == "" ==> !IsGap(c)
    requires p != "" ==> !IsNewline(c) && !(p[|p| - 1] == '.' && IsSpace(c))
    ensures Growing(p + [c], limit)
  {
    forall k | 1 <= k < |p + [c]| ensures !Ends(p + [c], k) {
      if k < |p| {
        EndsEarly(p, [c], k);
      } else {
        assert (p + [c])[..k] == p;
        hide Stop;
      }
    }
    hide Ends;
  }

  /** What the machine's state stands for between two tokens. */
  predicate Agrees(t: Talk, limit: Limit) {
    && t.marker == ""
    && Open(t.pending, limit)
    && (t.pending != "" ==> (t.dot <==> t.pending[|t.pending| - 1] == '.'))
  }

  /** The sentences a state still owes, with the bytes it has already taken in put back. */
  function Owed(t: Talk, tokens: seq<Token>, limit: Limit, closed: bool): seq<Segment> {
    Sentences(Chs(t.pending) + tokens, t.expression, limit, closed)
  }

  lemma NoPending(t: Talk, tokens: seq<Token>, limit: Limit, closed: bool)
    requires t.pending == ""
    ensures Owed(t, tokens, limit, closed) == Sentences(tokens, t.expression, limit, closed)
  {
    assert Chs("") + tokens == tokens;
    hide Sentences;
  }

  lemma EmitOwed(t: Talk, tokens: seq<Token>, limit: Limit, closed: bool)
    requires Growing(t.pending, limit) && |t.pending| < limit
    requires t.pending != "" ==> Ends(t.pending + Speech(tokens), |t.pending|)
    requires closed || tokens != [] || t.pending == "" || Stop(t.pending)
    ensures Owed(t, tokens, limit, closed) == Emit(t).segments + Sentences(tokens, t.expression, limit, closed)
  {
    hide Sentences, Growing, Ends, Speech, Stop;
    if t.pending == "" {
      NoPending(t, tokens, limit, closed);
    } else {
      SentenceEnds(t.pending, tokens, t.expression, limit, closed);
    }
  }

  lemma HearMark(t: Talk, e: Expression, rest: seq<Token>, limit: Limit, closed: bool)
    requires Agrees(t, limit)
    ensures
      var r := Hear(t, Mark(e), limit);
      && Agrees(r.state, limit)
      && Owed(t, [Mark(e)] + rest, limit, closed) == r.segments + Owed(r.state, rest, limit, closed)
  {
    var tokens := [Mark(e)] + rest;
    assert t.pending + Speech(tokens) == t.pending;
    EmitOwed(t, tokens, limit, closed);
    NoPending(Hear(t, Mark(e), limit).state, rest, limit, closed);
    assert tokens[1..] == rest;
    hide Growing, Ends, Owed;
  }

  /** A byte that only separates sentences. */
  lemma HearGap(t: Talk, c: char, rest: seq<Token>, limit: Limit, closed: bool)
    requires Agrees(t, limit) && IsGap(c)
    requires IsNewline(c) || t.pending == "" || t.dot
    ensures
      var r := Hear(t, Ch(c), limit);
      && Agrees(r.state, limit)
      && Owed(t, [Ch(c)] + rest, limit, closed) == r.segments + Owed(r.state, rest, limit, closed)
  {
    var tokens := [Ch(c)] + rest;
    var r := Hear(t, Ch(c), limit);
    assert tokens[1..] == rest;
    if t.pending != "" {
      var w := t.pending + Speech(tokens);
      assert w[|t.pending|] == c && w[|t.pending| - 1] == t.pending[|t.pending| - 1];
      assert Ends(w, |t.pending|) by { hide Stop, Speech; }
    }
    EmitOwed(t, tokens, limit, closed);
    NoPending(r.state, rest, limit, closed);
    hide Growing, Ends, Owed, AppendText, Speech;
    assert [] + Emit(t).segments == Emit(t).segments && Emit(t).segments + [] == Emit(t).segments;
  }

  /** A byte that becomes part of a sentence. */
  lemma HearByte(t: Talk, c: char, rest: seq<Token>, limit: Limit, closed: bool)
    requires Agrees(t, limit)
    requires IsGap(c) ==> !IsNewline(c) && t.pending != "" && !t.dot
    ensures
      var r := Hear(t, Ch(c), limit);
      && Agrees(r.state, limit)
      && Owed(t, [Ch(c)] + rest, limit, closed) == r.segments + Owed(r.state, rest, limit, closed)
  {
    var u := t.(dot := false);
    assert Hear(t, Ch(c), limit) == Speak(u, c, limit) by { hide Speak, Agrees; }
    var p := t.pending + [c];
    Grows(t.pending, c, limit);
    ChsJoin(t.pending, [c], rest);
    ChsOne(c, rest);
    assert Owed(t, [Ch(c)] + rest, limit, closed) == Owed(u.(pending := p), rest, limit, closed) by { hide Sentences; }
    if |p| < limit {
      assert AppendText(u, c, limit) == Result(u.(pending := p), []);
      ByteFits(u, c, rest, limit, closed);
    } else {
      ByteCuts(u, c, rest, limit, closed);
    }
  }

  lemma NothingFirst(segments: seq<Segment>)
    ensures [] + segments == segments
  {
  }

  lemma ByteFits(u: Talk, c: char, rest: seq<Token>, limit: Limit, closed: bool)
    requires u.marker == "" && !u.dot && !IsNewline(c) && (u.pending == "" ==> !IsGap(c))
    requires Growing(u.pending + [c], limit) && |u.pending + [c]| < limit
    ensures
      var r := Speak(u, c, limit);
      && Agrees(r.state, limit)
      && Owed(u.(pending := u.pending + [c]), rest, limit, closed) == r.segments + Owed(r.state, rest, limit, closed)
  {
    var p := u.pending + [c];
    var v := u.(pending := p);
    assert AppendText(u, c, limit) == Result(v, []) by { hide Growing; }
    assert Speak(u, c, limit) == if Stop(p) then Emit(v) else Result(v.(dot := c == '.'), []) by {
      hide Growing, Cut, AppendText;
      NothingFirst(Emit(v).segments);
    }
    if Stop(p) {
      assert (p + Speech(rest))[..|p|] == p;
      EmitOwed(v, rest, limit, closed);
      NoPending(Emit(v).state, rest, limit, closed);
    } else {
      NothingFirst(Owed(v, rest, limit, closed));
    }
    hide Ends, Owed, Speech, Speak, AppendText, TailIsTerminator;
  }

  lemma ByteCuts(u: Talk, c: char, rest: seq<Token>, limit: Limit, closed: bool)
    requires u.marker == "" && !u.dot && !IsNewline(c) && (u.pending == "" ==> !IsGap(c))
    requires Growing(u.pending + [c], limit) && |u.pending + [c]| == limit
    ensures
      var r := Speak(u, c, limit);
      && Agrees(r.state, limit)
      && Owed(u.(pending := u.pending + [c]), rest, limit, closed) == r.segments + Owed(r.state, rest, limit, closed)
  {
    var p := u.pending + [c];
    CutBounds(p);
    CarriedOver(p);
    var q := p[Cut(p)..];
    CarriedIsOpen(q, limit);
    SentenceCut(p, rest, u.expression, limit, closed);
    LastStays(p);
    SpeakCuts(u, c, limit);
    hide Growing, Ends, Sentences, Cut, TailIsTerminator, Speak, Stop, Chs, IsCarried;
    assert q != "" ==> q[|q| - 1] == c;
  }

  /** Filling the buffer emits what the cut leaves; a terminator byte is never carried over. */
  lemma SpeakCuts(u: Talk, c: char, limit: Limit)
    requires !u.dot && !IsNewline(c) && (u.pending == "" ==> !IsGap(c))
    requires |u.pending + [c]| == limit
    ensures
      var p := u.pending + [c];
      var q := p[Cut(p)..];
      Speak(u, c, limit) == Result(u.(pending := q, dot := c == '.'), [Segment(u.expression, p[..Cut(p)])])
  {
    var p := u.pending + [c];
    CutBounds(p);
    CarriedOver(p);
    CarriedIsNoStop(p[Cut(p)..]);
    LastStays(p);
    hide Cut, TailIsTerminator, IsCarried;
    assert forall s: seq<Segment> :: s + [] == s;
  }

  /** A buffer whose last byte is not part of a longer character is cut at its end. */
  lemma LastStays(p: string)
    requires p != ""
    ensures p[|p| - 1] as int < 0x80 ==> Cut(p) == |p|
  {
  }

  lemma HearOwed(t: Talk, token: Token, rest: seq<Token>, limit: Limit, closed: bool)
    requires Agrees(t, limit)
    ensures
      var r := Hear(t, token, limit);
      && Agrees(r.state, limit)
      && Owed(t, [token] + rest, limit, closed) == r.segments + Owed(r.state, rest, limit, closed)
  {
    match token
    case Mark(e) => HearMark(t, e, rest, limit, closed);
    case Ch(c) =>
      if IsGap(c) && (IsNewline(c) || t.pending == "" || t.dot) {
        HearGap(t, c, rest, limit, closed);
      } else {
        HearByte(t, c, rest, limit, closed);
      }
  }

  lemma {:induction false} HeardOwed(t: Talk, tokens: seq<Token>, limit: Limit, closed: bool)
    requires Agrees(t, limit)
    ensures Heard(t, tokens, limit, closed) == Owed(t, tokens, limit, closed)
    decreases |tokens|
  {
    hide Hear, Agrees, Owed;
    if tokens == [] {
      EndOwed(t, limit, closed);
    } else {
      assert tokens == [tokens[0]] + tokens[1..];
      HearOwed(t, tokens[0], tokens[1..], limit, closed);
      HeardStep(t, tokens[0], tokens[1..], limit, closed);
      HeardOwed(Hear(t, tokens[0], limit).state, tokens[1..], limit, closed);
    }
  }

  lemma EndOwed(t: Talk, limit: Limit, closed: bool)
    requires Agrees(t, limit)
    ensures Owed(t, [], limit, closed) == if closed then Emit(t).segments else []
  {
    SpeechJoin(t.pending, []);
    if closed {
      EmitOwed(t, [], limit, closed);
    } else {
      assert t.pending + Speech([]) == t.pending && |Chs(t.pending) + []| == |t.pending|;
      hide Growing, Speech;
    }
  }

  /** The segmenter emits the sentences of the text. */
  lemma EmitsSentences(text: string, limit: Limit)
    ensures SegmentsOf(text, limit) == Sentences(Tokens(text), Neutral, limit)
  {
    SaidIsSentences(text, limit, true);
    assert SegmentsOf(text, limit) == Said(SILENT, text, limit, true) by { hide *; }
  }

  lemma SaidIsSentences(text: string, limit: Limit, closed: bool)
    ensures Said(SILENT, text, limit, closed) == Sentences(Tokens(text, closed), Neutral, limit, closed)
  {
    assert Agrees(SILENT, limit);
    hide *;
    SaidIsDue(SILENT, text, limit, closed);
    DueOutside(SILENT, text, limit, closed);
    HeardOwed(SILENT, Tokens(text, closed), limit, closed);
    NoPending(SILENT, Tokens(text, closed), limit, closed);
  }

  /** The sentences that a text finishes: no text that follows can change them. */
  function Finished(text: string, limit: Limit): seq<Segment> {
    Sentences(Tokens(text, false), Neutral, limit, false)
  }

  /** Before any flush the segmenter has emitted exactly the sentences that the text so far finishes. */
  lemma EmitsFinished(text: string, limit: Limit)
    ensures Run(SILENT, text, limit).segments == Finished(text, limit)
  {
    SaidIsSentences(text, limit, false);
    hide Run, Sentences, Tokens;
  }

  /** What one more piece of a text emits is what it finishes. */
  lemma PieceFinishes(x: string, y: string, limit: Limit)
    ensures Finished(x + y, limit) == Finished(x, limit) + Run(Run(SILENT, x, limit).state, y, limit).segments
  {
    hide *;
    RunAppend(SILENT, x, y, limit);
    EmitsFinished(x, limit);
    EmitsFinished(x + y, limit);
  }

  /** However the text arrives: any two pieces say what the whole says. */
  lemma AnySplit(x: string, y: string, limit: Limit)
    ensures
      var r := Run(SILENT, x, limit);
      var s := Run(r.state, y, limit);
      r.segments + s.segments + Flush(s.state, limit).segments == Sentences(Tokens(x + y), Neutral, limit)
  {
    RunAppend(SILENT, x, y, limit);
    EmitsSentences(x + y, limit);
    hide Run, Flush, Sentences, Tokens;
  }

  // -------------------------------------------------- what a segment looks like

  lemma {:induction false} ExtentGrows(w: string, n: nat, limit: Limit)
    requires 1 <= n <= |w| && n <= limit
    requires forall k | 1 <= k < n :: !Ends(w, k)
    ensures var r := Extent(w, n, limit); r <= limit && forall k | 1 <= k < r :: !Ends(w, k)
    decreases |w| - n
  {
    if n < limit && !Ends(w, n) {
      ExtentGrows(w, n + 1, limit);
    }
  }

  /** The first sentence of some speech that does not begin with a gap. */
  lemma FirstShape(w: string, limit: Limit)
    requires w != "" && !IsGap(w[0])
    ensures
      var text := w[..Extent(w, 1, limit)];
      && 0 < |text| <= limit && Growing(text, limit)
      && forall j | 0 <= j < |text| :: !IsNewline(text[j])
  {
    var n := Extent(w, 1, limit);
    ExtentGrows(w, 1, limit);
    var text := w[..n];
    hide Extent;
    assert text + w[n..] == w;
    forall j | 1 <= j < n ensures !Ends(text, j) && !IsNewline(text[j]) {
      EndsEarly(text, w[n..], j);
      EndsAtNewline(text, j);
      hide Ends;
    }
    hide Ends;
  }

  lemma EndsAtNewline(w: string, n: nat)
    requires 1 <= n < |w|
    ensures IsNewline(w[n]) ==> Ends(w, n)
  {
    hide Stop;
  }

  /** A segment is not empty and not over the limit, does not begin with a gap, holds no newline, and holds
      a sentence end at most at its end. */
  lemma {:induction false} SegmentShape(tokens: seq<Token>, e: Expression, limit: Limit, k: nat)
    requires k < |Sentences(tokens, e, limit)|
    ensures
      var text := Sentences(tokens, e, limit)[k].text;
      && 0 < |text| <= limit && Growing(text, limit)
      && forall j | 0 <= j < |text| :: !IsNewline(text[j])
    decreases |tokens|
  {
    if tokens[0].Mark? {
      SegmentShape(tokens[1..], tokens[0].expression, limit, k);
    } else if IsGap(tokens[0].c) {
      SegmentShape(tokens[1..], e, limit, k);
    } else {
      var w := Speech(tokens);
      var n := Extent(w, 1, limit);
      if k > 0 {
        SegmentShape(tokens[n..], e, limit, k - 1);
      } else {
        hide Sentences, Speech, Extent, Growing;
        FirstShape(w, limit);
      }
    }
  }

  // ------------------------------------------------------ no byte is lost

  function SpeechBytes(tokens: seq<Token>): string {
    if tokens == [] then ""
    else (if tokens[0].Ch? then [tokens[0].c] else "") + SpeechBytes(tokens[1..])
  }

  /** The blanks and newlines that are not spoken: before the first sentence, and after every sentence. */
  function Between(tokens: seq<Token>, limit: Limit): (r: seq<string>)
    ensures r != []
    decreases |tokens|
  {
    if tokens == [] then [""]
    else if tokens[0].Mark? then Between(tokens[1..], limit)
    else if IsGap(tokens[0].c) then
      var rest := Between(tokens[1..], limit);
      [[tokens[0].c] + rest[0]] + rest[1..]
    else [""] + Between(tokens[Extent(Speech(tokens), 1, limit)..], limit)
  }

  /** Segments with what stands before, between and after them. */
  function Woven(gaps: seq<string>, segments: seq<Segment>): string
    requires |gaps| == |segments| + 1
  {
    if segments == [] then gaps[0] else gaps[0] + segments[0].text + Woven(gaps[1..], segments[1..])
  }

  /** What tokens stand for. */
  function Spelt(tokens: seq<Token>): string {
    if tokens == [] then ""
    else (match tokens[0] case Mark(e) => MarkerText(e) case Ch(c) => [c]) + Spelt(tokens[1..])
  }

  lemma SpeltFirst(token: Token, rest: seq<Token>)
    ensures Spelt([token] + rest) == (match token case Mark(e) => MarkerText(e) case Ch(c) => [c]) + Spelt(rest)
  {
    hide MarkerText;
    assert ([token] + rest)[1..] == rest;
  }

  lemma TokensAtMark(text: string)
    requires MarkerOf(text).Some?
    ensures
      var mark := MarkerText(MarkerOf(text).value);
      && 0 < |mark| <= |text| && text == mark + text[|mark|..]
      && Tokens(text) == [Mark(MarkerOf(text).value)] + Tokens(text[|mark|..])
  {
    MarkerOfStarts(text);
    hide MarkerOf, NameOf;
  }

  /** The tokens of a text spell it: speech and recognised markers are all there is. */
  lemma {:induction false} TokensSpell(text: string)
    ensures Spelt(Tokens(text)) == text
    decreases |text|
  {
    hide MarkerOf, MarkerText, Spelt;
    if text == "" {
      NothingSpelt();
    } else if MarkerOf(text).Some? {
      var e := MarkerOf(text).value;
      TokensAtMark(text);
      var rest := text[|MarkerText(e)|..];
      hide Tokens;
      TokensSpell(rest);
      SpeltFirst(Mark(e), Tokens(rest));
    } else {
      TokensFirst(text);
      hide Tokens;
      TokensSpell(text[1..]);
      SpeltFirst(Ch(text[0]), Tokens(text[1..]));
      assert text == [text[0]] + text[1..];
    }
  }

  lemma NothingSpelt()
    ensures Spelt(Tokens("")) == ""
  {
  }

  lemma SpeechBytesNext(c: char, rest: seq<Token>)
    ensures SpeechBytes([Ch(c)] + rest) == [c] + SpeechBytes(rest)
  {
    assert ([Ch(c)] + rest)[1..] == rest;
  }

  lemma {:induction false} SpeechBytesDrop(tokens: seq<Token>, n: nat)
    requires n <= |Speech(tokens)|
    ensures SpeechBytes(tokens) == Speech(tokens)[..n] + SpeechBytes(tokens[n..])
    decreases n
  {
    if n == 0 {
      hide Speech, SpeechBytes;
      assert tokens[0..] == tokens;
      assert Speech(tokens)[..0] + SpeechBytes(tokens) == SpeechBytes(tokens);
    } else {
      var c, rest := tokens[0].c, tokens[1..];
      hide Speech, SpeechBytes;
      assert tokens == [Ch(c)] + rest;
      SpeechNext(c, rest);
      SpeechBytesNext(c, rest);
      SpeechBytesDrop(rest, n - 1);
      assert rest[n - 1..] == tokens[n..];
      TakeFirst(c, Speech(rest), n);
      BytesJoin(c, Speech(rest)[..n - 1], SpeechBytes(tokens[n..]));
    }
  }

  lemma TakeFirst(c: char, w: string, n: nat)
    requires 0 < n <= |w| + 1
    ensures ([c] + w)[..n] == [c] + w[..n - 1]
  {
  }

  lemma BytesJoin(c: char, a: string, b: string)
    ensures [c] + (a + b) == [c] + a + b
  {
  }

  lemma WovenGap(c: char, gaps: seq<string>, segments: seq<Segment>)
    requires |gaps| == |segments| + 1
    ensures Woven([[c] + gaps[0]] + gaps[1..], segments) == [c] + Woven(gaps, segments)
  {
    assert ([[c] + gaps[0]] + gaps[1..])[1..] == gaps[1..];
    if segments != [] {
      var rest := Woven(gaps[1..], segments[1..]);
      assert [c] + gaps[0] + segments[0].text + rest == [c] + (gaps[0] + segments[0].text + rest);
    }
  }

  lemma WovenSentence(s: Segment, gaps: seq<string>, segments: seq<Segment>)
    requires |gaps| == |segments| + 1
    ensures Woven([""] + gaps, [s] + segments) == s.text + Woven(gaps, segments)
  {
    assert ([""] + gaps)[1..] == gaps && ([s] + segments)[1..] == segments;
    assert "" + s.text == s.text;
  }

  predicate AllGap(gaps: seq<string>) {
    forall j, k | 0 <= j < |gaps| && 0 <= k < |gaps[j]| :: IsGap(gaps[j][k])
  }

  lemma AllGapMore(c: char, gaps: seq<string>)
    requires gaps != [] && AllGap(gaps) && IsGap(c)
    ensures AllGap([[c] + gaps[0]] + gaps[1..])
  {
    var more := [[c] + gaps[0]] + gaps[1..];
    forall j, k | 0 <= j < |more| && 0 <= k < |more[j]| ensures IsGap(more[j][k]) {
      assert j > 0 ==> more[j] == gaps[j];
      assert j == 0 && k > 0 ==> more[0][k] == gaps[0][k - 1];
    }
    hide IsGap;
  }

  /** The bytes outside the markers are the texts of the segments, in order and whole: the only bytes that are
      not spoken are blanks and newlines, and they stand between segments, never inside one. */
  lemma {:induction false} NothingLost(tokens: seq<Token>, e: Expression, limit: Limit)
    ensures
      var segments := Sentences(tokens, e, limit);
      var gaps := Between(tokens, limit);
      && |gaps| == |segments| + 1 && AllGap(gaps)
      && Woven(gaps, segments) == SpeechBytes(tokens)
    decreases |tokens|
  {
    if tokens != [] {
      if tokens[0].Mark? {
        NothingLost(tokens[1..], tokens[0].expression, limit);
        hide Woven, AllGap;
      } else if IsGap(tokens[0].c) {
        NothingLost(tokens[1..], e, limit);
        var rest := Between(tokens[1..], limit);
        WovenGap(tokens[0].c, rest, Sentences(tokens[1..], e, limit));
        AllGapMore(tokens[0].c, rest);
        hide Woven, AllGap;
      } else {
        var w := Speech(tokens);
        var n := Extent(w, 1, limit);
        var rest := Sentences(tokens[n..], e, limit);
        assert Sentences(tokens, e, limit) == [Segment(e, w[..n])] + rest;
        assert Between(tokens, limit) == [""] + Between(tokens[n..], limit);
        hide Sentences, Extent, Between;
        NothingLost(tokens[n..], e, limit);
        SpeechBytesDrop(tokens, n);
        WovenSentence(Segment(e, w[..n]), Between(tokens[n..], limit), rest);
        hide Woven;
      }
    }
  }
}
