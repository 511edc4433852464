/** Which expression a text asks for, and which one its sentences have reached.

    A marker selects the expression of the speech behind it. A listener learns of it only with the first sentence
    that this speech finishes. The module splits a text at its last marker: the sentences of the whole are those
    up to the marker followed by those behind it, and only the latter have the expression in force
    (`LastVoiceIs`). */
module SpeechMarks {
  import opened SpeechSpec
  import opened SpeechMeaning

  /** The position behind the last marker; 0 when there is none. */
  function MarkEnd(tokens: seq<Token>): (r: nat)
    ensures r <= |tokens|
    ensures r > 0 ==> tokens[r - 1].Mark?
    ensures forall k | r <= k < |tokens| :: tokens[k].Ch?
    decreases |tokens|
  {
    if tokens == [] then 0
    else if tokens[|tokens| - 1].Mark? then |tokens|
    else MarkEnd(tokens[..|tokens| - 1])
  }

  function UpToMark(tokens: seq<Token>): seq<Token> { tokens[..MarkEnd(tokens)] }

  function SinceMark(tokens: seq<Token>): seq<Token> { tokens[MarkEnd(tokens)..] }

  /** The expression that the last marker selects. */
  function Selected(tokens: seq<Token>): Expression {
    if MarkEnd(tokens) == 0 then Neutral else tokens[MarkEnd(tokens) - 1].expression
  }

  /** The expression in force at the end of a text that may go on. */
  function InForce(text: string): Expression { Selected(Tokens(text, false)) }

  /** The expression of the last sentence. */
  function LastVoice(segments: seq<Segment>, otherwise: Expression): Expression {
    if segments == [] then otherwise else segments[|segments| - 1].expression
  }

  lemma LastVoiceJoin(a: seq<Segment>, b: seq<Segment>, e: Expression)
    ensures LastVoice(a + b, e) == LastVoice(b, LastVoice(a, e))
  {
  }

  // ------------------------------------------------- cutting at the last marker

  lemma {:induction false} SpeechStops(a: seq<Token>, b: seq<Token>)
    requires a != [] && a[|a| - 1].Mark?
    ensures Speech(a + b) == Speech(a) && |Speech(a)| < |a|
    decreases |a|
  {
    if a[0].Ch? {
      assert (a + b)[1..] == a[1..] + b;
      SpeechStops(a[1..], b);
    }
  }

  lemma SkipsFirst(a: seq<Token>, b: seq<Token>, e: Expression, limit: Limit, closed: bool)
    requires a != [] && (a[0].Mark? || IsGap(a[0].c))
    ensures var f := if a[0].Mark? then a[0].expression else e;
      && Sentences(a + b, e, limit, closed) == Sentences(a[1..] + b, f, limit, closed)
      && Sentences(a, e, limit) == Sentences(a[1..], f, limit)
  {
    hide Extent, Speech, Open;
    assert (a + b)[0] == a[0] && (a + b)[1..] == a[1..] + b;
  }

  lemma NoTokens(e: Expression, limit: Limit)
    ensures Sentences([], e, limit) == []
  {
  }

  /** A marker ends the sentence before it, so what precedes it and what follows it are read apart. */
  lemma {:induction false} SentencesSplit(a: seq<Token>, b: seq<Token>, e: Expression, limit: Limit, closed: bool)
    requires a != [] && a[|a| - 1].Mark?
    ensures Sentences(a + b, e, limit, closed)
         == Sentences(a, e, limit) + Sentences(b, a[|a| - 1].expression, limit, closed)
    decreases |a|
  {
    hide Extent, Speech, Open, Sentences;
    if a[0].Mark? {
      SkipsFirst(a, b, e, limit, closed);
      if |a| > 1 {
        SentencesSplit(a[1..], b, a[0].expression, limit, closed);
      } else {
        assert a[1..] == [] && [] + b == b;
        NothingFirst(Sentences(b, a[0].expression, limit, closed));
        NoTokens(a[0].expression, limit);
      }
    } else if IsGap(a[0].c) {
      SkipsFirst(a, b, e, limit, closed);
      SentencesSplit(a[1..], b, e, limit, closed);
    } else {
      SpeechStops(a, b);
      SentenceFirst(a, b, e, limit, closed);
      var n := Extent(Speech(a), 1, limit);
      SentencesSplit(a[n..], b, e, limit, closed);
      SegmentsJoin([Segment(e, Speech(a)[..n])], Sentences(a[n..], e, limit),
                   Sentences(b, a[|a| - 1].expression, limit, closed));
    }
  }

  lemma SegmentsJoin(a: seq<Segment>, b: seq<Segment>, c: seq<Segment>)
    ensures a + (b + c) == a + b + c
  {
  }

  lemma SentenceFirst(a: seq<Token>, b: seq<Token>, e: Expression, limit: Limit, closed: bool)
    requires a != [] && a[0].Ch? && !IsGap(a[0].c)
    requires Speech(a + b) == Speech(a) && 1 <= |Speech(a)| < |a|
    ensures
      var n := Extent(Speech(a), 1, limit);
      && n < |a| && a[n..][|a| - n - 1] == a[|a| - 1]
      && Sentences(a + b, e, limit, closed)
      == [Segment(e, Speech(a)[..n])] + Sentences(a[n..] + b, e, limit, closed)
      && Sentences(a, e, limit) == [Segment(e, Speech(a)[..n])] + Sentences(a[n..], e, limit)
  {
    hide Extent, Speech, Open;
    var n := Extent(Speech(a), 1, limit);
    assert (a + b)[0] == a[0] && (a + b)[n..] == a[n..] + b;
  }

  /** Without markers all sentences have one expression. */
  lemma {:induction false} OneVoice(tokens: seq<Token>, e: Expression, limit: Limit, closed: bool)
    requires forall k | 0 <= k < |tokens| :: tokens[k].Ch?
    ensures forall s | s in Sentences(tokens, e, limit, closed) :: s.expression == e
    decreases |tokens|
  {
    hide Extent, Unfinished, Speech;
    if tokens != [] {
      if IsGap(tokens[0].c) {
        OneVoice(tokens[1..], e, limit, closed);
      } else if closed || !Unfinished(tokens, limit) {
        OneVoice(tokens[Extent(Speech(tokens), 1, limit)..], e, limit, closed);
      }
    }
  }

  lemma OneLastVoice(segments: seq<Segment>, e: Expression, otherwise: Expression)
    requires forall s | s in segments :: s.expression == e
    ensures LastVoice(segments, otherwise) == if segments == [] then otherwise else e
  {
    if segments != [] {
      assert segments[|segments| - 1] in segments;
    }
  }

  /** The last sentence has the expression in force exactly because the speech since the last marker finishes one;
      otherwise it is the last sentence before that marker. */
  lemma LastVoiceIs(tokens: seq<Token>, limit: Limit, closed: bool)
    ensures
      LastVoice(Sentences(tokens, Neutral, limit, closed), Neutral)
      == if Sentences(SinceMark(tokens), Selected(tokens), limit, closed) != [] then Selected(tokens)
         else LastVoice(Sentences(UpToMark(tokens), Neutral, limit), Neutral)
  {
    hide Sentences, MarkEnd, LastVoice;
    var a, b, e := UpToMark(tokens), SinceMark(tokens), Selected(tokens);
    assert tokens == a + b;
    OneVoice(b, e, limit, closed);
    if a == [] {
      assert a + b == b;
      NoSentence(limit);
      OneLastVoice(Sentences(b, e, limit, closed), e, Neutral);
    } else {
      SentencesSplit(a, b, Neutral, limit, closed);
      var before := Sentences(a, Neutral, limit);
      LastVoiceJoin(before, Sentences(b, e, limit, closed), Neutral);
      OneLastVoice(Sentences(b, e, limit, closed), e, LastVoice(before, Neutral));
    }
  }

  lemma NoSentence(limit: Limit)
    ensures LastVoice(Sentences([], Neutral, limit), Neutral) == Neutral
  {
  }

  // ----------------------------------------------------- the end of a text

  /** Closing a text turns what could have become a marker into speech, and changes nothing else. */
  lemma {:induction false} ClosingAdds(s: string) returns (m: string)
    ensures Tokens(s, true) == Tokens(s, false) + Chs(m)
    decreases |s|
  {
    hide MarkerOf, MarkerText, Chs, IsPartial;
    if s == "" {
      m := "";
      NoChs([]);
      assert Chs("") == [] by { assert Chs("") + [] == Chs(""); }
    } else if MarkerOf(s).Some? {
      TokensAtMark(s);
      var rest := s[|MarkerText(MarkerOf(s).value)|..];
      m := ClosingAdds(rest);
      TokenJoin(Mark(MarkerOf(s).value), Tokens(rest, false), Chs(m));
    } else if IsPartial(s) {
      m := s;
      FailedIsPlain(s);
      assert [] + Chs(m) == Chs(m);
    } else {
      m := ClosingAdds(s[1..]);
      TokenJoin(Ch(s[0]), Tokens(s[1..], false), Chs(m));
    }
  }

  lemma FailedIsPlain(m: string)
    requires m != "" && IsPartial(m)
    ensures Tokens(m, true) == Chs(m)
  {
    FailedMarker(m, "", true);
    hide *;
    assert m + "" == m;
    assert Chs(m) + Tokens("", true) == Chs(m) by { NothingTold(true); }
  }

  lemma {:induction false} ChsKeepMark(tokens: seq<Token>, m: string)
    ensures MarkEnd(tokens + Chs(m)) == MarkEnd(tokens)
    decreases |m|
  {
    if m == "" {
      assert tokens + Chs(m) == tokens;
    } else {
      var all, fewer := tokens + Chs(m), m[..|m| - 1];
      assert all[|all| - 1] == Ch(m[|m| - 1]) && all[..|all| - 1] == tokens + Chs(fewer);
      ChsKeepMark(tokens, fewer);
    }
  }

  /** Whether the text may go on makes no difference to the expression in force. */
  lemma SelectedAtEnd(text: string, closed: bool)
    ensures Selected(Tokens(text, closed)) == InForce(text)
  {
    hide Tokens, Chs, MarkEnd;
    if closed {
      var m := ClosingAdds(text);
      ChsKeepMark(Tokens(text, false), m);
    }
  }
}
