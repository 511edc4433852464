/** Words and what may end them, byte by byte.

    The segmenter and its look-ahead reference agree on what ends a sentence and on what is a marker, because they share
    those predicates. Here they are spelled out: which bytes behind a word finish a sentence, for all bytes, and which
    letters in brackets choose an expression, for all letters. */
module SpeechEnds {
  import opened SpeechSpec

  /** A word that leaves room behind it: letters only. */
  predicate IsWord(w: string, limit: Limit) {
    w != "" && |w| + 4 <= limit && forall k | 0 <= k < |w| :: IsLetter(w[k])
  }

  predicate IsLetter(c: char) { 'a' <= c <= 'z' || 'A' <= c <= 'Z' }

  function Waiting(p: string): Result { Result(SILENT.(pending := p), []) }

  lemma NoCutYet(p: string, c: char, limit: Limit)
    requires |p| + 1 < limit
    ensures AppendText(SILENT.(pending := p), c, limit) == Waiting(p + [c])
  {
  }

  /** One more byte that ends nothing. */
  lemma Grows(p: string, c: char, limit: Limit)
    requires |p| + 1 < limit && c != '[' && c != '!' && c != '?' && c != '.'
    requires !IsNewline(c) && (p == "" ==> !IsSpace(c)) && !TailIsTerminator(p + [c])
    ensures PutChar(SILENT.(pending := p), c, limit) == Waiting(p + [c])
  {
    hide TailIsTerminator, AppendText;
    NoCutYet(p, c, limit);
  }

  /** A terminator ends with a byte beyond the letters, and begins with one. */
  lemma NoTerminator(p: string)
    ensures p != "" && p[|p| - 1] < '\U{80}' ==> !TailIsTerminator(p)
    ensures |p| >= 3 && p[|p| - 3] < '\U{80}' ==> !TailIsTerminator(p)
  {
  }

  lemma {:induction false} WordWaits(w: string, limit: Limit)
    requires w == "" || IsWord(w, limit)
    ensures Run(SILENT, w, limit) == Waiting(w)
    decreases |w|
  {
    if w != "" {
      var front, c := w[..|w| - 1], w[|w| - 1];
      assert w == front + [c] && IsLetter(c);
      hide Run, PutChar, TailIsTerminator;
      WordWaits(front, limit);
      NoTerminator(w);
      Grows(front, c, limit);
      RunOne(SILENT.(pending := front), c, limit);
      RunAppend(SILENT, front, [c], limit);
    } else {
      assert SILENT.(pending := "") == SILENT;
    }
  }

  lemma RunOne(t: Talk, c: char, limit: Limit)
    ensures Run(t, [c], limit) == PutChar(t, c, limit)
  {
    hide PutChar;
    var r := PutChar(t, c, limit);
    assert [c][1..] == "" && r.segments + [] == r.segments;
  }

  lemma RunTwo(t: Talk, x: string, c: char, limit: Limit)
    ensures
      var r := Run(t, x, limit);
      var s := PutChar(r.state, c, limit);
      Run(t, x + [c], limit) == Result(s.state, r.segments + s.segments)
  {
    hide Run, PutChar;
    RunAppend(t, x, [c], limit);
    RunOne(Run(t, x, limit).state, c, limit);
  }

  /** Behind a word, a byte finishes a sentence if and only if it is '!', '?', or a newline; the newline is dropped. */
  lemma OneByteEnds(w: string, c: char, limit: Limit)
    requires IsWord(w, limit)
    ensures Run(SILENT, w + [c], limit).segments
         == if c == '!' || c == '?' then [Segment(Neutral, w + [c])]
            else if c == '\n' || c == '\r' then [Segment(Neutral, w)]
            else []
  {
    hide Run, TailIsTerminator;
    WordWaits(w, limit);
    RunTwo(SILENT, w, c, limit);
    NoCutYet(w, c, limit);
    if |w| >= 2 {
      assert (w + [c])[|w + [c]| - 3] == w[|w| - 2];
    }
    NoTerminator(w + [c]);
    ShortTail(w + [c]);
    hide AppendText;
  }

  lemma ShortTail(p: string)
    ensures |p| < 3 ==> !TailIsTerminator(p)
  {
  }

  /** Behind a word and a dot, a byte finishes the sentence if and only if it is white space, or ends it by itself. */
  lemma DotEnds(w: string, c: char, limit: Limit)
    requires IsWord(w, limit)
    ensures Run(SILENT, w + ".", limit).segments == []
    ensures Run(SILENT, w + "." + [c], limit).segments
         == if c == ' ' || c == '\t' || c == '\n' || c == '\r' then [Segment(Neutral, w + ".")]
            else if c == '!' || c == '?' then [Segment(Neutral, w + "." + [c])]
            else []
  {
    hide Run, TailIsTerminator;
    WordWaits(w, limit);
    RunTwo(SILENT, w, '.', limit);
    NoCutYet(w, '.', limit);
    RunTwo(SILENT, w + ".", c, limit);
    NoCutYet(w + ".", c, limit);
    assert (w + "." + [c])[|w + "." + [c]| - 3] == w[|w| - 1];
    NoTerminator(w + "." + [c]);
    hide AppendText;
  }

  /** Behind a word, three bytes beyond the ASCII range finish a sentence if and only if they are the ideographic full
      stop, the full-width exclamation mark, or the full-width question mark, in UTF-8. */
  lemma ThreeBytesEnd(w: string, a: char, b: char, c: char, limit: Limit)
    requires IsWord(w, limit) && a >= '\U{80}' && b >= '\U{80}' && c >= '\U{80}'
    ensures Run(SILENT, w + [a] + [b] + [c], limit).segments
         == if || (a == '\U{E3}' && b == '\U{80}' && c == '\U{82}')
               || (a == '\U{EF}' && b == '\U{BC}' && c == '\U{81}')
               || (a == '\U{EF}' && b == '\U{BC}' && c == '\U{9F}')
            then [Segment(Neutral, w + [a] + [b] + [c])] else []
  {
    hide Run, TailIsTerminator, PutChar;
    var p, q, r := w + [a], w + [a] + [b], w + [a] + [b] + [c];
    WordWaits(w, limit);
    RunTwo(SILENT, w, a, limit);
    RunTwo(SILENT, p, b, limit);
    RunTwo(SILENT, q, c, limit);
    ShortTail(p);
    if |w| >= 2 {
      assert p[|p| - 3] == w[|w| - 2];
    }
    NoTerminator(p);
    assert q[|q| - 3] == w[|w| - 1];
    NoTerminator(q);
    Grows(w, a, limit);
    Grows(p, b, limit);
    TailOfThree(w, a, b, c);
    LastGrows(q, c, limit);
  }

  lemma TailOfThree(w: string, a: char, b: char, c: char)
    ensures TailIsTerminator(w + [a] + [b] + [c]) <==>
      || (a == '\U{E3}' && b == '\U{80}' && c == '\U{82}')
      || (a == '\U{EF}' && b == '\U{BC}' && c == '\U{81}')
      || (a == '\U{EF}' && b == '\U{BC}' && c == '\U{9F}')
  {
    var r := w + [a] + [b] + [c];
    assert r[|r| - 3..] == [a, b, c];
  }

  lemma LastGrows(p: string, c: char, limit: Limit)
    requires |p| + 1 < limit && c >= '\U{80}'
    ensures PutChar(SILENT.(pending := p), c, limit)
         == if TailIsTerminator(p + [c]) then Result(SILENT, [Segment(Neutral, p + [c])]) else Waiting(p + [c])
  {
    hide TailIsTerminator, AppendText;
    NoCutYet(p, c, limit);
    assert [] + [Segment(Neutral, p + [c])] == [Segment(Neutral, p + [c])];
  }

  // ------------------------------------------------------------- markers

  /** A name that fits a marker: one to seven small letters. */
  predicate IsMarkerName(name: string) {
    1 <= |name| <= 7 && forall k | 0 <= k < |name| :: 'a' <= name[k] <= 'z'
  }

  lemma {:induction false} MarkerGrows(name: string, limit: Limit)
    requires |name| <= 7 && forall k | 0 <= k < |name| :: 'a' <= name[k] <= 'z'
    ensures Run(SILENT, "[" + name, limit) == Result(SILENT.(marker := "[" + name), [])
    decreases |name|
  {
    if name == "" {
      assert "[" + name == "[" && "["[1..] == "";
    } else {
      var front, c := name[..|name| - 1], name[|name| - 1];
      hide Run;
      MarkerGrows(front, limit);
      RunTwo(SILENT, "[" + front, c, limit);
      assert "[" + front + [c] == "[" + name;
    }
  }

  /** Small letters in brackets choose an expression if and only if they are one of the six names; any others are text,
      brackets and all. */
  lemma MarkersExactly(name: string, limit: Limit)
    requires IsMarkerName(name) && |name| + 2 < limit
    ensures
      var r := Run(SILENT, "[" + name + "]", limit);
      && r.segments == []
      && r.state == if name == "neutral" then SILENT
                    else if name == "happy" then SILENT.(expression := Happy)
                    else if name == "sad" then SILENT.(expression := Sad)
                    else if name == "doubt" then SILENT.(expression := Doubt)
                    else if name == "sleepy" then SILENT.(expression := Sleepy)
                    else if name == "angry" then SILENT.(expression := Angry)
                    else SILENT.(pending := "[" + name + "]")
  {
    hide Run, AppendAll;
    MarkerGrows(name, limit);
    RunTwo(SILENT, "[" + name, ']', limit);
    assert ("[" + name)[1..] == name;
    AllWait("", "[" + name + "]", limit);
    assert "" + ("[" + name + "]") == "[" + name + "]";
  }

  lemma {:induction false} AllWait(p: string, text: string, limit: Limit)
    requires |p| + |text| < limit
    ensures AppendAll(SILENT.(pending := p), text, limit) == Waiting(p + text)
    decreases |text|
  {
    if text == "" {
      assert p + text == p;
    } else {
      hide AppendText;
      var c, rest := text[0], text[1..];
      NoCutYet(p, c, limit);
      AllWait(p + [c], rest, limit);
      Shifted(p, text);
    }
  }

  lemma Shifted(p: string, text: string)
    requires text != ""
    ensures (p + [text[0]]) + text[1..] == p + text
  {
  }
}
