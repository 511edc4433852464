/** UTF-8 as section 4 of RFC 3629 defines it, and the promise that speech is only cut between characters. */
module Utf8 {
  import opened SpeechSpec
  import opened SpeechMeaning

  predicate Between(c: char, low: nat, high: nat) { low <= c as int <= high }

  predicate IsTail(c: char) { Between(c, 0x80, 0xBF) }

  predicate IsTwo(s: string) {
    |s| >= 2 && Between(s[0], 0xC2, 0xDF) && IsTail(s[1])
  }

  predicate IsThree(s: string) {
    && |s| >= 3 && IsTail(s[2])
    && (|| (s[0] as int == 0xE0 && Between(s[1], 0xA0, 0xBF))
        || (Between(s[0], 0xE1, 0xEC) && IsTail(s[1]))
        || (s[0] as int == 0xED && Between(s[1], 0x80, 0x9F))
        || (Between(s[0], 0xEE, 0xEF) && IsTail(s[1])))
  }

  predicate IsFour(s: string) {
    && |s| >= 4 && IsTail(s[2]) && IsTail(s[3])
    && (|| (s[0] as int == 0xF0 && Between(s[1], 0x90, 0xBF))
        || (Between(s[0], 0xF1, 0xF3) && IsTail(s[1]))
        || (s[0] as int == 0xF4 && Between(s[1], 0x80, 0x8F)))
  }

  /** The length of the character that `s` begins with; 0 if it begins with none. */
  function CharLength(s: string): (n: nat)
    ensures n <= |s|
  {
    if s == "" then 0
    else if s[0] as int < 0x80 then 1
    else if IsTwo(s) then 2
    else if IsThree(s) then 3
    else if IsFour(s) then 4
    else 0
  }

  predicate WellFormed(s: string)
    decreases |s|
  {
    s == "" || (CharLength(s) > 0 && WellFormed(s[CharLength(s)..]))
  }

  /** A character announces its length in its first byte, and only its first byte can start one. */
  lemma CharBytes(s: string)
    requires CharLength(s) > 0
    ensures Utf8Length(s[0]) == CharLength(s)
    ensures forall k | 1 <= k < CharLength(s) :: Utf8Length(s[k]) == 0 && s[k] as int >= 0x80
    ensures CharLength(s) > 1 ==> s[0] as int >= 0x80
  {
  }

  lemma CharPrefix(s: string, more: string)
    requires CharLength(s) > 0
    ensures CharLength(s + more) == CharLength(s)
  {
    var t := s + more;
    assert t[0] == s[0] && (|s| > 1 ==> t[1] == s[1]) && (|s| > 2 ==> t[2] == s[2]) && (|s| > 3 ==> t[3] == s[3]);
  }

  lemma CharAlone(s: string)
    requires CharLength(s) > 0
    ensures CharLength(s[..CharLength(s)]) == CharLength(s) && WellFormed(s[..CharLength(s)])
  {
    var c := s[..CharLength(s)];
    assert c[0] == s[0] && forall k | 0 <= k < |c| :: c[k] == s[k];
    assert c[|c|..] == "";
  }

  lemma {:induction false} WellFormedJoin(a: string, b: string)
    requires WellFormed(a) && WellFormed(b)
    ensures WellFormed(a + b)
    decreases |a|
  {
    hide CharLength;
    if a == "" {
      assert a + b == b;
    } else {
      var n := CharLength(a);
      CharPrefix(a, b);
      assert (a + b)[n..] == a[n..] + b;
      WellFormedJoin(a[n..], b);
    }
  }

  // ---------------------------------------------- markers are between characters

  /** Every stretch of speech between two markers is well-formed. */
  predicate WholeSpeech(tokens: seq<Token>)
    decreases |tokens|
  {
    var w := Speech(tokens);
    WellFormed(w) && (|w| < |tokens| ==> WholeSpeech(tokens[|w| + 1..]))
  }

  lemma {:induction false} AsciiDropped(s: string, n: nat)
    requires WellFormed(s) && n <= |s| && forall k | 0 <= k < n :: s[k] as int < 0x80
    ensures WellFormed(s[n..])
    decreases n
  {
    if n == 0 {
      assert s[0..] == s;
    } else {
      AsciiDropped(s[1..], n - 1);
      assert s[1..][n - 1..] == s[n..];
    }
  }

  lemma MarkerAscii(e: Expression)
    ensures forall k | 0 <= k < |MarkerText(e)| :: MarkerText(e)[k] as int < 0x80
  {
    NameLetters(e);
  }

  lemma {:induction false} TokensWhole(s: string)
    requires WellFormed(s)
    ensures WholeSpeech(Tokens(s))
    decreases |s|
  {
    hide Speech, CharLength;
    if s == "" {
      SpeechNothing();
    } else if MarkerOf(s).Some? {
      var e := MarkerOf(s).value;
      var n := |MarkerText(e)|;
      MarkerOfStarts(s);
      MarkerAscii(e);
      AsciiDropped(s, n) by { assert forall k | 0 <= k < n :: s[k] == MarkerText(e)[k]; }
      TokensWhole(s[n..]);
      SpeechNothing();
      assert Tokens(s)[1..] == Tokens(s[n..]);
    } else {
      var n := CharLength(s);
      var c, rest := s[..n], s[n..];
      assert s == c + rest;
      CharAlone(s);
      TokensWhole(rest);
      CharTokens(c, rest);
      WholeJoin(c, Tokens(rest));
    }
  }

  lemma SpeechNothing()
    ensures Speech([]) == ""
    ensures forall tokens: seq<Token> | tokens != [] && tokens[0].Mark? :: Speech(tokens) == ""
  {
  }

  lemma CharTokens(c: string, rest: string)
    requires CharLength(c) == |c| > 0 && MarkerOf(c + rest).None?
    ensures Tokens(c + rest) == Chs(c) + Tokens(rest)
  {
    if c[0] == '[' {
      assert (c + rest)[1..] == rest;
      ChsOne('[', Tokens(rest));
      assert c == "[";
      hide MarkerOf;
    } else {
      CharBytes(c);
      PlainTokens(c, rest, true);
    }
  }

  /** What follows the marker that ends the speech at the front. */
  function AfterMark(tokens: seq<Token>): seq<Token> {
    if |Speech(tokens)| < |tokens| then tokens[|Speech(tokens)| + 1..] else []
  }

  lemma WholeUnrolled(tokens: seq<Token>)
    ensures WholeSpeech(tokens) == (WellFormed(Speech(tokens)) && WholeSpeech(AfterMark(tokens)))
  {
    SpeechNothing();
  }

  lemma WholeJoin(c: string, tokens: seq<Token>)
    requires WellFormed(c) && WholeSpeech(tokens)
    ensures WholeSpeech(Chs(c) + tokens)
  {
    SpeechJoin(c, tokens);
    WellFormedJoin(c, Speech(tokens));
    WholeUnrolled(tokens);
    WholeUnrolled(Chs(c) + tokens);
    MarkAfterJoin(c, tokens);
    hide *;
  }

  lemma MarkAfterJoin(c: string, tokens: seq<Token>)
    ensures AfterMark(Chs(c) + tokens) == AfterMark(tokens)
  {
    SpeechJoin(c, tokens);
    ChsLength(c);
    var n := |Speech(tokens)|;
    hide Speech, Chs;
    if n < |tokens| {
      assert (Chs(c) + tokens)[|c| + n + 1..] == tokens[n + 1..];
    }
  }

  lemma ChsLength(c: string)
    ensures |Chs(c)| == |c|
  {
  }

  // ------------------------------------------------- cuts are between characters

  lemma LeadAfter(x: string, y: string)
    requires Lead(y) > 0
    ensures Lead(x + y) == |x| + Lead(y)
    decreases |y|
  {
    assert (x + y)[|x + y| - 1] == y[|y| - 1];
    if Utf8Length(y[|y| - 1]) == 0 {
      assert (x + y)[..|x + y| - 1] == x + y[..|y| - 1];
      LeadAfter(x, y[..|y| - 1]);
    }
  }

  /** The bytes of a character that has begun: the cut goes before them until they are complete. */
  lemma CutBegun(a: string, b: string)
    requires b != "" && Utf8Length(b[0]) >= |b| && forall k | 1 <= k < |b| :: Utf8Length(b[k]) == 0
    ensures Cut(a + b) == if Utf8Length(b[0]) > |b| then |a| else |a + b|
  {
    var r := Lead(b);
    assert r == 1;
    LeadAfter(a, b);
    assert (a + b)[|a|] == b[0];
    hide Lead, Utf8Length;
  }

  lemma {:induction false} CutWhole(p: string)
    requires WellFormed(p) && p != ""
    ensures Cut(p) == |p|
    decreases |p|
  {
    var n := CharLength(p);
    CharBytes(p);
    hide CharLength, Cut, Utf8Length;
    if n == |p| {
      CutBegun("", p);
      assert "" + p == p;
    } else {
      CutWhole(p[n..]);
      assert p == p[..n] + p[n..];
      CutAfter(p[..n], p[n..]);
    }
  }

  lemma CutAfter(x: string, y: string)
    requires y != "" && WellFormed(y) && Cut(y) == |y|
    ensures Cut(x + y) == |x + y|
  {
    CharBytes(y);
    assert Lead(y) > 0;
    LeadAfter(x, y);
    assert (x + y)[|x| + Lead(y) - 1] == y[Lead(y) - 1];
    hide Lead, Utf8Length, WellFormed, CharLength;
  }

  /** Between two characters. */
  predicate Boundary(w: string, k: nat) {
    k <= |w| && WellFormed(w[..k]) && WellFormed(w[k..])
  }

  /** The length of the character at `k`; 0 at the end. */
  function LengthAt(w: string, k: nat): nat
    requires k <= |w|
  {
    CharLength(w[k..])
  }

  lemma CutAtBoundary(w: string, k: nat)
    requires 0 < k && Boundary(w, k)
    ensures Cut(w[..k]) == k
  {
    CutWhole(w[..k]);
  }

  /** Inside a character: the text goes on, no sentence ends, and a cut falls before the character. */
  lemma InsideCharacter(w: string, k: nat, n: nat)
    requires Boundary(w, k) && k < n < k + LengthAt(w, k)
    ensures n < |w| && !Ends(w, n) && Cut(w[..n]) == k
  {
    var tail, b := w[k..], w[k..n];
    CharBytes(tail);
    NotInside(w, k, n);
    hide Ends, CharLength, WellFormed, Cut;
    assert forall j | 0 <= j < |b| :: b[j] == tail[j];
    CutBegun(w[..k], b);
    assert w[..n] == w[..k] + b;
  }

  /** The end of a character is the next boundary. */
  lemma NextBoundary(w: string, k: nat)
    requires k < |w| && Boundary(w, k)
    ensures LengthAt(w, k) > 0 && Boundary(w, k + LengthAt(w, k))
  {
    var tail := w[k..];
    var length := CharLength(tail);
    CharAlone(tail);
    WellFormedJoin(w[..k], tail[..length]);
    assert WellFormed(tail[length..]);
    hide CharLength, WellFormed;
    assert w[..k + length] == w[..k] + tail[..length];
    assert w[k + length..] == tail[length..];
  }

  /** A sentence of well-formed speech ends between two characters. `k` is the last boundary before `n`. */
  lemma {:induction false} ExtentWhole(w: string, k: nat, n: nat, limit: Limit)
    requires k <= n && 1 <= n <= |w| && Boundary(w, k)
    requires n == k || n < k + LengthAt(w, k)
    ensures Boundary(w, Extent(w, n, limit))
    decreases |w| - n
  {
    hide Cut, Ends, Boundary, LengthAt;
    if n == k {
      CutAtBoundary(w, k);
      if n < limit && !Ends(w, n) {
        NotTheEnd(w, n);
        NextBoundary(w, k);
        ExtentWhole(w, if n + 1 < k + LengthAt(w, k) then k else n + 1, n + 1, limit);
      }
    } else {
      InsideCharacter(w, k, n);
      if n < limit {
        NextBoundary(w, k);
        ExtentWhole(w, if n + 1 < k + LengthAt(w, k) then k else n + 1, n + 1, limit);
      }
    }
  }

  lemma NotTheEnd(w: string, n: nat)
    requires 1 <= n <= |w| && !Ends(w, n)
    ensures n < |w|
  {
  }

  /** No sentence ends inside a character. */
  lemma NotInside(w: string, k: nat, n: nat)
    requires k < n < |w| && n < k + CharLength(w[k..])
    ensures !Ends(w, n)
  {
    var tail := w[k..];
    CharBytes(tail);
    assert w[n] == tail[n - k] && w[n - 1] == tail[n - 1 - k] && w[k] == tail[0];
    assert n - k >= 2 ==> w[n - 2] == tail[n - 2 - k];
    assert n - k >= 3 ==> w[n - 3] == tail[n - 3 - k];
    assert w[n - 1] as int >= 0x80 && w[n] as int >= 0x80;
    assert n >= 3 ==> w[..n][n - 3..] == [w[n - 3], w[n - 2], w[n - 1]];
    NotATerminator(w[..n], n - k, CharLength(tail));
  }

  /** The last `m` bytes of `p` are the start of a longer character. */
  lemma NotATerminator(p: string, m: nat, length: nat)
    requires 0 < m <= |p| && m < length <= 4 && Utf8Length(p[|p| - m]) == length
    ensures !TailIsTerminator(p)
  {
    if |p| >= 3 {
      assert p[|p| - 3..] == [p[|p| - 3], p[|p| - 2], p[|p| - 1]];
    }
  }

  lemma WholeDrop(tokens: seq<Token>, n: nat)
    requires WholeSpeech(tokens) && n <= |Speech(tokens)| && WellFormed(Speech(tokens)[n..])
    ensures WholeSpeech(tokens[n..])
  {
    SpeechDrop(tokens, n);
    WholeUnrolled(tokens);
    WholeUnrolled(tokens[n..]);
    MarkAfterDrop(tokens, n);
    hide *;
  }

  lemma MarkAfterDrop(tokens: seq<Token>, n: nat)
    requires n <= |Speech(tokens)|
    ensures AfterMark(tokens[n..]) == AfterMark(tokens)
  {
    var m := |Speech(tokens)|;
    hide Speech;
    SpeechDrop(tokens, n);
    assert |Speech(tokens[n..])| == m - n;
    if m < |tokens| {
      assert tokens[n..][m - n + 1..] == tokens[m + 1..];
    }
  }

  lemma {:induction false} SpeechDrop(tokens: seq<Token>, n: nat)
    requires n <= |Speech(tokens)|
    ensures Speech(tokens[n..]) == Speech(tokens)[n..]
    decreases n
  {
    if n == 0 {
      assert tokens[0..] == tokens;
    } else {
      SpeechDrop(tokens[1..], n - 1);
      assert tokens[1..][n - 1..] == tokens[n..];
    }
  }

  lemma {:induction false} SentencesWhole(tokens: seq<Token>, e: Expression, limit: Limit)
    requires WholeSpeech(tokens)
    ensures forall k | 0 <= k < |Sentences(tokens, e, limit)| :: WellFormed(Sentences(tokens, e, limit)[k].text)
    decreases |tokens|
  {
    var w := Speech(tokens);
    hide Extent, Ends;
    if tokens != [] {
      if tokens[0].Mark? {
        hide WellFormed;
        SentencesWhole(tokens[1..], tokens[0].expression, limit);
      } else if IsGap(tokens[0].c) {
        assert w[0] == tokens[0].c && CharLength(w) == 1;
        WholeDrop(tokens, 1);
        hide WellFormed, CharLength;
        SentencesWhole(tokens[1..], e, limit);
      } else {
        var n := Extent(w, 1, limit);
        FirstWhole(w, limit);
        hide WellFormed, CharLength;
        WholeDrop(tokens, n);
        SentencesWhole(tokens[n..], e, limit);
      }
    }
  }

  lemma FirstWhole(w: string, limit: Limit)
    requires WellFormed(w) && w != ""
    ensures Boundary(w, Extent(w, 1, limit))
  {
    assert w[0..] == w && w[..0] == "";
    NextBoundary(w, 0);
    hide Extent, Boundary;
    ExtentWhole(w, if LengthAt(w, 0) == 1 then 1 else 0, 1, limit);
  }

  /** Well-formed text, whatever its markers and however long its sentences, is cut into well-formed segments. */
  lemma SegmentsWellFormed(text: string, limit: Limit, k: nat)
    requires WellFormed(text) && k < |SegmentsOf(text, limit)|
    ensures WellFormed(SegmentsOf(text, limit)[k].text)
  {
    EmitsSentences(text, limit);
    TokensWhole(text);
    SentencesWhole(Tokens(text), Neutral, limit);
  }
}
