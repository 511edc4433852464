/** Cutting streamed text into sentences.

    `Run` is what the segmenter's bytes do to its buffers, one byte at a time. The reference reads the
    whole text: `Tokens` recognises markers by looking ahead, and a token either switches the expression
    or is one byte of speech. The module proves that the machine, which cannot look ahead, emits the
    segments of the reference for every split of the text (`SegmentsOfWhole`); what those segments are
    is stated without any machine in the next module. */
module SpeechSpec {
  import opened Bytes

  datatype Expression = Neutral | Happy | Sad | Doubt | Sleepy | Angry

  datatype Segment = Segment(expression: Expression, text: string)

  const MIN_SEGMENT_BYTES: nat := 8
  const MAX_SEGMENT_BYTES: nat := 200
  const MAX_MARKER_BYTES: nat := 8

  type Limit = n: nat | MIN_SEGMENT_BYTES <= n <= MAX_SEGMENT_BYTES witness MIN_SEGMENT_BYTES

  function NameOf(e: Expression): string {
    match e
    case Neutral => "neutral"
    case Happy => "happy"
    case Sad => "sad"
    case Doubt => "doubt"
    case Sleepy => "sleepy"
    case Angry => "angry"
  }

  function ParseExpression(name: string): Option<Expression> {
    if name == "neutral" then Some(Neutral)
    else if name == "happy" then Some(Happy)
    else if name == "sad" then Some(Sad)
    else if name == "doubt" then Some(Doubt)
    else if name == "sleepy" then Some(Sleepy)
    else if name == "angry" then Some(Angry)
    else None
  }

  predicate IsMarkerChar(c: char) { 'a' <= c <= 'z' }

  predicate IsSpace(c: char) { c == ' ' || c == '\t' }

  predicate IsNewline(c: char) { c == '\n' || c == '\r' }

  /** The length of a UTF-8 character from its first byte; 0 for a byte that cannot start one. */
  function Utf8Length(lead: char): nat {
    var b := lead as int;
    if b < 0x80 then 1
    else if 0xC0 <= b < 0xE0 then 2
    else if 0xE0 <= b < 0xF0 then 3
    else if 0xF0 <= b < 0xF8 then 4
    else 0
  }

  /** The three-byte characters that end a sentence. */
  predicate IsTerminator(t: string) {
    t == "\U{E3}\U{80}\U{82}" || t == "\U{EF}\U{BC}\U{81}" || t == "\U{EF}\U{BC}\U{9F}"
  }

  predicate TailIsTerminator(p: string) {
    |p| >= 3 && IsTerminator(p[|p| - 3..])
  }

  // --------------------------------------------------------- the machine

  datatype Talk = Talk(expression: Expression, pending: string, marker: string, dot: bool)

  datatype Result = Result(state: Talk, segments: seq<Segment>)

  const SILENT := Talk(Neutral, "", "", false)

  function Emit(t: Talk): Result {
    Result(t.(pending := "", dot := false),
           if t.pending == "" then [] else [Segment(t.expression, t.pending)])
  }

  /** The end of the last byte that starts a character; 0 when there is none. */
  function Lead(p: string): (r: nat)
    ensures r <= |p|
    ensures r > 0 ==> Utf8Length(p[r - 1]) != 0
    ensures forall k | r <= k < |p| :: Utf8Length(p[k]) == 0
    decreases |p|
  {
    if p == "" then 0
    else if Utf8Length(p[|p| - 1]) != 0 then |p|
    else Lead(p[..|p| - 1])
  }

  /** Where to cut a full buffer: before its last character if that is incomplete. */
  function Cut(p: string): (r: nat)
    ensures r <= |p|
  {
    var lead := Lead(p);
    if lead > 0 && lead - 1 + Utf8Length(p[lead - 1]) > |p| then lead - 1 else |p|
  }

  function AppendText(t: Talk, c: char, limit: Limit): Result {
    var p := t.pending + [c];
    if |p| < limit || Cut(p) == 0 then Result(t.(pending := p), [])
    else Result(t.(pending := p[Cut(p)..], dot := false), [Segment(t.expression, p[..Cut(p)])])
  }

  function AppendAll(t: Talk, text: string, limit: Limit): Result
    decreases |text|
  {
    if text == "" then Result(t, [])
    else
      var r := AppendText(t, text[0], limit);
      var s := AppendAll(r.state, text[1..], limit);
      Result(s.state, r.segments + s.segments)
  }

  function DumpMarker(t: Talk, limit: Limit): Result {
    AppendAll(t.(marker := ""), t.marker, limit)
  }

  function CloseMarker(t: Talk, limit: Limit): Result
    requires t.marker != ""
  {
    var e := ParseExpression(t.marker[1..]);
    var u := t.(marker := "");
    if e.Some? then
      var r := Emit(u);
      r.(state := r.state.(expression := e.value))
    else AppendAll(u, t.marker + "]", limit)
  }

  /** A byte that is not inside a marker, after a pending dot has been resolved. */
  function Plain(t: Talk, c: char, limit: Limit): Result {
    if c == '[' then Result(t.(marker := "["), [])
    else Speak(t, c, limit)
  }

  function Speak(t: Talk, c: char, limit: Limit): Result {
    if IsNewline(c) then Emit(t)
    else if t.pending == "" && IsSpace(c) then Result(t, [])
    else
      var r := AppendText(t, c, limit);
      if c == '!' || c == '?' then
        var s := Emit(r.state);
        Result(s.state, r.segments + s.segments)
      else if c == '.' then Result(r.state.(dot := true), r.segments)
      else if TailIsTerminator(r.state.pending) then
        var s := Emit(r.state);
        Result(s.state, r.segments + s.segments)
      else r
  }

  function InMarker(t: Talk, c: char, limit: Limit): Result {
    if t.marker == "" then Plain(t, c, limit)
    else if c == ']' then CloseMarker(t, limit)
    else if IsMarkerChar(c) && |t.marker| < MAX_MARKER_BYTES then Result(t.(marker := t.marker + [c]), [])
    else
      var r := DumpMarker(t, limit);
      var s := Plain(r.state, c, limit);
      Result(s.state, r.segments + s.segments)
  }

  function PutChar(t: Talk, c: char, limit: Limit): Result {
    if t.dot && (IsSpace(c) || IsNewline(c)) then
      var r := Emit(t);
      if IsSpace(c) then r
      else
        var s := InMarker(r.state, c, limit);
        Result(s.state, r.segments + s.segments)
    else InMarker(t.(dot := false), c, limit)
  }

  function Run(t: Talk, text: string, limit: Limit): Result
    decreases |text|
  {
    if text == "" then Result(t, [])
    else
      var r := PutChar(t, text[0], limit);
      var s := Run(r.state, text[1..], limit);
      Result(s.state, r.segments + s.segments)
  }

  function Flush(t: Talk, limit: Limit): Result {
    var r := DumpMarker(t, limit);
    var s := Emit(r.state);
    Result(s.state, r.segments + s.segments)
  }

  lemma {:induction false} RunAppend(t: Talk, x: string, y: string, limit: Limit)
    ensures
      var r := Run(t, x, limit);
      var s := Run(r.state, y, limit);
      Run(t, x + y, limit) == Result(s.state, r.segments + s.segments)
    decreases |x|
  {
    hide PutChar;
    if x == "" {
      assert x + y == y && [] + Run(t, y, limit).segments == Run(t, y, limit).segments;
    } else {
      assert (x + y)[1..] == x[1..] + y;
      RunAppend(PutChar(t, x[0], limit).state, x[1..], y, limit);
    }
  }

  /** The segments of a whole text: feed it, flush. */
  function SegmentsOf(text: string, limit: Limit): seq<Segment> {
    var r := Run(SILENT, text, limit);
    r.segments + Flush(r.state, limit).segments
  }

  // -------------------------------------------------------- the reference

  datatype Token = Mark(expression: Expression) | Ch(c: char)

  function MarkerText(e: Expression): string { "[" + NameOf(e) + "]" }

  predicate Starts(s: string, prefix: string) { prefix <= s }

  /** The expression whose marker the text begins with. */
  function MarkerOf(s: string): Option<Expression> {
    if Starts(s, MarkerText(Neutral)) then Some(Neutral)
    else if Starts(s, MarkerText(Happy)) then Some(Happy)
    else if Starts(s, MarkerText(Sad)) then Some(Sad)
    else if Starts(s, MarkerText(Doubt)) then Some(Doubt)
    else if Starts(s, MarkerText(Sleepy)) then Some(Sleepy)
    else if Starts(s, MarkerText(Angry)) then Some(Angry)
    else None
  }

  /** A marker in the making: '[' and at most seven letters. */
  predicate IsPartial(m: string) {
    m != "" ==>
      m[0] == '[' && |m| <= MAX_MARKER_BYTES && forall k | 1 <= k < |m| :: IsMarkerChar(m[k])
  }

  /** The tokens of a text. One that is not `closed` may go on, so what could still become a marker at its end
      is no token yet. */
  function Tokens(s: string, closed: bool := true): seq<Token>
    decreases |s|
  {
    if s == "" then []
    else
      var e := MarkerOf(s);
      if e.Some? then [Mark(e.value)] + Tokens(s[|MarkerText(e.value)|..], closed)
      else if !closed && IsPartial(s) then []
      else [Ch(s[0])] + Tokens(s[1..], closed)
  }

  function Chs(text: string): seq<Token> { seq(|text|, i requires 0 <= i < |text| => Ch(text[i])) }

  /** One token of the reference; its state is a `Talk` whose marker is always empty. */
  function Hear(t: Talk, token: Token, limit: Limit): Result {
    match token
    case Mark(e) =>
      var r := Emit(t);
      r.(state := r.state.(expression := e))
    case Ch(c) =>
      if t.dot && (IsSpace(c) || IsNewline(c)) then
        var r := Emit(t);
        if IsSpace(c) then r
        else
          var s := Speak(r.state, c, limit);
          Result(s.state, r.segments + s.segments)
      else Speak(t.(dot := false), c, limit)
  }

  function HearAll(t: Talk, tokens: seq<Token>, limit: Limit): Result
    decreases |tokens|
  {
    if tokens == [] then Result(t, [])
    else
      var r := Hear(t, tokens[0], limit);
      var s := HearAll(r.state, tokens[1..], limit);
      Result(s.state, r.segments + s.segments)
  }

  /** Everything the reference emits from a state: the tokens, and the rest once the text is closed. */
  function Heard(t: Talk, tokens: seq<Token>, limit: Limit, closed: bool := true): seq<Segment> {
    var r := HearAll(t, tokens, limit);
    r.segments + if closed then Emit(r.state).segments else []
  }

  lemma HeardStep(t: Talk, token: Token, rest: seq<Token>, limit: Limit, closed: bool)
    ensures
      var r := Hear(t, token, limit);
      Heard(t, [token] + rest, limit, closed) == r.segments + Heard(r.state, rest, limit, closed)
  {
    hide Hear;
    assert ([token] + rest)[1..] == rest;
    var r := Hear(t, token, limit);
    var s := HearAll(r.state, rest, limit);
    var last := if closed then Emit(s.state).segments else [];
    assert (r.segments + s.segments) + last == r.segments + (s.segments + last);
  }

  // ---------------------------------------- the machine is the reference

  predicate Sound(t: Talk) {
    IsPartial(t.marker) && (t.marker != "" ==> !t.dot)
  }

  predicate IsOrdinary(c: char) { c == '[' || c == ']' || IsMarkerChar(c) }

  /** Bytes of a failed marker are ordinary speech: hearing them is appending them. */
  lemma OrdinaryHeard(t: Talk, c: char, limit: Limit)
    requires !t.dot && IsOrdinary(c)
    ensures Hear(t, Ch(c), limit) == AppendText(t, c, limit)
    ensures !AppendText(t, c, limit).state.dot
  {
    hide Cut;
    var p := t.pending + [c];
    var q := AppendText(t, c, limit).state.pending;
    if q != "" {
      assert q[|q| - 1] == c;
    }
    assert |q| >= 3 ==> q[|q| - 3..][2] == c;
  }

  lemma {:induction false} DumpHeard(t: Talk, text: string, rest: seq<Token>, limit: Limit, closed: bool)
    requires !t.dot && forall k | 0 <= k < |text| :: IsOrdinary(text[k])
    ensures
      var r := AppendAll(t, text, limit);
      && Heard(t, Chs(text) + rest, limit, closed) == r.segments + Heard(r.state, rest, limit, closed)
      && !r.state.dot && r.state.marker == t.marker && r.state.expression == t.expression
    decreases |text|
  {
    hide AppendText, Hear, Heard;
    if text == "" {
      assert Chs(text) + rest == rest;
      assert [] + Heard(t, rest, limit, closed) == Heard(t, rest, limit, closed);
    } else {
      OrdinaryHeard(t, text[0], limit);
      var r := AppendText(t, text[0], limit);
      assert Chs(text) + rest == [Ch(text[0])] + (Chs(text[1..]) + rest);
      HeardStep(t, Ch(text[0]), Chs(text[1..]) + rest, limit, closed);
      AppendKeeps(t, text[0], limit);
      DumpHeard(r.state, text[1..], rest, limit, closed);
      var s := AppendAll(r.state, text[1..], limit);
      var last := Heard(s.state, rest, limit, closed);
      assert r.segments + (s.segments + last) == (r.segments + s.segments) + last;
    }
  }

  lemma AppendKeeps(t: Talk, c: char, limit: Limit)
    ensures var u := AppendText(t, c, limit).state; u.marker == t.marker && u.expression == t.expression
  {
  }

  lemma NameLetters(e: Expression)
    ensures forall k | 0 <= k < |NameOf(e)| :: IsMarkerChar(NameOf(e)[k])
    ensures 0 < |NameOf(e)| <= 7 && ParseExpression(NameOf(e)) == Some(e)
  {
  }

  lemma ParsedName(name: string)
    ensures ParseExpression(name).Some? ==> NameOf(ParseExpression(name).value) == name
  {
  }

  lemma MarkerOfStarts(s: string)
    ensures MarkerOf(s).Some? ==> Starts(s, MarkerText(MarkerOf(s).value))
  {
    hide Starts, MarkerText;
  }

  /** The name of a marker is what stands before the first ']'. */
  predicate IsNameEnd(s: string, n: nat) {
    1 + n < |s| && s[1 + n] == ']' && forall k | 1 <= k <= n :: s[k] != ']'
  }

  lemma MarkerEnd(s: string, e: Expression)
    requires Starts(s, MarkerText(e))
    ensures IsNameEnd(s, |NameOf(e)|) && s[0] == '[' && s[1..1 + |NameOf(e)|] == NameOf(e)
  {
    var a := MarkerText(e);
    NameLetters(e);
    assert forall k | 0 <= k < |a| :: s[k] == a[k];
    assert forall k | 1 <= k <= |NameOf(e)| :: s[k] == a[k] == NameOf(e)[k - 1];
  }

  lemma OneNameEnd(s: string, n: nat, m: nat)
    requires IsNameEnd(s, n) && IsNameEnd(s, m)
    ensures n == m
  {
  }

  lemma TwoMarkers(s: string, e: Expression, f: Expression)
    requires Starts(s, MarkerText(e)) && Starts(s, MarkerText(f))
    ensures e == f
  {
    MarkerEnd(s, e);
    MarkerEnd(s, f);
    OneNameEnd(s, |NameOf(e)|, |NameOf(f)|);
    NameLetters(e);
    NameLetters(f);
    hide NameOf, MarkerText, Starts, ParseExpression;
  }

  lemma StartsIsMarker(s: string, e: Expression)
    requires Starts(s, MarkerText(e))
    ensures MarkerOf(s) == Some(e)
  {
    forall f: Expression | Starts(s, MarkerText(f)) ensures f == e {
      TwoMarkers(s, e, f);
    }
    hide Starts, MarkerText;
  }

  /** A recognised marker at the front. */
  lemma MarkerFound(name: string, rest: string, closed: bool)
    requires ParseExpression(name).Some?
    ensures Tokens("[" + name + "]" + rest, closed) == [Mark(ParseExpression(name).value)] + Tokens(rest, closed)
  {
    ParsedName(name);
    var e := ParseExpression(name).value;
    var s := "[" + name + "]" + rest;
    StartsIsMarker(s, e);
    assert s[|MarkerText(e)|..] == rest;
  }

  lemma TokensFirst(s: string, closed: bool := true)
    requires s != "" && MarkerOf(s).None? && (closed || !IsPartial(s))
    ensures Tokens(s, closed) == [Ch(s[0])] + Tokens(s[1..], closed)
  {
    hide MarkerOf;
  }

  lemma NothingTold(closed: bool)
    ensures Tokens("", closed) == []
  {
  }

  lemma ChsFirst(text: string)
    requires text != ""
    ensures Chs(text) == [Ch(text[0])] + Chs(text[1..])
  {
  }

  /** Text without '[' has no markers. */
  lemma {:induction false} PlainTokens(text: string, rest: string, closed: bool)
    requires forall k | 0 <= k < |text| :: text[k] != '['
    ensures Tokens(text + rest, closed) == Chs(text) + Tokens(rest, closed)
    decreases |text|
  {
    hide Tokens, Chs;
    if text == "" {
      assert text + rest == rest;
      NoChs(Tokens(rest, closed));
    } else {
      NotAMarker(text + rest);
      TokensFirst(text + rest, closed);
      assert (text + rest)[1..] == text[1..] + rest;
      PlainTokens(text[1..], rest, closed);
      ChsFirst(text);
      TokenJoin(Ch(text[0]), Chs(text[1..]), Tokens(rest, closed));
    }
  }

  lemma NoChs(tokens: seq<Token>)
    ensures Chs("") + tokens == tokens
  {
  }

  lemma NotAMarker(s: string)
    requires s != "" && s[0] != '['
    ensures MarkerOf(s) == None && !IsPartial(s)
  {
    MarkerOfStarts(s);
    hide MarkerOf;
  }

  /** '[' and letters, and then a byte that does not complete a marker. */
  predicate CannotBecome(m: string, rest: string)
    requires m != ""
  {
    rest != "" ==>
      && (rest[0] == ']' ==> ParseExpression(m[1..]).None?)
      && (IsMarkerChar(rest[0]) ==> |m| == MAX_MARKER_BYTES)
  }

  lemma Completed(m: string, rest: string, e: Expression)
    requires m != "" && IsPartial(m)
    requires Starts(m + rest, MarkerText(e))
    ensures !CannotBecome(m, rest)
  {
    var s := m + rest;
    var n := |NameOf(e)|;
    MarkerEnd(s, e);
    NameLetters(e);
    hide MarkerText, Starts, NameOf, ParseExpression;
    assert forall k | 1 <= k < |m| :: s[k] == m[k];
    if |m| == 1 + n {
      assert s[1..1 + n] == m[1..];
      assert rest[0] == s[1 + n];
    } else {
      assert |m| <= n;
      assert rest[0] == s[|m|] == s[1..1 + n][|m| - 1];
    }
  }

  lemma FailedIsNone(m: string, rest: string)
    requires m != "" && IsPartial(m) && CannotBecome(m, rest)
    ensures MarkerOf(m + rest) == None && (rest != "" ==> !IsPartial(m + rest))
  {
    assert rest != "" ==> (m + rest)[|m|] == rest[0];
    MarkerOfStarts(m + rest);
    if MarkerOf(m + rest).Some? {
      Completed(m, rest, MarkerOf(m + rest).value);
      assert false;
    }
  }

  lemma PlainTail(m: string)
    requires m != "" && IsPartial(m)
    ensures forall k | 0 <= k < |m[1..]| :: m[1..][k] != '['
  {
  }

  lemma TokenJoin(a: Token, b: seq<Token>, c: seq<Token>)
    ensures [a] + (b + c) == [a] + b + c
  {
  }

  lemma FailedStart(m: string, rest: string, closed: bool)
    requires m != "" && IsPartial(m) && CannotBecome(m, rest) && (closed || rest != "")
    ensures Tokens(m + rest, closed) == [Ch(m[0])] + Tokens(m[1..] + rest, closed)
  {
    hide *;
    FailedIsNone(m, rest);
    TokensFirst(m + rest, closed);
    assert (m + rest)[1..] == m[1..] + rest;
  }

  lemma FailedTail(m: string, rest: string, closed: bool)
    requires m != "" && IsPartial(m)
    ensures Tokens(m[1..] + rest, closed) == Chs(m[1..]) + Tokens(rest, closed)
  {
    PlainTail(m);
    hide *;
    PlainTokens(m[1..], rest, closed);
  }

  lemma FailedMarker(m: string, rest: string, closed: bool)
    requires m != "" && IsPartial(m) && CannotBecome(m, rest) && (closed || rest != "")
    ensures Tokens(m + rest, closed) == Chs(m) + Tokens(rest, closed)
  {
    hide *;
    FailedStart(m, rest, closed);
    FailedTail(m, rest, closed);
    ChsFirst(m);
    TokenJoin(Ch(m[0]), Chs(m[1..]), Tokens(rest, closed));
  }

  /** A '[' that comes next makes a pending dot an ordinary character. */
  lemma DotForgotten(t: Talk, s: string, limit: Limit, closed: bool)
    requires s != "" && s[0] == '['
    ensures Heard(t, Tokens(s, closed), limit, closed) == Heard(t.(dot := false), Tokens(s, closed), limit, closed)
  {
    var tokens := Tokens(s, closed);
    if tokens == [] {
      assert !closed by { hide MarkerOf, IsPartial; }
      hide Tokens;
    } else {
      var token, rest := tokens[0], tokens[1..];
      assert tokens == [token] + rest;
      assert token == Ch('[') || token.Mark? by { hide MarkerOf, IsPartial; }
      HeardStep(t, token, rest, limit, closed);
      HeardStep(t.(dot := false), token, rest, limit, closed);
      hide Tokens, MarkerOf, Speak, HearAll;
    }
  }

  /** What the machine still has to say: the rest of the text, and the flush. */
  function Said(t: Talk, text: string, limit: Limit, closed: bool): seq<Segment> {
    var r := Run(t, text, limit);
    r.segments + if closed then Flush(r.state, limit).segments else []
  }

  lemma SaidStep(t: Talk, text: string, limit: Limit, closed: bool)
    requires text != ""
    ensures
      var r := PutChar(t, text[0], limit);
      Said(t, text, limit, closed) == r.segments + Said(r.state, text[1..], limit, closed)
  {
    hide PutChar, Flush;
    var r := PutChar(t, text[0], limit);
    var s := Run(r.state, text[1..], limit);
    var last := if closed then Flush(s.state, limit).segments else [];
    assert (r.segments + s.segments) + last == r.segments + (s.segments + last);
  }

  /** What the reference still has to say: the machine's unfinished marker is part of the text to come. */
  function Due(t: Talk, text: string, limit: Limit, closed: bool): seq<Segment> {
    Heard(t.(marker := ""), Tokens(t.marker + text, closed), limit, closed)
  }

  lemma ChNext(s: string, closed: bool)
    requires s != "" && s[0] != '['
    ensures Tokens(s, closed) == [Ch(s[0])] + Tokens(s[1..], closed)
  {
    NotAMarker(s);
    hide MarkerOf;
  }

  /** A '[' opens a marker, and ends the doubt about a dot. */
  lemma StepOpen(t: Talk, s: string, limit: Limit, closed: bool)
    requires s != "" && s[0] == '[' && t.marker == ""
    ensures
      var r := PutChar(t, s[0], limit);
      && r == Result(t.(dot := false, marker := "["), [])
      && Due(t, s, limit, closed) == r.segments + Due(r.state, s[1..], limit, closed)
  {
    var u := t.(dot := false, marker := "[");
    assert PutChar(t, s[0], limit) == Result(u, []) by { hide AppendText; }
    DotForgotten(t, s, limit, closed);
    DueOutside(t, s, limit, closed);
    DueIs(u, s[1..], limit, closed);
    hide *;
    assert u.(marker := "") == t.(dot := false) && "[" + s[1..] == s;
    assert [] + Due(u, s[1..], limit, closed) == Due(u, s[1..], limit, closed);
  }

  lemma PutIsHear(t: Talk, c: char, limit: Limit)
    requires c != '[' && t.marker == ""
    ensures PutChar(t, c, limit) == Hear(t, Ch(c), limit) && Hear(t, Ch(c), limit).state.marker == ""
  {
    hide Cut, TailIsTerminator;
  }

  lemma DueOutside(t: Talk, s: string, limit: Limit, closed: bool)
    requires t.marker == ""
    ensures Due(t, s, limit, closed) == Heard(t, Tokens(s, closed), limit, closed)
  {
    hide Heard, Tokens;
    assert "" + s == s && t.(marker := "") == t;
  }

  /** Any other byte outside a marker is speech. */
  lemma StepSpeech(t: Talk, s: string, limit: Limit, closed: bool)
    requires s != "" && s[0] != '[' && t.marker == ""
    ensures
      var r := PutChar(t, s[0], limit);
      r.state.marker == "" && Due(t, s, limit, closed) == r.segments + Due(r.state, s[1..], limit, closed)
  {
    hide *;
    PutIsHear(t, s[0], limit);
    ChNext(s, closed);
    HeardStep(t, Ch(s[0]), Tokens(s[1..], closed), limit, closed);
    DueOutside(t, s, limit, closed);
    DueOutside(Hear(t, Ch(s[0]), limit).state, s[1..], limit, closed);
  }

  /** One byte outside a marker. */
  lemma StepOutside(t: Talk, s: string, limit: Limit, closed: bool)
    requires s != "" && t.marker == ""
    ensures
      var r := PutChar(t, s[0], limit);
      Sound(r.state) && Due(t, s, limit, closed) == r.segments + Due(r.state, s[1..], limit, closed)
  {
    hide Due, PutChar;
    if s[0] == '[' {
      StepOpen(t, s, limit, closed);
    } else {
      StepSpeech(t, s, limit, closed);
    }
  }

  /** The byte that closes a marker. */
  lemma StepClose(t: Talk, s: string, limit: Limit, closed: bool)
    requires s != "" && s[0] == ']' && t.marker != "" && Sound(t)
    ensures
      var r := CloseMarker(t, limit);
      r.state.marker == "" && Due(t, s, limit, closed) == r.segments + Due(r.state, s[1..], limit, closed)
  {
    hide Heard, Tokens, AppendText, IsNewline, Speak;
    var m, u, rest := t.marker, t.(marker := ""), s[1..];
    assert "" + rest == rest;
    var e := ParseExpression(m[1..]);
    if e.Some? {
      MarkerFound(m[1..], rest, closed);
      assert "[" + m[1..] + "]" + rest == m + s;
      HeardStep(u, Mark(e.value), Tokens(rest, closed), limit, closed);
    } else {
      FailedMarker(m, s, closed);
      ChNext(s, closed);
      assert Chs(m) + ([Ch(']')] + Tokens(rest, closed)) == Chs(m + "]") + Tokens(rest, closed);
      DumpHeard(u, m + "]", Tokens(rest, closed), limit, closed);
    }
  }

  lemma StepInside(t: Talk, s: string, limit: Limit, closed: bool)
    requires s != "" && t.marker != "" && Sound(t)
    ensures
      var r := InMarker(t, s[0], limit);
      Sound(r.state) && Due(t, s, limit, closed) == r.segments + Due(r.state, s[1..], limit, closed)
  {
    hide Heard, Tokens, AppendText, Plain, CloseMarker, Due;
    var m, u, c := t.marker, t.(marker := ""), s[0];
    if c == ']' {
      StepClose(t, s, limit, closed);
    } else if IsMarkerChar(c) && |m| < MAX_MARKER_BYTES {
      assert Due(t, s, limit, closed) == Due(t.(marker := m + [c]), s[1..], limit, closed) by {
        assert m + s == (m + [c]) + s[1..];
        DueIs(t, s, limit, closed);
        DueIs(t.(marker := m + [c]), s[1..], limit, closed);
      }
    } else {
      FailedMarker(m, s, closed);
      DumpHeard(u, m, Tokens(s, closed), limit, closed);
      var r := DumpMarker(t, limit);
      StepOutside(r.state, s, limit, closed);
      assert PutChar(r.state, c, limit) == Plain(r.state, c, limit);
      assert Due(r.state, s, limit, closed) == Heard(r.state, Tokens(s, closed), limit, closed) by {
        DueIs(r.state, s, limit, closed);
        assert "" + s == s;
      }
      DueIs(t, s, limit, closed);
      var q := Plain(r.state, c, limit);
      assert r.segments + (q.segments + Due(q.state, s[1..], limit, closed))
          == (r.segments + q.segments) + Due(q.state, s[1..], limit, closed);
    }
  }

  lemma DueIs(t: Talk, text: string, limit: Limit, closed: bool)
    ensures Due(t, text, limit, closed) == Heard(t.(marker := ""), Tokens(t.marker + text, closed), limit, closed)
  {
  }

  lemma StepDue(t: Talk, s: string, limit: Limit, closed: bool)
    requires s != "" && Sound(t)
    ensures
      var r := PutChar(t, s[0], limit);
      Sound(r.state) && Due(t, s, limit, closed) == r.segments + Due(r.state, s[1..], limit, closed)
  {
    hide Due, InMarker;
    if t.marker == "" {
      StepOutside(t, s, limit, closed);
    } else {
      StepInside(t, s, limit, closed);
      assert t.(dot := false) == t;
    }
  }

  lemma NothingDue(t: Talk, limit: Limit, closed: bool)
    requires Sound(t)
    ensures Due(t, "", limit, closed) == if closed then Flush(t, limit).segments else []
  {
    hide AppendText, Hear;
    assert t.marker + "" == t.marker;
    if t.marker != "" && !closed {
      FailedIsNone(t.marker, "");
    } else if t.marker != "" {
      FailedMarker(t.marker, "", closed);
      assert Chs(t.marker) + [] == Chs(t.marker);
      DumpHeard(t.(marker := ""), t.marker, [], limit, closed);
    }
  }

  /** From any state, what the machine will say is what the reference will say. */
  lemma {:induction false} SaidIsDue(t: Talk, text: string, limit: Limit, closed: bool)
    requires Sound(t)
    ensures Said(t, text, limit, closed) == Due(t, text, limit, closed)
    decreases |text|
  {
    hide PutChar, Flush, Due;
    if text == "" {
      NothingDue(t, limit, closed);
    } else {
      SaidStep(t, text, limit, closed);
      StepDue(t, text, limit, closed);
      SaidIsDue(PutChar(t, text[0], limit).state, text[1..], limit, closed);
    }
  }

  lemma SegmentsOfWhole(text: string, limit: Limit)
    ensures SegmentsOf(text, limit) == Heard(SILENT, Tokens(text), limit)
  {
    SaidIsDue(SILENT, text, limit, true);
    assert "" + text == text;
    hide Heard, Tokens, Run, Flush;
  }
}
