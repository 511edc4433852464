/** Where the reader and the standard part.

    Section 9.2 of the WHATWG HTML standard removes a byte order mark from the front of the stream and discards
    an event that the end of the stream leaves unfinished. The reader does neither. For each of the two this module
    says exactly which streams are read differently, and gives one. */
module SseStandard {
  import opened Bytes
  import opened SseSpec
  import F = SseFrames

  /** The byte order mark in UTF-8. */
  const MARK: string := "\U{EF}\U{BB}\U{BF}"

  predicate HasMark(s: string) { MARK <= s }

  function StripMark(s: string): string { if HasMark(s) then s[3..] else s }

  /** What the standard dispatches for a whole stream; this reader's size limits apply. */
  function StandardItems(s: string): seq<Item> {
    ItemsOf(Interpret(SplitLines(StripMark(s)).complete, EMPTY_BUFFER))
  }

  // ---------------------------------------------------- the end of the stream

  /** What is pending when a stream ends: its last line counts although nothing ended it. */
  function PendingAtEnd(s: string): Buffer {
    var l := SplitLines(s);
    BufferAfter(l.complete + (if l.rest == "" then [] else [l.rest]), EMPTY_BUFFER)
  }

  lemma {:induction false} BuffersJoin(x: seq<string>, y: seq<string>, b: Buffer)
    ensures BufferAfter(x + y, b) == BufferAfter(y, BufferAfter(x, b))
    decreases |x|
  {
    hide WithLine;
    if x == [] {
      assert x + y == y;
    } else {
      assert (x + y)[1..] == x[1..] + y;
      BuffersJoin(x[1..], y, if x[0] == "" then EMPTY_BUFFER else WithLine(b, x[0]));
    }
  }

  lemma LastLine(line: string, b: Buffer)
    requires line != ""
    ensures Interpret([line], b) == [] && Interpret([line, ""], b) == Interpret([""], BufferAfter([line], b))
  {
    assert [line][1..] == [] && [line, ""][1..] == [""];
    hide WithLine;
  }

  lemma BlankDispatches(b: Buffer)
    ensures |Interpret([""], b)| == if b.data == "" then 0 else 1
    ensures b.data != "" ==>
      var data := b.data[..|b.data| - 1];
      Interpret([""], b) == [Dispatched(data, b.linesFit && |data| <= MAX_EVENT_BYTES)]
  {
    assert [""][1..] == [];
  }

  lemma {:induction false} ItemCount(ds: seq<Dispatched>)
    ensures |ItemsOf(ds)| == |ds|
    decreases |ds|
  {
    if ds != [] {
      ItemCount(ds[1..]);
    }
  }

  /** The end of the stream makes the reader dispatch exactly when it leaves data pending; then it dispatches one
      event, or loses it for its size. */
  lemma EndDispatches(s: string)
    ensures
      var items := Finish(Run(FRESH, s).state).items;
      var b := PendingAtEnd(s);
      && |items| == (if b.data == "" then 0 else 1)
      && items == ItemsOf(Interpret([""], b))
  {
    hide Run, Finish, Interpret, BufferAfter, SplitLines, Stands, ItemsOf;
    var l := SplitLines(s);
    var b := BufferAfter(l.complete, EMPTY_BUFFER);
    FreshStands();
    StreamAssembled(s, FRESH, EMPTY_BUFFER);
    Ended(Run(FRESH, s).state, b, l.rest);
    BlankDispatches(PendingAtEnd(s));
    ItemCount(Interpret([""], PendingAtEnd(s)));
    if l.rest == "" {
      assert l.complete + [] == l.complete && [] + [""] == [""];
    } else {
      BuffersJoin(l.complete, [l.rest], EMPTY_BUFFER);
      LastLine(l.rest, b);
      assert [l.rest] + [""] == [l.rest, ""];
    }
  }

  lemma DataLine(v: string)
    requires F.IsOneLine(v) && |v| <= F.MAX_LINE_DATA
    ensures
      var line := "data: " + v;
      && line != "" && (forall k | 0 <= k < |line| :: !IsLineEnd(line[k]))
      && IsData(line) && WithLine(EMPTY_BUFFER, line) == Buffer(v + "\n", true)
  {
    F.DataPrefix(v);
    var line := "data: " + v;
    assert forall k | 6 <= k < |line| :: line[k] == v[k - 6];
    assert "" + v + "\n" == v + "\n";
  }

  lemma OneItemOf(v: string)
    requires |v| <= MAX_EVENT_BYTES
    ensures ItemsOf(Interpret([""], Buffer(v + "\n", true))) == [Event(v)]
  {
    OneItem(Buffer(v + "\n", true));
    assert (v + "\n")[..|v|] == v;
  }

  /** A data line that nothing ends: the standard discards it, the reader delivers it. */
  lemma UnendedIsDelivered(v: string)
    requires F.IsOneLine(v) && |v| <= F.MAX_LINE_DATA
    ensures
      var s := "data: " + v;
      StandardItems(s) == [] && Run(FRESH, s).items + Finish(Run(FRESH, s).state).items == [Event(v)]
  {
    var s := "data: " + v;
    assert s[0] == 'd' && !HasMark(s);
    DataLine(v);
    OneLine(s);
    assert EndedLines(s) == [s, ""];
    hide Run, Finish, IsData, FieldValue, WithLine, ItemsOf, SplitLines;
    ReadsTheStandard(s);
    LastLine(s, EMPTY_BUFFER);
    assert BufferAfter([s], EMPTY_BUFFER) == Buffer(v + "\n", true) by { assert [s][1..] == []; }
    OneItemOf(v);
    assert StandardItems(s) == [] by { assert ItemsOf([]) == []; }
  }

  lemma OneLine(s: string)
    requires s != "" && forall k | 0 <= k < |s| :: !IsLineEnd(s[k])
    ensures SplitLines(s) == Lines([], s)
  {
  }

  // -------------------------------------------------------------- the mark

  /** Lines before the first blank one, if there is one. */
  function FirstBlock(lines: seq<string>): Option<seq<string>> {
    if lines == [] then None
    else if lines[0] == "" then Some([])
    else
      match FirstBlock(lines[1..])
      case None => None
      case Some(block) => Some([lines[0]] + block)
  }

  /** A mark makes a difference: the line that it spoils is complete and carries data, a blank line ends its event,
      and what the other lines of that event hold is nothing, or fits, so that the loss shows. */
  predicate MarkMatters(s: string) {
    && HasMark(s)
    && var lines := SplitLines(s[3..]).complete;
    && lines != [] && IsData(lines[0])
    && var block := FirstBlock(lines[1..]);
    && block.Some?
    && var others := BufferAfter(block.value, EMPTY_BUFFER);
    (others.data == "" || (others.linesFit && |others.data| - 1 <= MAX_EVENT_BYTES))
  }

  lemma {:induction false} LineThenEnd(line: string, rest: string)
    requires rest != "" && IsLineEnd(rest[0]) && forall k | 0 <= k < |line| :: !IsLineEnd(line[k])
    ensures LineLength(line + rest) == |line|
    decreases |line|
  {
    if line == "" {
      assert line + rest == rest;
    } else {
      assert (line + rest)[1..] == line[1..] + rest;
      LineThenEnd(line[1..], rest);
    }
  }

  /** One line and its end, and the lines after it. */
  lemma {:induction false} SplitOnce(line: string, end: string, tail: string)
    requires forall k | 0 <= k < |line| :: !IsLineEnd(line[k])
    requires end == "\r" || end == "\n" || end == "\r\n"
    requires end == "\r" ==> tail == "" || tail[0] != '\n'
    ensures
      var l := SplitLines(tail);
      SplitLines(line + (end + tail)) == Lines([line] + l.complete, l.rest)
  {
    hide LineLength, SplitLines;
    LineThenEnd(line, end + tail);
    EndSeams(line, end, tail);
    SplitStep(line + (end + tail), |line|, |end|);
  }

  lemma {:induction false} SplitStep(s: string, e: nat, n: nat)
    requires e < |s| && LineLength(s) == e
    requires n == if s[e] == '\r' && e + 1 < |s| && s[e + 1] == '\n' then 2 else 1
    ensures var l := SplitLines(s[e + n..]); SplitLines(s) == Lines([s[..e]] + l.complete, l.rest)
  {
    hide LineLength;
  }

  lemma EndSeams(line: string, end: string, tail: string)
    requires end == "\r" || end == "\n" || end == "\r\n"
    ensures var s := line + (end + tail);
      && s[..|line|] == line && s[|line|] == end[0] && s[|line| + |end|..] == tail
      && (|line| + 1 < |s| ==> s[|line| + 1] == if |end| == 2 then '\n' else tail[0])
  {
  }

  lemma FirstLineOf(t: string) returns (line: string, end: string, tail: string)
    requires LineLength(t) < |t|
    ensures line == t[..LineLength(t)] && t == line + (end + tail)
    ensures end == "\r" || end == "\n" || end == "\r\n"
    ensures end == "\r" ==> tail == "" || tail[0] != '\n'
  {
    var e := LineLength(t);
    hide LineLength;
    var n := if t[e] == '\r' && e + 1 < |t| && t[e + 1] == '\n' then 2 else 1;
    line, end, tail := t[..e], t[e..e + n], t[e + n..];
    assert end == if n == 2 then "\r\n" else [t[e]];
  }

  lemma Regrouped(a: string, b: string, c: string)
    ensures a + (b + c) == a + b + c
  {
  }

  lemma NoLineEndYet(t: string)
    requires LineLength(t) == |t|
    ensures forall k | 0 <= k < |t| :: !IsLineEnd(t[k])
  {
  }

  lemma LinesTail(line: string, lines: seq<string>)
    ensures ([line] + lines)[1..] == lines && ([line] + lines)[0] == line
  {
  }

  /** The mark becomes part of the first line. */
  lemma MarkedLines(t: string)
    ensures
      var l := SplitLines(t);
      SplitLines(MARK + t)
      == if l.complete == [] then Lines([], MARK + t) else Lines([MARK + l.complete[0]] + l.complete[1..], l.rest)
  {
    hide *;
    if LineLength(t) < |t| {
      var line, end, tail := FirstLineOf(t);
      MarkedLine(line);
      Regrouped(MARK, line, end + tail);
      SplitOnce(line, end, tail);
      SplitOnce(MARK + line, end, tail);
      LinesTail(line, SplitLines(tail).complete);
    } else {
      NoLineEndYet(t);
      MarkedLine(t);
      NoLineEnd(t);
      NoLineEnd(MARK + t);
    }
  }

  lemma MarkedLine(line: string)
    requires forall k | 0 <= k < |line| :: !IsLineEnd(line[k])
    ensures forall k | 0 <= k < |MARK + line| :: !IsLineEnd((MARK + line)[k])
  {
  }

  lemma NoLineEnd(s: string)
    requires forall k | 0 <= k < |s| :: !IsLineEnd(s[k])
    ensures SplitLines(s) == Lines([], s)
  {
  }

  /** A line with the mark in front carries no data, and is not blank. */
  lemma MarkedIsNoData(line: string)
    ensures MARK + line != "" && !IsData(MARK + line)
  {
    var l := MARK + line;
    assert l[0] == MARK[0];
    assert Colon(l) > 0;
    assert FieldName(l)[0] == l[0];
  }

  lemma {:induction false} BlockInterpreted(lines: seq<string>, b: Buffer)
    ensures match FirstBlock(lines)
      case None => Interpret(lines, b) == []
      case Some(block) =>
        && |block| < |lines| && "" !in block
        && Interpret(lines, b)
        == Interpret([""], BufferAfter(block, b)) + Interpret(lines[|block| + 1..], EMPTY_BUFFER)
    decreases |lines|
  {
    if lines != [] {
      hide WithLine;
      if lines[0] == "" {
        assert [""][1..] == [];
      } else {
        BlockInterpreted(lines[1..], WithLine(b, lines[0]));
        var rest := FirstBlock(lines[1..]);
        if rest.Some? {
          assert ([lines[0]] + rest.value)[1..] == rest.value;
          assert lines[1..][|rest.value| + 1..] == lines[|rest.value| + 2..];
        }
      }
    }
  }

  /** What stands in the buffer before a block stays in front of what the block adds. */
  lemma {:induction false} BufferPrefix(block: seq<string>, p: string, fits: bool, b: Buffer)
    requires "" !in block
    ensures
      var r := BufferAfter(block, b);
      BufferAfter(block, Buffer(p + b.data, fits && b.linesFit)) == Buffer(p + r.data, fits && r.linesFit)
    decreases |block|
  {
    if block != [] {
      var line := block[0];
      assert line in block;
      assert p + b.data + FieldValue(line) + "\n" == p + (b.data + FieldValue(line) + "\n");
      assert WithLine(Buffer(p + b.data, fits && b.linesFit), line)
          == Buffer(p + WithLine(b, line).data, fits && WithLine(b, line).linesFit);
      hide WithLine;
      BufferPrefix(block[1..], p, fits, WithLine(b, line));
    }
  }

  /** The first event of the block, with the spoilt line and without it. */
  lemma FirstEvents(line: string, block: seq<string>)
    requires IsData(line) && "" !in block
    ensures
      var others := BufferAfter(block, EMPTY_BUFFER);
      var all := BufferAfter(block, WithLine(EMPTY_BUFFER, line));
      && |ItemsOf(Interpret([""], all))| == 1 && |ItemsOf(Interpret([""], others))| <= 1
      && (ItemsOf(Interpret([""], all)) == ItemsOf(Interpret([""], others)) <==>
            others.data != "" && !(others.linesFit && |others.data| - 1 <= MAX_EVENT_BYTES))
  {
    var others := BufferAfter(block, EMPTY_BUFFER);
    var v, fits := FieldValue(line) + "\n", |line| <= MAX_EVENT_BYTES;
    assert WithLine(EMPTY_BUFFER, line) == Buffer(v + EMPTY_BUFFER.data, fits && EMPTY_BUFFER.linesFit) by {
      assert "" + FieldValue(line) + "\n" == v + "";
    }
    hide WithLine, BufferAfter, Interpret, IsData, FieldValue;
    BufferPrefix(block, v, fits, EMPTY_BUFFER);
    var all := Buffer(v + others.data, fits && others.linesFit);
    BlankDispatches(all);
    BlankDispatches(others);
    OneItem(all);
    OneItem(others);
  }

  lemma OneItem(b: Buffer)
    ensures b.data == "" ==> ItemsOf(Interpret([""], b)) == []
    ensures b.data != "" ==>
      ItemsOf(Interpret([""], b))
      == [if b.linesFit && |b.data| - 1 <= MAX_EVENT_BYTES then Event(b.data[..|b.data| - 1]) else Oversized]
  {
    BlankDispatches(b);
    hide Interpret;
  }

  lemma TailsAgree(x: seq<Item>, y: seq<Item>, tail: seq<Item>)
    ensures x + tail == y + tail <==> x == y
  {
    if x + tail == y + tail {
      assert |x| == |y|;
      assert (x + tail)[..|x|] == x && (y + tail)[..|x|] == y;
    }
  }

  /** With data on the first line: whether it is missed. */
  lemma SpoiltLine(line: string, more: seq<string>)
    requires IsData(line)
    ensures
      var block := FirstBlock(more);
      ItemsOf(Interpret(more, EMPTY_BUFFER)) == ItemsOf(Interpret(more, WithLine(EMPTY_BUFFER, line))) <==>
        block.Some? ==>
          var others := BufferAfter(block.value, EMPTY_BUFFER);
          others.data != "" && !(others.linesFit && |others.data| - 1 <= MAX_EVENT_BYTES)
  {
    hide Interpret, BufferAfter, WithLine, IsData, ItemsOf, FirstBlock;
    var block := FirstBlock(more);
    BlockInterpreted(more, EMPTY_BUFFER);
    BlockInterpreted(more, WithLine(EMPTY_BUFFER, line));
    if block.Some? {
      FirstEvents(line, block.value);
      var others := Interpret([""], BufferAfter(block.value, EMPTY_BUFFER));
      var all := Interpret([""], BufferAfter(block.value, WithLine(EMPTY_BUFFER, line)));
      var tail := Interpret(more[|block.value| + 1..], EMPTY_BUFFER);
      ItemsOfAppend(others, tail);
      ItemsOfAppend(all, tail);
      TailsAgree(ItemsOf(others), ItemsOf(all), ItemsOf(tail));
    }
  }

  /** What the reader assembles from a stream is what the standard dispatches if and only if no mark spoils its first
      event. */
  lemma MarkAgrees(s: string)
    ensures Run(FRESH, s).items == StandardItems(s) <==> !MarkMatters(s)
  {
    if !HasMark(s) {
      ReadsTheStandard(s);
    } else if SplitLines(s[3..]).complete == [] {
      assert s == MARK + s[3..];
      MarkedLines(s[3..]);
      ReadsTheStandard(s);
    } else {
      var lines := SplitLines(s[3..]).complete;
      hide Run, StandardItems, SplitLines, IsData, FirstBlock, ItemsOf, BufferAfter, Interpret, WithLine;
      SpoiltLines(s);
      if IsData(lines[0]) {
        SpoiltLine(lines[0], lines[1..]);
      }
    }
    hide Run, SplitLines, IsData, FirstBlock, ItemsOf, BufferAfter, Interpret, WithLine;
  }

  lemma FirstLine(line: string, more: seq<string>)
    ensures Interpret([line] + more, EMPTY_BUFFER)
         == Interpret(more, if IsData(line) then WithLine(EMPTY_BUFFER, line) else EMPTY_BUFFER)
  {
    assert ([line] + more)[1..] == more;
    assert [] + Interpret(more, EMPTY_BUFFER) == Interpret(more, EMPTY_BUFFER);
  }

  /** The stream says the same event over and over: the one that the mark spoils holds nothing but the spoilt line,
      every other one repeats it, and so does the one that the end leaves unfinished. */
  predicate RepeatsToTheEnd(s: string)
    requires MarkMatters(s)
  {
    var lines := SplitLines(s[3..]).complete;
    var others := BufferAfter(FirstBlock(lines[1..]).value, EMPTY_BUFFER);
    var spoilt := ItemsOf(Interpret([""], WithLine(EMPTY_BUFFER, lines[0])));
    && others.data == ""
    && ItemsOf(Interpret([""], PendingAtEnd(s))) == spoilt
    && forall k | 0 <= k < |StandardItems(s)| :: [StandardItems(s)[k]] == spoilt
  }

  predicate Every(items: seq<Item>, x: Item) { forall k | 0 <= k < |items| :: items[k] == x }

  lemma EveryFirst(x: Item, tail: seq<Item>)
    ensures Every([x] + tail, x) <==> Every(tail, x)
  {
    assert forall k | 0 <= k < |tail| :: ([x] + tail)[k + 1] == tail[k];
  }

  lemma EveryShifts(tail: seq<Item>, x: Item)
    requires Every(tail, x)
    ensures tail + [x] == [x] + tail
  {
  }

  lemma {:induction false} ShiftIsEvery(tail: seq<Item>, x: Item, y: Item)
    requires tail + [y] == [x] + tail
    ensures y == x && Every(tail, x)
    decreases |tail|
  {
    hide Every;
    if tail == [] {
      NoneIsEvery(x);
      assert (tail + [y])[0] == y && ([x] + tail)[0] == x;
    } else {
      var rest := tail[1..];
      ShiftsOn(tail, x, y);
      ShiftIsEvery(rest, x, y);
      EveryFirst(x, rest);
    }
  }

  lemma NoneIsEvery(x: Item)
    ensures Every([], x)
  {
  }

  lemma ShiftsOn(tail: seq<Item>, x: Item, y: Item)
    requires tail != [] && tail + [y] == [x] + tail
    ensures tail == [x] + tail[1..] && tail[1..] + [y] == [x] + tail[1..]
  {
    assert (tail + [y])[0] == tail[0] && ([x] + tail)[0] == x;
    assert tail == [tail[0]] + tail[1..];
    assert (tail + [y])[1..] == tail[1..] + [y] && ([x] + tail)[1..] == tail;
  }

  /** The lines of a marked stream, for the standard and for the reader. */
  lemma SpoiltLines(s: string)
    requires HasMark(s) && SplitLines(s[3..]).complete != []
    ensures
      var lines := SplitLines(s[3..]).complete;
      && Run(FRESH, s).items == ItemsOf(Interpret(lines[1..], EMPTY_BUFFER))
      && StandardItems(s)
      == ItemsOf(Interpret(lines[1..], if IsData(lines[0]) then WithLine(EMPTY_BUFFER, lines[0]) else EMPTY_BUFFER))
  {
    var lines := SplitLines(s[3..]).complete;
    assert s == MARK + s[3..];
    hide Run, SplitLines, IsData, ItemsOf, Interpret, WithLine;
    ReadsTheStandard(s);
    MarkedLines(s[3..]);
    assert lines == [lines[0]] + lines[1..];
    MarkedIsNoData(lines[0]);
    FirstLine(MARK + lines[0], lines[1..]);
    FirstLine(lines[0], lines[1..]);
  }

  /** The items of some lines whose first block is ended: those of the block, then the rest. */
  lemma BlockItems(more: seq<string>, b: Buffer)
    requires FirstBlock(more).Some?
    ensures
      var block := FirstBlock(more).value;
      && |block| < |more| && "" !in block
      && ItemsOf(Interpret(more, b))
      == ItemsOf(Interpret([""], BufferAfter(block, b))) + ItemsOf(Interpret(more[|block| + 1..], EMPTY_BUFFER))
  {
    hide FirstBlock, ItemsOf, BufferAfter, Interpret;
    BlockInterpreted(more, b);
    var block := FirstBlock(more).value;
    ItemsOfAppend(Interpret([""], BufferAfter(block, b)), Interpret(more[|block| + 1..], EMPTY_BUFFER));
  }

  /** A block without data adds nothing to what stands before it. */
  lemma NothingAdded(block: seq<string>, line: string)
    requires IsData(line) && "" !in block && BufferAfter(block, EMPTY_BUFFER).data == ""
    ensures BufferAfter(block, WithLine(EMPTY_BUFFER, line)) == WithLine(EMPTY_BUFFER, line)
    ensures WithLine(EMPTY_BUFFER, line).data != ""
  {
    NoDataFits(block, EMPTY_BUFFER);
    var v, fits := FieldValue(line) + "\n", |line| <= MAX_EVENT_BYTES;
    assert "" + FieldValue(line) + "\n" == v && v + "" == v;
    hide BufferAfter, IsData, FieldValue;
    BufferPrefix(block, v, fits, EMPTY_BUFFER);
  }

  lemma {:induction false} NoDataFits(block: seq<string>, b: Buffer)
    requires "" !in block && BufferAfter(block, b).data == b.data
    ensures BufferAfter(block, b) == b
    decreases |block|
  {
    if block != [] {
      assert block[0] in block;
      DataGrows(block[1..], WithLine(b, block[0]));
      NoDataFits(block[1..], WithLine(b, block[0]));
    }
  }

  lemma {:induction false} DataGrows(block: seq<string>, b: Buffer)
    requires "" !in block
    ensures |BufferAfter(block, b).data| >= |b.data|
    decreases |block|
  {
    if block != [] {
      assert block[0] in block;
      DataGrows(block[1..], WithLine(b, block[0]));
    }
  }

  /** With other data in the spoilt event nothing at the end can make up for it. */
  lemma NeverMadeUp(all: Item, others: Item, tail: seq<Item>, end: seq<Item>)
    requires all != others
    ensures [others] + tail + end != [all] + tail
  {
    assert ([others] + tail + end)[0] == others && ([all] + tail)[0] == all;
  }

  lemma {:induction false} MadeUp(all: Item, tail: seq<Item>, end: seq<Item>)
    requires |end| <= 1
    ensures [] + tail + end == [all] + tail <==> end == [all] && Every([all] + tail, all)
  {
    hide Every;
    assert [] + tail + end == tail + end;
    if |end| == 1 {
      assert end == [end[0]];
      MadeUpBy(all, tail, end[0]);
    } else {
      assert |tail + end| != |[all] + tail|;
    }
  }

  lemma {:induction false} MadeUpBy(all: Item, tail: seq<Item>, end: Item)
    ensures tail + [end] == [all] + tail <==> end == all && Every([all] + tail, all)
  {
    hide Every;
    EveryFirst(all, tail);
    if tail + [end] == [all] + tail {
      ShiftIsEvery(tail, all, end);
    }
    if end == all && Every(tail, all) {
      EveryShifts(tail, all);
    }
  }

  /** A stream read to its end gives what the standard dispatches if and only if it does not end inside an event that
      has data, or, where a mark spoils its first event, if that unfinished event and all others repeat it. */
  lemma EndAgrees(s: string)
    ensures Run(FRESH, s).items + Finish(Run(FRESH, s).state).items == StandardItems(s) <==>
      if MarkMatters(s) then RepeatsToTheEnd(s) else PendingAtEnd(s).data == ""
  {
    var items, end := Run(FRESH, s).items, Finish(Run(FRESH, s).state).items;
    EndDispatches(s);
    if MarkMatters(s) {
      SpoiltEndAgrees(s);
    } else {
      hide Run, Finish, PendingAtEnd, StandardItems, MarkMatters, Interpret, ItemsOf;
      MarkAgrees(s);
      assert items + [] == items;
    }
  }

  lemma SpoiltEndAgrees(s: string)
    requires MarkMatters(s)
    ensures Run(FRESH, s).items + Finish(Run(FRESH, s).state).items == StandardItems(s) <==> RepeatsToTheEnd(s)
  {
    var lines := SplitLines(s[3..]).complete;
    var line, more := lines[0], lines[1..];
    var block := FirstBlock(more).value;
    RepeatsIs(s);
    hide *;
    SpoiltLines(s);
    EndDispatches(s);
    BlockItems(more, EMPTY_BUFFER);
    BlockItems(more, WithLine(EMPTY_BUFFER, line));
    var tail := ItemsOf(Interpret(more[|block| + 1..], EMPTY_BUFFER));
    SpoiltEnd(line, block, tail, Finish(Run(FRESH, s).state).items);
  }

  lemma RepeatsIs(s: string)
    requires MarkMatters(s)
    ensures
      var lines := SplitLines(s[3..]).complete;
      var block := FirstBlock(lines[1..]);
      && HasMark(s) && lines != [] && IsData(lines[0]) && block.Some?
      && var others := BufferAfter(block.value, EMPTY_BUFFER);
         var spoilt := ItemsOf(Interpret([""], WithLine(EMPTY_BUFFER, lines[0])));
      && (others.data == "" || (others.linesFit && |others.data| - 1 <= MAX_EVENT_BYTES))
      && (RepeatsToTheEnd(s) <==>
            && others.data == "" && ItemsOf(Interpret([""], PendingAtEnd(s))) == spoilt
            && forall k | 0 <= k < |StandardItems(s)| :: [StandardItems(s)[k]] == spoilt)
  {
    hide SplitLines, IsData, FirstBlock, BufferAfter, Interpret, WithLine, ItemsOf, PendingAtEnd, StandardItems;
  }

  /** The first event, the others and the end, with the spoilt line and without it. */
  lemma SpoiltEnd(line: string, block: seq<string>, tail: seq<Item>, end: seq<Item>)
    requires IsData(line) && "" !in block && |end| <= 1
    requires
      var others := BufferAfter(block, EMPTY_BUFFER);
      others.data == "" || (others.linesFit && |others.data| - 1 <= MAX_EVENT_BYTES)
    ensures
      var others := BufferAfter(block, EMPTY_BUFFER);
      var read := ItemsOf(Interpret([""], others)) + tail;
      var standard := ItemsOf(Interpret([""], BufferAfter(block, WithLine(EMPTY_BUFFER, line)))) + tail;
      var spoilt := ItemsOf(Interpret([""], WithLine(EMPTY_BUFFER, line)));
      read + end == standard <==>
        others.data == "" && end == spoilt && forall k | 0 <= k < |standard| :: [standard[k]] == spoilt
  {
    var others := BufferAfter(block, EMPTY_BUFFER);
    var first := ItemsOf(Interpret([""], others));
    var all := ItemsOf(Interpret([""], BufferAfter(block, WithLine(EMPTY_BUFFER, line))));
    hide IsData, BufferAfter, Interpret, WithLine, ItemsOf;
    FirstEvents(line, block);
    OneItem(others);
    if others.data == "" {
      NothingAdded(block, line);
      MadeUp(all[0], tail, end);
      assert all == [all[0]];
    } else {
      assert all == [all[0]] && first == [first[0]];
      NeverMadeUp(all[0], first[0], tail, end);
    }
  }

  /** An event behind a mark: the standard dispatches it, the reader never sees it. */
  lemma MarkHidesEvent(v: string)
    requires F.IsOneLine(v) && |v| <= F.MAX_LINE_DATA
    ensures
      var s := MARK + F.Framed(v);
      && StandardItems(s) == [Event(v)]
      && Run(FRESH, s).items == [] && Finish(Run(FRESH, s).state).items == []
  {
    var line, t := "data: " + v, F.Framed(v);
    var s := MARK + t;
    assert s[3..] == t && HasMark(s);
    FrameLines(v);
    MarkedLines(t);
    MarkedIsNoData(line);
    var spoilt := MARK + line;
    assert [spoilt] + [""] == [spoilt, ""] && [line, ""][1..] == [""] && [line, ""][0] == line;
    hide Run, Finish, IsData, FieldValue, WithLine, SplitLines, F.Framed, Interpret, BufferAfter, F.IsOneLine;
    assert SplitLines(s) == Lines([spoilt, ""], "");
    ReadsTheStandard(s);
    EndDispatches(s);
    StandardFrame(v);
    BlankLines(spoilt);
    BlankDispatches(EMPTY_BUFFER);
  }

  lemma StandardFrame(v: string)
    requires F.IsOneLine(v) && |v| <= F.MAX_LINE_DATA
    ensures ItemsOf(Interpret(["data: " + v, ""], EMPTY_BUFFER)) == [Event(v)]
  {
    var line := "data: " + v;
    DataLine(v);
    hide IsData, FieldValue, WithLine;
    LastLine(line, EMPTY_BUFFER);
    assert BufferAfter([line], EMPTY_BUFFER) == Buffer(v + "\n", true) by { assert [line][1..] == []; }
    OneItemOf(v);
  }

  /** A line without data and a blank one dispatch nothing and leave nothing. */
  lemma BlankLines(line: string)
    requires line != "" && !IsData(line)
    ensures Interpret([line, ""], EMPTY_BUFFER) == [] && BufferAfter([line, ""] + [], EMPTY_BUFFER) == EMPTY_BUFFER
  {
    assert [line, ""] + [] == [line, ""] && [line, ""][1..] == [""] && [""][1..] == [];
    hide IsData;
  }

  lemma FrameLines(v: string)
    requires F.IsOneLine(v) && |v| <= F.MAX_LINE_DATA
    ensures SplitLines(F.Framed(v)) == Lines(["data: " + v, ""], "")
  {
    var line := "data: " + v;
    DataLine(v);
    LineThenEnd(line, "\n\n");
    var t := line + "\n\n";
    assert F.Framed(v) == t && t[..|line|] == line && t[|line| + 1..] == "\n" && t[|line|] == '\n';
    hide IsData, WithLine;
    OnlyEnd();
    assert [line] + [""] == [line, ""];
  }

  lemma OnlyEnd()
    ensures SplitLines("\n") == Lines([""], "")
  {
    assert "\n"[..0] == "" && "\n"[1..] == "";
    assert SplitLines("") == Lines([], "");
    assert [""] + [] == [""];
  }

  // ------------------------------------------------------------- data lines

  /** Of all lines only those carry data that are the word "data" or begin with "data:"; what follows is their value,
      one space at its front not counted. */
  lemma DataExactly(line: string)
    ensures IsData(line) <==> line == "data" || (|line| >= 5 && line[..5] == "data:")
    ensures line == "data" ==> FieldValue(line) == ""
    ensures |line| >= 5 && line[..5] == "data:" ==>
      FieldValue(line) == if |line| > 5 && line[5] == ' ' then line[6..] else line[5..]
  {
    if |line| >= 5 && line[..5] == "data:" {
      ColonAt(line, 4);
      assert line[..4] == line[..5][..4] == "data" && line[0] == line[..5][0];
    } else if line == "data" {
      ColonAt(line, 4);
      assert line[..4] == line;
    }
    if IsData(line) {
      assert line[..Colon(line)] == "data";
      assert |line| > 4 ==> line[..5] == line[..4] + [line[4]];
    }
  }

  lemma {:induction false} ColonAt(line: string, n: nat)
    requires n <= |line| && (n < |line| ==> line[n] == ':') && forall k | 0 <= k < n :: line[k] != ':'
    ensures Colon(line) == n
    decreases n
  {
    if n > 0 {
      ColonAt(line[1..], n - 1);
    }
  }
}
