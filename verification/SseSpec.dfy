/** Server-sent events as the reader assembles them, byte by byte, and as section 9.2 of the WHATWG HTML
    standard defines them on the whole stream.

    `Run` is what the reader's bytes do to its line and event buffers and which events they complete. The
    standard is written down independently: split the stream into lines, interpret the lines. The module
    proves that they agree however the stream arrives, up to the size limits. What the standard does before
    and after the lines, a byte order mark and an unfinished last event, is the subject of `SseStandard`. */
module SseSpec {
  const MAX_EVENT_BYTES: nat := 8192
  const QUEUE_BYTES: nat := 2 * MAX_EVENT_BYTES

  /** The line being received and the event being assembled. */
  datatype Assembler = Assembler(line: string, lineOverflow: bool, lastWasCr: bool,
                                 event: string, hasData: bool, eventOverflow: bool)

  /** What dispatching an event yields: its data, or the loss of an event that did not fit. */
  datatype Item = Event(data: string) | Oversized

  datatype Result = Result(state: Assembler, items: seq<Item>)

  const FRESH := Assembler("", false, false, "", false, false)

  // ------------------------------------------------------------ one line

  /** The position of the first ':' of a line, or its length. */
  function Colon(line: string): (r: nat)
    ensures r <= |line| && (r < |line| ==> line[r] == ':')
  {
    if line == "" || line[0] == ':' then 0 else 1 + Colon(line[1..])
  }

  function FieldName(line: string): string { line[..Colon(line)] }

  /** The value of a field; one leading space is removed. */
  function FieldValue(line: string): string {
    if Colon(line) == |line| then ""
    else
      var v := line[Colon(line) + 1..];
      if v != "" && v[0] == ' ' then v[1..] else v
  }

  predicate IsData(line: string) {
    line != "" && line[0] != ':' && FieldName(line) == "data"
  }

  // ---------------------------------------------------------- the assembler

  function Dispatch(a: Assembler): Result {
    Result(a.(event := "", hasData := false, eventOverflow := false),
           if !a.hasData then [] else if a.eventOverflow then [Oversized] else [Event(a.event)])
  }

  /** A line has ended: interpret it and start the next one. */
  function TakeLine(a: Assembler): Result {
    var b := a.(line := "", lineOverflow := false);
    if a.line == "" && !a.lineOverflow then Dispatch(b)
    else if !IsData(a.line) then Result(b, [])
    else if a.lineOverflow then Result(b.(eventOverflow := true, hasData := true), [])
    else
      var more := (if a.hasData then "\n" else "") + FieldValue(a.line);
      if |a.event| + |more| > MAX_EVENT_BYTES then Result(b.(eventOverflow := true, hasData := true), [])
      else Result(b.(event := a.event + more, hasData := true), [])
  }

  function Step(a: Assembler, c: char): Result {
    if c == '\r' then
      var r := TakeLine(a);
      r.(state := r.state.(lastWasCr := true))
    else if c == '\n' then
      if a.lastWasCr then Result(a.(lastWasCr := false), []) else TakeLine(a)
    else
      Result(AddByte(a, c), [])
  }

  function AddByte(a: Assembler, c: char): Assembler {
    if |a.line| < MAX_EVENT_BYTES then a.(line := a.line + [c], lastWasCr := false)
    else a.(lineOverflow := true, lastWasCr := false)
  }

  function Run(a: Assembler, bytes: string): Result
    decreases |bytes|
  {
    if bytes == "" then Result(a, [])
    else
      var r := Step(a, bytes[0]);
      var s := Run(r.state, bytes[1..]);
      Result(s.state, r.items + s.items)
  }

  /** The end of the stream: a last line without a newline, a last event without a blank line. */
  function Finish(a: Assembler): Result {
    var r := if a.line != "" || a.lineOverflow then TakeLine(a) else Result(a, []);
    var s := Dispatch(r.state);
    Result(s.state, r.items + s.items)
  }

  /** Where a stream is cut makes no difference to what it assembles. */
  lemma {:induction false} RunAppend(a: Assembler, x: string, y: string)
    ensures
      var r := Run(a, x);
      var s := Run(r.state, y);
      Run(a, x + y) == Result(s.state, r.items + s.items)
    decreases |x|
  {
    hide Step;
    if x == "" {
      assert x + y == y && [] + Run(a, y).items == Run(a, y).items;
    } else {
      assert (x + y)[1..] == x[1..] + y;
      RunAppend(Step(a, x[0]).state, x[1..], y);
    }
  }

  // --------------------------------------------------------- the standard

  datatype Lines = Lines(complete: seq<string>, rest: string)

  predicate IsLineEnd(c: char) { c == '\r' || c == '\n' }

  function LineLength(s: string): (r: nat)
    ensures r <= |s| && (r < |s| ==> IsLineEnd(s[r]))
    ensures forall k | 0 <= k < r :: !IsLineEnd(s[k])
  {
    if s == "" || IsLineEnd(s[0]) then 0 else 1 + LineLength(s[1..])
  }

  /** Lines end with CR LF, LF or CR. */
  function SplitLines(s: string): Lines
    decreases |s|
  {
    var e := LineLength(s);
    if e == |s| then Lines([], s)
    else
      var n := if s[e] == '\r' && e + 1 < |s| && s[e + 1] == '\n' then 2 else 1;
      var tail := SplitLines(s[e + n..]);
      Lines([s[..e]] + tail.complete, tail.rest)
  }

  /** An event that the standard dispatches, and whether every line that carried its data and the data
      itself are within the limit of this reader. */
  datatype Dispatched = Dispatched(data: string, fits: bool)

  /** The standard's data buffer, with every value followed by a line feed, and the same note on sizes. */
  datatype Buffer = Buffer(data: string, linesFit: bool)

  const EMPTY_BUFFER := Buffer("", true)

  function WithLine(b: Buffer, line: string): Buffer {
    if IsData(line) then Buffer(b.data + FieldValue(line) + "\n", b.linesFit && |line| <= MAX_EVENT_BYTES) else b
  }

  /** The events dispatched by a sequence of lines. An event whose buffer is empty is not dispatched; the
      last line feed of the buffer is not part of the data. */
  function Interpret(lines: seq<string>, b: Buffer): seq<Dispatched>
    decreases |lines|
  {
    if lines == [] then []
    else if lines[0] == "" then
      (if b.data == "" then []
       else
         var data := b.data[..|b.data| - 1];
         [Dispatched(data, b.linesFit && |data| <= MAX_EVENT_BYTES)])
      + Interpret(lines[1..], EMPTY_BUFFER)
    else Interpret(lines[1..], WithLine(b, lines[0]))
  }

  function BufferAfter(lines: seq<string>, b: Buffer): Buffer
    decreases |lines|
  {
    if lines == [] then b
    else if lines[0] == "" then BufferAfter(lines[1..], EMPTY_BUFFER)
    else BufferAfter(lines[1..], WithLine(b, lines[0]))
  }

  function ItemOf(d: Dispatched): Item { if d.fits then Event(d.data) else Oversized }

  function ItemsOf(ds: seq<Dispatched>): seq<Item> {
    if ds == [] then [] else [ItemOf(ds[0])] + ItemsOf(ds[1..])
  }

  lemma {:induction false} ItemsOfAppend(a: seq<Dispatched>, b: seq<Dispatched>)
    ensures ItemsOf(a + b) == ItemsOf(a) + ItemsOf(b)
    decreases |a|
  {
    if a == [] {
      assert a + b == b;
    } else {
      assert (a + b)[1..] == a[1..] + b;
      ItemsOfAppend(a[1..], b);
    }
  }

  // ------------------------------------------------------------- agreement

  /** The event buffer of the assembler stands for the standard's data buffer. */
  predicate Stands(a: Assembler, b: Buffer) {
    && (a.hasData <==> b.data != "")
    && (!a.hasData ==> a.event == "" && !a.eventOverflow && b.linesFit)
    && (a.hasData ==>
          && (a.eventOverflow <==> !b.linesFit || |b.data| - 1 > MAX_EVENT_BYTES)
          && (!a.eventOverflow ==> a.event + "\n" == b.data))
    && |a.event| <= MAX_EVENT_BYTES
  }

  /** The line buffer holds `line`, cut off at the limit. */
  predicate Holds(a: Assembler, line: string) {
    if |line| <= MAX_EVENT_BYTES then a.line == line && !a.lineOverflow
    else a.line == line[..MAX_EVENT_BYTES] && a.lineOverflow
  }

  lemma {:induction false} ColonOfPrefix(line: string, n: nat)
    requires n <= |line|
    ensures Colon(line[..n]) == if Colon(line) <= n then Colon(line) else n
    decreases |line|
  {
    if line != "" && line[0] != ':' && n > 0 {
      assert line[..n][1..] == line[1..][..n - 1];
      ColonOfPrefix(line[1..], n - 1);
    }
  }

  /** Whether a line carries data shows in its first bytes. */
  lemma DataOfPrefix(line: string, n: nat)
    requires 5 <= n <= |line|
    ensures IsData(line[..n]) <==> IsData(line)
  {
    ColonOfPrefix(line, n);
    if Colon(line) <= n {
      assert line[..n][..Colon(line)] == line[..Colon(line)];
    }
  }

  lemma {:induction false} LineReceived(a: Assembler, sofar: string, line: string)
    requires Holds(a, sofar) && forall k | 0 <= k < |line| :: !IsLineEnd(line[k])
    ensures
      var r := Run(a, line);
      && r.items == [] && Holds(r.state, sofar + line)
      && r.state == a.(line := r.state.line, lineOverflow := r.state.lineOverflow,
                       lastWasCr := if line == "" then a.lastWasCr else false)
    decreases |line|
  {
    if line == "" {
      assert sofar + line == sofar;
    } else {
      var b := AddByte(a, line[0]);
      assert |sofar| >= MAX_EVENT_BYTES ==> (sofar + [line[0]])[..MAX_EVENT_BYTES] == sofar[..MAX_EVENT_BYTES];
      LineReceived(b, sofar + [line[0]], line[1..]);
      assert sofar + [line[0]] + line[1..] == sofar + line;
      assert line == [line[0]] + line[1..];
    }
  }

  lemma OneLine(line: string, b: Buffer)
    ensures BufferAfter([line], b) == if line == "" then EMPTY_BUFFER else WithLine(b, line)
    ensures line != "" ==> Interpret([line], b) == []
    ensures line == "" && b.data == "" ==> Interpret([line], b) == []
    ensures line == "" && b.data != "" ==>
      var data := b.data[..|b.data| - 1];
      Interpret([line], b) == [Dispatched(data, b.linesFit && |data| <= MAX_EVENT_BYTES)]
  {
    hide WithLine;
    assert [line][1..] == [];
  }

  /** A blank line dispatches what the standard does. */
  lemma BlankLineTaken(a: Assembler, b: Buffer)
    requires Stands(a, b) && Holds(a, "")
    ensures
      var r := TakeLine(a);
      && r.items == ItemsOf(Interpret([""], b)) && Stands(r.state, EMPTY_BUFFER)
      && Holds(r.state, "") && r.state.lastWasCr == a.lastWasCr
  {
    OneLine("", b);
    hide Interpret, BufferAfter;
    if a.hasData && !a.eventOverflow {
      assert (a.event + "\n")[..|a.event|] == a.event;
    }
  }

  /** A line over the limit loses its event if it carries data, and does nothing otherwise. */
  lemma LongLineTaken(a: Assembler, b: Buffer, line: string)
    requires Stands(a, b) && Holds(a, line) && |line| > MAX_EVENT_BYTES
    ensures
      var r := TakeLine(a);
      && r.items == [] && Stands(r.state, WithLine(b, line))
      && Holds(r.state, "") && r.state.lastWasCr == a.lastWasCr
  {
    DataOfPrefix(line, MAX_EVENT_BYTES);
    hide IsData, FieldValue;
  }

  /** Any other line. */
  lemma ShortLineTaken(a: Assembler, b: Buffer, line: string)
    requires Stands(a, b) && Holds(a, line) && 0 < |line| <= MAX_EVENT_BYTES
    ensures
      var r := TakeLine(a);
      && r.items == [] && Stands(r.state, WithLine(b, line))
      && Holds(r.state, "") && r.state.lastWasCr == a.lastWasCr
  {
    hide IsData, FieldValue;
    if IsData(line) && !a.eventOverflow {
      var more := (if a.hasData then "\n" else "") + FieldValue(line);
      assert b.data + FieldValue(line) + "\n" == (a.event + more) + "\n";
    }
  }

  /** Ending a line does what the standard does with that line. */
  lemma LineTaken(a: Assembler, b: Buffer, line: string)
    requires Stands(a, b) && Holds(a, line)
    ensures
      var r := TakeLine(a);
      && r.items == ItemsOf(Interpret([line], b))
      && Stands(r.state, BufferAfter([line], b))
      && Holds(r.state, "") && r.state.lastWasCr == a.lastWasCr
  {
    assert ItemsOf([]) == [];
    var long := |line| > MAX_EVENT_BYTES;
    hide *;
    OneLine(line, b);
    if line == "" {
      BlankLineTaken(a, b);
    } else if long {
      LongLineTaken(a, b, line);
    } else {
      ShortLineTaken(a, b, line);
    }
  }

  lemma InterpretOne(line: string, more: seq<string>, b: Buffer)
    ensures Interpret([line] + more, b) == Interpret([line], b) + Interpret(more, BufferAfter([line], b))
    ensures BufferAfter([line] + more, b) == BufferAfter(more, BufferAfter([line], b))
  {
    hide WithLine;
    assert ([line] + more)[1..] == more && [line][1..] == [];
  }

  lemma TakeLineShape(a: Assembler)
    ensures TakeLine(a).state.lastWasCr == a.lastWasCr
    ensures TakeLine(a.(lastWasCr := true)) == TakeLine(a).(state := TakeLine(a).state.(lastWasCr := true))
    ensures TakeLine(a.(lastWasCr := false)) == TakeLine(a).(state := TakeLine(a).state.(lastWasCr := false))
  {
    hide IsData, FieldValue;
  }

  /** A line and its end. */
  lemma LineEnded(a: Assembler, b: Buffer, line: string, end: string)
    requires Stands(a, b) && Holds(a, "") && forall k | 0 <= k < |line| :: !IsLineEnd(line[k])
    requires end == "\r" || end == "\n" || end == "\r\n"
    requires end == "\n" && line == "" ==> !a.lastWasCr
    ensures
      var r := Run(a, line + end);
      && r.items == ItemsOf(Interpret([line], b))
      && Stands(r.state, BufferAfter([line], b)) && Holds(r.state, "")
      && (r.state.lastWasCr <==> end == "\r")
  {
    hide Stands, Interpret, BufferAfter, TakeLine;
    LineReceived(a, "", line);
    assert "" + line == line;
    var l := Run(a, line).state;
    SameStanding(a, l, b);
    LineTaken(l, b, line);
    TakeLineShape(l);
    RunAppend(a, line, end);
    var t := TakeLine(l);
    SameStanding(t.state, t.state.(lastWasCr := true), BufferAfter([line], b));
    SameStanding(t.state, t.state.(lastWasCr := false), BufferAfter([line], b));
    var r := Run(l, end);
    RunEnd(l, end);
    assert [] + r.items == r.items;
  }

  lemma SameStanding(a: Assembler, c: Assembler, b: Buffer)
    requires Stands(a, b) && c.event == a.event && c.hasData == a.hasData && c.eventOverflow == a.eventOverflow
    ensures Stands(c, b)
  {
  }

  lemma RunEnd(l: Assembler, end: string)
    requires end == "\r" || end == "\n" || end == "\r\n"
    requires end == "\n" ==> !l.lastWasCr
    ensures Run(l, end) == Result(TakeLine(l).state.(lastWasCr := end == "\r"), TakeLine(l).items)
  {
    TakeLineShape(l);
    hide TakeLine;
    var r := Step(l, end[0]);
    assert end[1..] == if |end| == 2 then "\n" else "";
    if |end| == 2 {
      assert "\n"[1..] == "";
    }
  }

  /** The assembler completes exactly the events of the standard. */
  lemma {:induction false} StreamAssembled(s: string, a: Assembler, b: Buffer)
    requires Stands(a, b) && Holds(a, "")
    requires a.lastWasCr ==> s == "" || s[0] != '\n'
    ensures
      var r := Run(a, s);
      var lines := SplitLines(s);
      && r.items == ItemsOf(Interpret(lines.complete, b))
      && Stands(r.state, BufferAfter(lines.complete, b))
      && Holds(r.state, lines.rest)
    decreases |s|
  {
    hide Stands, Interpret, BufferAfter, Step;
    var e := LineLength(s);
    if e == |s| {
      LineReceived(a, "", s);
      assert "" + s == s;
      SameStanding(a, Run(a, s).state, b);
      InterpretNone(b);
    } else {
      var n := if s[e] == '\r' && e + 1 < |s| && s[e + 1] == '\n' then 2 else 1;
      var line, end, tail := s[..e], s[e..e + n], s[e + n..];
      assert end == if n == 2 then "\r\n" else [s[e]];
      assert s == (line + end) + tail;
      LineEnded(a, b, line, end);
      RunAppend(a, line + end, tail);
      var c := Run(a, line + end).state;
      var d := BufferAfter([line], b);
      StreamAssembled(tail, c, d);
      InterpretOne(line, SplitLines(tail).complete, b);
      ItemsOfAppend(Interpret([line], b), Interpret(SplitLines(tail).complete, d));
    }
  }

  lemma InterpretNone(b: Buffer)
    ensures Interpret([], b) == [] && BufferAfter([], b) == b
  {
  }

  /** The lines of a stream that has ended: as if its last line and its last event were terminated. */
  function EndedLines(s: string): seq<string> {
    var l := SplitLines(s);
    l.complete + (if l.rest == "" then [] else [l.rest]) + [""]
  }

  /** From a fresh reader: the complete lines are interpreted as the standard says, and the end of the
      stream adds what an implied newline and blank line would. */
  lemma ReadsTheStandard(s: string)
    ensures Run(FRESH, s).items == ItemsOf(Interpret(SplitLines(s).complete, EMPTY_BUFFER))
    ensures Run(FRESH, s).items + Finish(Run(FRESH, s).state).items == ItemsOf(Interpret(EndedLines(s), EMPTY_BUFFER))
  {
    hide Interpret, BufferAfter, Run, SplitLines, TakeLine, Stands;
    FreshStands();
    StreamAssembled(s, FRESH, EMPTY_BUFFER);
    var l := SplitLines(s);
    var a := Run(FRESH, s).state;
    var b := BufferAfter(l.complete, EMPTY_BUFFER);
    var last := if l.rest == "" then [] else [l.rest];
    InterpretMany(l.complete, last + [""], EMPTY_BUFFER);
    assert EndedLines(s) == l.complete + (last + [""]);
    ItemsOfAppend(Interpret(l.complete, EMPTY_BUFFER), Interpret(last + [""], b));
    Ended(a, b, l.rest);
  }

  lemma FreshStands()
    ensures Stands(FRESH, EMPTY_BUFFER)
  {
  }

  lemma Ended(a: Assembler, b: Buffer, rest: string)
    requires Stands(a, b) && Holds(a, rest)
    ensures Finish(a).items == ItemsOf(Interpret((if rest == "" then [] else [rest]) + [""], b))
  {
    hide Interpret, BufferAfter, TakeLine, Stands;
    if rest == "" {
      LineTaken(a, b, "");
      BlankTaken(a);
      assert [] + [""] == [""];
      assert [] + Dispatch(a).items == Dispatch(a).items;
    } else {
      LineTaken(a, b, rest);
      var c := TakeLine(a);
      var d := BufferAfter([rest], b);
      LineTaken(c.state, d, "");
      BlankTaken(c.state);
      InterpretOne(rest, [""], b);
      ItemsOfAppend(Interpret([rest], b), Interpret([""], d));
    }
  }

  lemma BlankTaken(a: Assembler)
    requires Holds(a, "")
    ensures TakeLine(a) == Dispatch(a)
  {
  }

  lemma {:induction false} InterpretMany(x: seq<string>, y: seq<string>, b: Buffer)
    ensures Interpret(x + y, b) == Interpret(x, b) + Interpret(y, BufferAfter(x, b))
    decreases |x|
  {
    hide WithLine;
    if x == [] {
      assert x + y == y && [] + Interpret(y, b) == Interpret(y, b);
    } else {
      InterpretOne(x[0], x[1..], b);
      assert x == [x[0]] + x[1..] && x + y == [x[0]] + (x[1..] + y);
      InterpretOne(x[0], x[1..] + y, b);
      InterpretMany(x[1..], y, BufferAfter([x[0]], b));
    }
  }

  // -------------------------------------------------------------- the queue

  /** Bytes taken since the last rewind, events not yet read, and losses. */
  datatype Queue = Queue(used: nat, events: seq<string>, dropped: nat)

  function Enqueue(q: Queue, item: Item): Queue {
    match item
    case Oversized => q.(dropped := q.dropped + 1)
    case Event(data) =>
      if q.used + 2 + |data| > QUEUE_BYTES then q.(dropped := q.dropped + 1)
      else q.(used := q.used + 2 + |data|, events := q.events + [data])
  }

  function EnqueueAll(q: Queue, items: seq<Item>): Queue
    decreases |items|
  {
    if items == [] then q else EnqueueAll(Enqueue(q, items[0]), items[1..])
  }

  lemma {:induction false} EnqueueAppend(q: Queue, a: seq<Item>, b: seq<Item>)
    ensures EnqueueAll(q, a + b) == EnqueueAll(EnqueueAll(q, a), b)
    decreases |a|
  {
    if a == [] {
      assert a + b == b;
    } else {
      assert (a + b)[1..] == a[1..] + b;
      EnqueueAppend(Enqueue(q, a[0]), a[1..], b);
    }
  }

  /** A drained queue is rewound when the next block arrives. */
  function Rewound(q: Queue): Queue {
    if q.events == [] then q.(used := 0) else q
  }

  function DataOf(items: seq<Item>): seq<string> {
    if items == [] then []
    else (if items[0].Event? then [items[0].data] else []) + DataOf(items[1..])
  }

  function Lost(items: seq<Item>): nat {
    if items == [] then 0 else (if items[0].Oversized? then 1 else 0) + Lost(items[1..])
  }

  function Load(items: seq<Item>): nat {
    if items == [] then 0 else (if items[0].Event? then 2 + |items[0].data| else 0) + Load(items[1..])
  }

  lemma {:induction false} LoadAppend(a: seq<Item>, b: seq<Item>)
    ensures Load(a + b) == Load(a) + Load(b)
    decreases |a|
  {
    if a == [] {
      assert a + b == b;
    } else {
      assert (a + b)[1..] == a[1..] + b;
      LoadAppend(a[1..], b);
    }
  }

  lemma {:induction false} AllFit(q: Queue, items: seq<Item>)
    requires q.used + Load(items) <= QUEUE_BYTES
    ensures EnqueueAll(q, items)
         == Queue(q.used + Load(items), q.events + DataOf(items), q.dropped + Lost(items))
    decreases |items|
  {
    if items == [] {
      assert q.events + [] == q.events;
    } else {
      AllFit(Enqueue(q, items[0]), items[1..]);
      if items[0].Event? {
        assert q.events + [items[0].data] + DataOf(items[1..]) == q.events + DataOf(items);
      } else {
        assert [] + DataOf(items[1..]) == DataOf(items);
      }
    }
  }

  // ------------------------------------------- room for what one block brings

  predicate Bounded(a: Assembler) {
    |a.line| <= MAX_EVENT_BYTES && |a.event| <= MAX_EVENT_BYTES && (!a.hasData ==> a.event == "")
  }

  /** Bytes received that an event still to come may carry. */
  function Pending(a: Assembler): nat {
    |a.line| + |a.event| + if a.hasData then 2 else 0
  }

  lemma {:induction false} StepBounded(a: Assembler, c: char)
    requires Bounded(a)
    ensures var r := Step(a, c);
      && Bounded(r.state)
      && Load(r.items) + Pending(r.state) <= Pending(a) + 1
      && Load(r.items) <= 2 + MAX_EVENT_BYTES
      && (r.items != [] ==> Pending(r.state) == 0)
  {
    TakeLineBounded(a);
    hide TakeLine;
    if !IsLineEnd(c) {
      assert Load([]) == 0;
    }
  }

  lemma TakeLineBounded(a: Assembler)
    requires Bounded(a)
    ensures var r := TakeLine(a);
      && Bounded(r.state)
      && Load(r.items) + Pending(r.state) <= Pending(a)
      && Load(r.items) <= 2 + MAX_EVENT_BYTES
      && (r.items != [] ==> Pending(r.state) == 0)
  {
    hide Dispatch, Load;
    LoadNone();
    DispatchBounded(a.(line := "", lineOverflow := false));
  }

  lemma LoadNone()
    ensures Load([]) == 0
  {
  }

  lemma DispatchBounded(a: Assembler)
    requires Bounded(a) && a.line == ""
    ensures var r := Dispatch(a);
      && Bounded(r.state) && Pending(r.state) == 0
      && Load(r.items) <= Pending(a)
      && Load(r.items) <= 2 + MAX_EVENT_BYTES
  {
    if a.hasData {
      assert Dispatch(a).items[1..] == [];
    }
  }

  /** Amortised: every byte of an event was received, and counted, once. */
  lemma {:induction false} RunBounded(a: Assembler, bytes: string)
    requires Bounded(a)
    ensures var r := Run(a, bytes);
      Bounded(r.state) && Load(r.items) + Pending(r.state) <= Pending(a) + |bytes|
    decreases |bytes|
  {
    hide Step, Bounded, Pending;
    if bytes != "" {
      var r := Step(a, bytes[0]);
      StepBounded(a, bytes[0]);
      RunBounded(r.state, bytes[1..]);
      LoadAppend(r.items, Run(r.state, bytes[1..]).items);
    }
  }

  /** What a block brings, and what the end of the stream right after it brings. The first event of a block
      may have been waiting since before it; everything after is made of bytes of the block. */
  lemma {:induction false} BlockBounded(a: Assembler, bytes: string)
    requires Bounded(a)
    ensures var r := Run(a, bytes); var f := Finish(r.state);
      Bounded(r.state) && Load(r.items) + Load(f.items) <= 2 + MAX_EVENT_BYTES + |bytes|
    decreases |bytes|
  {
    hide Step;
    if bytes == "" {
      FinishBounded(a);
    } else {
      var r := Step(a, bytes[0]);
      var s := Run(r.state, bytes[1..]);
      StepBounded(a, bytes[0]);
      LoadAppend(r.items, s.items);
      if r.items == [] {
        BlockBounded(r.state, bytes[1..]);
      } else {
        RunBounded(r.state, bytes[1..]);
        FinishBounded(s.state);
      }
    }
  }

  lemma FinishBounded(a: Assembler)
    requires Bounded(a)
    ensures Load(Finish(a).items) <= Pending(a) && Load(Finish(a).items) <= 2 + MAX_EVENT_BYTES
  {
    var r := if a.line != "" || a.lineOverflow then TakeLine(a) else Result(a, []);
    TakeLineBounded(a);
    TakeLineClears(a);
    DispatchBounded(r.state);
    LoadAppend(r.items, Dispatch(r.state).items);
    hide TakeLine, Dispatch;
    assert r.items == [] ==> Load(r.items) == 0;
    assert a.line == "" && a.lineOverflow ==> r.items == [];
  }

  lemma TakeLineClears(a: Assembler)
    ensures TakeLine(a).state.line == "" && !TakeLine(a).state.lineOverflow
    ensures a.line != "" || a.lineOverflow ==> TakeLine(a).items == []
  {
  }

  const MAX_BLOCK_BYTES: nat := QUEUE_BYTES - 2 - MAX_EVENT_BYTES

  /** A block of at most 8190 bytes, fed to a reader whose queue was drained, loses no event for lack of
      room, and neither does the end of the stream after it: every loss is an oversized event. */
  lemma NoLossForRoom(a: Assembler, q: Queue, bytes: string)
    requires Bounded(a) && q.events == [] && |bytes| <= MAX_BLOCK_BYTES
    ensures
      var r := Run(a, bytes);
      var f := Finish(r.state);
      var fed := EnqueueAll(Rewound(q), r.items);
      && fed.events == DataOf(r.items) && fed.dropped == q.dropped + Lost(r.items)
      && var drained := fed.(events := []);
         var ended := EnqueueAll(drained, f.items);
         ended.events == DataOf(f.items) && ended.dropped == fed.dropped + Lost(f.items)
  {
    hide Run, Finish, Bounded;
    BlockBounded(a, bytes);
    var r := Run(a, bytes);
    var f := Finish(r.state);
    AllFit(Rewound(q), r.items);
    AllFit(EnqueueAll(Rewound(q), r.items).(events := []), f.items);
    assert [] + DataOf(r.items) == DataOf(r.items);
    assert [] + DataOf(f.items) == DataOf(f.items);
  }
}
