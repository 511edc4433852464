/** The reader itself: three fixed arrays and the indices into them. */
module Sse {
  import opened Bytes
  import opened SseSpec

  /** An event as it waits in the queue: two bytes of length, low byte first, then the data. */
  function Record(data: string): (r: string)
    ensures |r| == 2 + |data|
  {
    [(|data| % 256) as char, (|data| / 256 % 256) as char] + data
  }

  function Records(events: seq<string>): string {
    if events == [] then "" else Record(events[0]) + Records(events[1..])
  }

  lemma {:induction false} RecordsAppend(events: seq<string>, data: string)
    ensures Records(events + [data]) == Records(events) + Record(data)
    decreases |events|
  {
    hide Record;
    if events == [] {
      assert events + [data] == [data];
      assert Record(data) + "" == Record(data);
    } else {
      assert (events + [data])[1..] == events[1..] + [data];
      RecordsAppend(events[1..], data);
    }
  }

  class SseReader {
    const line: array<char>
    var lineLen: nat
    var lineOverflow: bool
    var lastWasCr: bool
    const event: array<char>
    var eventLen: nat
    var eventHasData: bool
    var eventOverflow: bool
    const fifo: array<char>
    var fifoWrite: nat
    var fifoRead: nat
    var dropped: nat
    /** The events between the read and write positions. */
    ghost var waiting: seq<string>

    ghost predicate Valid()
      reads this, line, event, fifo
      ensures Valid() ==> lineLen <= line.Length && eventLen <= event.Length
    {
      && line.Length == MAX_EVENT_BYTES && event.Length == MAX_EVENT_BYTES && fifo.Length == QUEUE_BYTES
      && line != event && event != fifo && line != fifo
      && lineLen <= line.Length && eventLen <= event.Length
      && fifoRead <= fifoWrite <= fifo.Length
      && (!eventHasData ==> eventLen == 0)
      && fifo[fifoRead..fifoWrite] == Records(waiting)
    }

    ghost function State(): Assembler
      reads this, line, event
      requires lineLen <= line.Length && eventLen <= event.Length
    {
      Assembler(line[..lineLen], lineOverflow, lastWasCr, event[..eventLen], eventHasData, eventOverflow)
    }

    ghost function Waiting(): Queue
      reads this
    {
      Queue(fifoWrite, waiting, dropped)
    }

    constructor ()
      ensures Valid() && fresh(line) && fresh(event) && fresh(fifo)
      ensures State() == FRESH && Waiting() == Queue(0, [], 0)
    {
      line := new char[MAX_EVENT_BYTES];
      event := new char[MAX_EVENT_BYTES];
      fifo := new char[QUEUE_BYTES];
      lineLen, lineOverflow, lastWasCr := 0, false, false;
      eventLen, eventHasData, eventOverflow := 0, false, false;
      fifoWrite, fifoRead, dropped, waiting := 0, 0, 0, [];
    }

    /** Queue the first `len` bytes of the event buffer, or count their loss. */
    method QueueEvent(len: nat)
      requires Valid() && len <= event.Length
      modifies this`fifoWrite, this`waiting, this`dropped, fifo
      ensures Valid() && State() == old(State())
      ensures Waiting() == Enqueue(old(Waiting()), Event(old(event[..len])))
    {
      hide Records;
      var need := 2 + len;
      if fifoWrite + need > fifo.Length {
        dropped := dropped + 1;
        return;
      }
      ghost var data := event[..len];
      CopyRecord([(len % 256) as char, (len / 256 % 256) as char], event, len, fifo, fifoRead, fifoWrite);
      fifoWrite := fifoWrite + need;
      RecordsAppend(waiting, data);
      waiting := waiting + [data];
    }

    /** Queue the assembled event, or count its loss. */
    method DispatchEvent()
      requires Valid()
      modifies this, fifo
      ensures Valid()
      ensures State() == Dispatch(old(State())).state
      ensures Waiting() == EnqueueAll(old(Waiting()), Dispatch(old(State())).items)
    {
      hide Records;
      var hadData, overflow, len := eventHasData, eventOverflow, eventLen;
      eventLen := 0;
      eventHasData := false;
      eventOverflow := false;
      EnqueueOne(Waiting(), if overflow then Oversized else Event(event[..len]));
      if !hadData {
        return;
      }
      if overflow {
        dropped := dropped + 1;
        return;
      }
      QueueEvent(len);
    }

    /** Join a value to the event; second and later values are preceded by a line feed. */
    method AppendValue(value: string)
      requires Valid()
      modifies this, event
      ensures Valid()
      ensures
        var a := old(State());
        var more := (if a.hasData then "\n" else "") + value;
        State() == if |a.event| + |more| > MAX_EVENT_BYTES then a.(eventOverflow := true, hasData := true)
                   else a.(event := a.event + more, hasData := true)
      ensures Waiting() == old(Waiting())
    {
      hide Records;
      var need := |value| + (if eventHasData then 1 else 0);
      if eventLen + need > event.Length {
        eventOverflow := true;
        eventHasData := true;
        return;
      }
      ghost var sofar := event[..eventLen];
      if eventHasData {
        event[eventLen] := '\n';
        eventLen := eventLen + 1;
        assert event[..eventLen] == sofar + "\n";
      }
      ghost var joined := event[..eventLen];
      CopyText(value, event, eventLen);
      eventLen := eventLen + |value|;
      assert event[..eventLen] == joined + value;
      eventHasData := true;
    }

    /** Interpret the line in the line buffer, and clear it. */
    method EndLine()
      requires Valid()
      modifies this, event, fifo
      ensures Valid()
      ensures State() == TakeLine(old(State())).state
      ensures Waiting() == EnqueueAll(old(Waiting()), TakeLine(old(State())).items)
    {
      hide Records, Dispatch, EnqueueAll, FieldName, FieldValue, Colon;
      EnqueueNone(Waiting());
      var text := line[..lineLen];
      var overflow := lineOverflow;
      lineLen := 0;
      lineOverflow := false;
      if text == "" && !overflow {
        DispatchEvent();
        return;
      }
      if text != "" && text[0] == ':' {
        return;
      }
      var name, value := SplitField(text);
      if name != "data" {
        return;
      }
      NoNameNoData(text);
      if overflow {
        eventOverflow := true;
        eventHasData := true;
        return;
      }
      AppendValue(value);
    }

    /** One byte of a block. */
    method TakeByte(c: char)
      requires Valid()
      modifies this, line, event, fifo
      ensures Valid()
      ensures State() == Step(old(State()), c).state
      ensures Waiting() == EnqueueAll(old(Waiting()), Step(old(State()), c).items)
    {
      hide Records, EnqueueAll, TakeLine;
      EnqueueNone(Waiting());
      if c == '\r' {
        // A lone CR also ends a line.
        EndLine();
        lastWasCr := true;
        return;
      }
      if c == '\n' {
        if lastWasCr {
          // The second half of a CR LF.
          lastWasCr := false;
          return;
        }
        EndLine();
        return;
      }
      lastWasCr := false;
      if lineLen < line.Length {
        ghost var sofar := line[..lineLen];
        line[lineLen] := c;
        lineLen := lineLen + 1;
        assert line[..lineLen] == sofar + [c];
      } else {
        lineOverflow := true;
      }
    }

    /** Take in one block, split anywhere. A drained queue starts over from its front. */
    method Feed(bytes: string)
      requires Valid()
      modifies this, line, event, fifo
      ensures Valid()
      ensures State() == Run(old(State()), bytes).state
      ensures Waiting() == EnqueueAll(Rewound(old(Waiting())), Run(old(State()), bytes).items)
    {
      hide Records, EnqueueAll, Step, Run;
      RecordsEmpty(waiting);
      if fifoRead == fifoWrite {
        fifoRead := 0;
        fifoWrite := 0;
      }
      ghost var start, queue := State(), Waiting();
      RunNone(start);
      EnqueueNone(queue);
      assert bytes[..0] == "";
      for i := 0 to |bytes|
        invariant Valid()
        invariant State() == Run(start, bytes[..i]).state
        invariant Waiting() == EnqueueAll(queue, Run(start, bytes[..i]).items)
      {
        StepRun(start, bytes, i);
        EnqueueAppend(queue, Run(start, bytes[..i]).items, Step(State(), bytes[i]).items);
        TakeByte(bytes[i]);
      }
      assert bytes[..|bytes|] == bytes;
    }

    /** The data of the oldest event in the queue. Reading does not disturb the queue's bytes. */
    method NextEvent() returns (r: Option<string>)
      requires Valid()
      modifies this`fifoRead, this`waiting
      ensures Valid() && State() == old(State())
      ensures r == if old(waiting) == [] then None else Some(old(waiting)[0])
      ensures Waiting() == old(Waiting()).(events := if old(waiting) == [] then [] else old(waiting)[1..])
    {
      RecordsEmpty(waiting);
      if fifoRead == fifoWrite {
        return None;
      }
      ghost var rest := Records(waiting[1..]);
      assert fifo[fifoRead..fifoWrite] == Record(waiting[0]) + rest;
      assert fifo[fifoRead] == fifo[fifoRead..fifoWrite][0] && fifo[fifoRead + 1] == fifo[fifoRead..fifoWrite][1];
      var len := fifo[fifoRead] as nat + fifo[fifoRead + 1] as nat * 256;
      assert len == |waiting[0]|;
      hide Records;
      ghost var queued := fifo[fifoRead..fifoWrite];
      assert queued[2..2 + len] == waiting[0] && queued[2 + len..] == rest;
      hide Record;
      SubSlice(fifo, fifoRead, fifoWrite, 2, 2 + len);
      SubSlice(fifo, fifoRead, fifoWrite, 2 + len, fifoWrite - fifoRead);
      r := Some(fifo[fifoRead + 2..fifoRead + 2 + len]);
      fifoRead := fifoRead + 2 + len;
      waiting := waiting[1..];
    }

    /** The stream has ended. */
    method EndOfStream()
      requires Valid()
      modifies this, event, fifo
      ensures Valid()
      ensures State() == Finish(old(State())).state
      ensures Waiting() == EnqueueAll(old(Waiting()), Finish(old(State())).items)
    {
      hide Records, EnqueueAll, TakeLine, Dispatch;
      EnqueueNone(Waiting());
      ghost var queue := Waiting();
      ghost var first := if lineLen > 0 || lineOverflow then TakeLine(State()) else Result(State(), []);
      if lineLen > 0 || lineOverflow {
        EndLine();
      }
      DispatchEvent();
      EnqueueAppend(queue, first.items, Dispatch(first.state).items);
    }
  }

  lemma NoNameNoData(text: string)
    ensures FieldName(text) == "data" ==> text != ""
  {
  }

  lemma RecordsEmpty(events: seq<string>)
    ensures Records(events) == "" <==> events == []
  {
  }

  lemma EnqueueOne(q: Queue, item: Item)
    ensures EnqueueAll(q, [item]) == Enqueue(q, item) && EnqueueAll(q, []) == q
  {
    assert [item][1..] == [];
  }

  lemma EnqueueNone(q: Queue)
    ensures EnqueueAll(q, []) == q
  {
  }

  lemma RunNone(a: Assembler)
    ensures Run(a, "") == Result(a, [])
  {
  }

  lemma StepRun(start: Assembler, bytes: string, i: nat)
    requires i < |bytes|
    ensures
      var a := Run(start, bytes[..i]);
      var s := Step(a.state, bytes[i]);
      Run(start, bytes[..i + 1]) == Result(s.state, a.items + s.items)
  {
    var a := Run(start, bytes[..i]);
    var s := Step(a.state, bytes[i]);
    hide Step;
    assert bytes[..i + 1] == bytes[..i] + [bytes[i]];
    RunAppend(start, bytes[..i], [bytes[i]]);
    assert [bytes[i]][1..] == "" && s.items + [] == s.items;
  }

  /** The name and the value of a field. */
  method SplitField(text: string) returns (name: string, value: string)
    ensures name == FieldName(text) && value == FieldValue(text)
  {
    var colon := 0;
    assert text[0..] == text;
    while colon < |text| && text[colon] != ':'
      invariant 0 <= colon <= |text| && Colon(text) == colon + Colon(text[colon..])
    {
      assert text[colon..][1..] == text[colon + 1..];
      colon := colon + 1;
    }
    if colon == |text| {
      assert text[..colon] == text;
      return text, "";
    }
    name := text[..colon];
    value := text[colon + 1..];
    if value != "" && value[0] == ' ' {
      value := value[1..];
    }
  }
}
