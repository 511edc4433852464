/** Events as the gateway frames them: one `data: ` line and a blank line each. */
module SseFrames {
  import opened SseSpec

  /** The longest event that fits on one line: six bytes of the line are its field name. */
  const MAX_LINE_DATA: nat := 8186

  predicate IsOneLine(v: string) { forall k | 0 <= k < |v| :: !IsLineEnd(v[k]) }

  predicate AllDeliverable(vs: seq<string>) {
    forall k | 0 <= k < |vs| :: IsOneLine(vs[k]) && |vs[k]| <= MAX_LINE_DATA
  }

  function Framed(v: string): string { ("data: " + v) + ("\n" + "\n") }

  function Frames(vs: seq<string>): string {
    if vs == [] then "" else Framed(vs[0]) + Frames(vs[1..])
  }

  function EventsOf(vs: seq<string>): seq<Item> {
    if vs == [] then [] else [Event(vs[0])] + EventsOf(vs[1..])
  }

  lemma DataPrefix(v: string)
    ensures IsData("data: " + v) && FieldValue("data: " + v) == v
  {
    var line := "data: " + v;
    assert line[..4] == "data" && line[4] == ':' && line[5..][1..] == v;
    assert Colon(line) == 4 by {
      ColonOfPrefix(line, 5);
      assert line[..5] == "data:";
      assert "data:"[1..] == "ata:" && "ata:"[1..] == "ta:" && "ta:"[1..] == "a:" && "a:"[1..] == ":";
      assert Colon(":") == 0 && Colon("a:") == 1 && Colon("ta:") == 2 && Colon("ata:") == 3;
    }
  }

  /** The state after the line, before its end. */
  lemma LineRead(v: string)
    requires IsOneLine(v)
    ensures
      var r := Run(FRESH, "data: " + v);
      && r.items == [] && Holds(r.state, "data: " + v)
      && r.state == FRESH.(line := r.state.line, lineOverflow := r.state.lineOverflow)
  {
    var line := "data: " + v;
    assert IsOneLine(line) by {
      assert forall k | 6 <= k < |line| :: line[k] == v[k - 6];
    }
    hide Run;
    LineReceived(FRESH, "", line);
    assert "" + line == line;
  }

  lemma EndsOfFrame(a: Assembler)
    requires !a.lastWasCr
    ensures
      var r := TakeLine(a);
      var s := TakeLine(r.state);
      Run(a, "\n" + "\n") == Result(s.state, r.items + s.items)
  {
    TakeLineShape(a);
    var r := TakeLine(a);
    var s := TakeLine(r.state);
    assert ("\n" + "\n")[1..] == "\n" && "\n"[1..] == "";
    hide TakeLine;
    assert Run(r.state, "\n") == Result(s.state, s.items + []);
    assert s.items + [] == s.items;
  }

  /** A frame delivers its data exactly when it is at most 8186 bytes long; longer data is a loss that is
      counted. Either way the reader is ready for the next frame. */
  lemma OneLineLimit(v: string)
    requires IsOneLine(v)
    ensures Run(FRESH, Framed(v)) == Result(FRESH, [if |v| <= MAX_LINE_DATA then Event(v) else Oversized])
  {
    var line := "data: " + v;
    var a := Run(FRESH, line).state;
    LineRead(v);
    hide Run;
    RunAppend(FRESH, line, "\n" + "\n");
    EndsOfFrame(a);
    FrameTaken(a, v);
    hide *;
    var item := if |v| <= MAX_LINE_DATA then Event(v) else Oversized;
    assert [] + ([] + [item]) == [item];
  }

  lemma FrameTaken(a: Assembler, v: string)
    requires Holds(a, "data: " + v) && a == FRESH.(line := a.line, lineOverflow := a.lineOverflow)
    ensures
      var r := TakeLine(a);
      r.items == [] && TakeLine(r.state) == Result(FRESH, [if |v| <= MAX_LINE_DATA then Event(v) else Oversized])
  {
    var line := "data: " + v;
    DataPrefix(v);
    if |line| > MAX_EVENT_BYTES {
      DataOfPrefix(line, MAX_EVENT_BYTES);
    } else {
      assert "" + v == v;
    }
    hide IsData, FieldValue;
  }

  /** A stream of frames delivers their data in order and leaves nothing behind. */
  lemma {:induction false} FramesDelivered(vs: seq<string>)
    requires AllDeliverable(vs)
    ensures Run(FRESH, Frames(vs)) == Result(FRESH, EventsOf(vs))
    ensures Finish(FRESH).items == [] && DataOf(EventsOf(vs)) == vs
    decreases |vs|
  {
    hide IsOneLine;
    if vs != [] {
      hide Run, Framed;
      OneLineLimit(vs[0]);
      FramesDelivered(vs[1..]);
      RunAppend(FRESH, Framed(vs[0]), Frames(vs[1..]));
      assert [vs[0]] + vs[1..] == vs;
      assert EventsOf(vs)[1..] == EventsOf(vs[1..]);
    }
  }
}
