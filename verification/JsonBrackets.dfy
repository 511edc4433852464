/** When a page is valid, said without its stack.

    Any calls may be made on a writer, in any order. The page is valid if and only if its brackets match: each one that
    is opened is closed by its own kind, at most twelve are open at once, and everything fits (`ValidExactly`). */
module JsonBrackets {
  import opened JsonWriter
  import T = JsonRoundTrip

  predicate IsBracket(op: Op) { op.Begin? || op.End? }

  /** Brackets match, at most `room` deep. */
  predicate Balanced(ops: seq<Op>, room: nat)
    decreases |ops|
  {
    || ops == []
    || (!IsBracket(ops[0]) && Balanced(ops[1..], room))
    || (ops[0].Begin? && room > 0 &&
        exists j | 1 <= j < |ops| ::
          ops[j] == End(ops[0].isObject) && Balanced(ops[1..j], room - 1) && Balanced(ops[j + 1..], room))
  }

  /** How many brackets are open after the first `k` calls. */
  function Depth(ops: seq<Op>, k: nat): int
    requires k <= |ops|
  {
    if k == 0 then 0
    else Depth(ops, k - 1) + if ops[k - 1].Begin? then 1 else if ops[k - 1].End? then -1 else 0
  }

  function Write(p: Page, ops: seq<Op>): Page { Run(p, Endless, ops) }

  lemma {:induction false} PutTextKeeps(p: Page, text: string)
    ensures var q := PutText(p, Endless, text); q.stack == p.stack && q.overflowed == p.overflowed
    decreases |text|
  {
    if text != "" {
      PutTextKeeps(Put(p, Endless, text[0]), text[1..]);
    }
  }

  /** What one call does to the stack, when it does not overflow. */
  lemma OneCall(p: Page, op: Op)
    ensures
      var q := Apply(p, Endless, op);
      && (p.overflowed ==> q.overflowed)
      && (!IsBracket(op) ==> q.stack == p.stack && q.overflowed == p.overflowed)
      && (op.Begin? ==>
            && (!q.overflowed <==> !p.overflowed && |p.stack| < 12)
            && (!q.overflowed ==> q.stack == p.stack + [op.isObject]))
      && (op.End? ==>
            && (!q.overflowed <==> !p.overflowed && p.stack != [] && p.stack[|p.stack| - 1] == op.isObject)
            && (!q.overflowed ==> q.stack == p.stack[..|p.stack| - 1]))
  {
    hide PutText, Quoted, NaturalText, IntegerText;
    var s := Separate(p, Endless);
    forall text: string ensures
      var q := PutText(s, Endless, text);
      q.stack == p.stack && q.overflowed == p.overflowed
    {
      PutTextKeeps(s, text);
    }
  }

  lemma WriteOn(p: Page, a: seq<Op>, b: seq<Op>)
    ensures Write(p, a + b) == Write(Write(p, a), b)
  {
    hide Run;
    T.RunAppend(p, Endless, a, b);
  }

  lemma {:induction false} OverflowStays(p: Page, ops: seq<Op>)
    ensures p.overflowed ==> Write(p, ops).overflowed
    decreases |ops|
  {
    hide Apply;
    if ops != [] {
      OneCall(p, ops[0]);
      OverflowStays(Apply(p, Endless, ops[0]), ops[1..]);
    }
  }

  lemma WriteOne(p: Page, op: Op)
    ensures Write(p, [op]) == Apply(p, Endless, op)
  {
    hide Run, Apply;
    T.RunOne(p, Endless, op);
  }

  /** Before an overflow the stack is as high as the calls say. */
  lemma {:induction false} StackHeight(p: Page, ops: seq<Op>, k: nat)
    requires k <= |ops| && !Write(p, ops).overflowed
    ensures !Write(p, ops[..k]).overflowed && |Write(p, ops[..k]).stack| == |p.stack| + Depth(ops, k)
    decreases k
  {
    hide Write, Apply;
    assert ops == ops[..k] + ops[k..];
    WriteOn(p, ops[..k], ops[k..]);
    OverflowStays(Write(p, ops[..k]), ops[k..]);
    if k == 0 {
      WriteNothing(p, ops[..0]);
    } else {
      StackHeight(p, ops, k - 1);
      assert ops[..k] == ops[..k - 1] + [ops[k - 1]];
      WriteOn(p, ops[..k - 1], [ops[k - 1]]);
      WriteOne(Write(p, ops[..k - 1]), ops[k - 1]);
      OneCall(Write(p, ops[..k - 1]), ops[k - 1]);
    }
  }

  lemma WriteNothing(p: Page, none: seq<Op>)
    requires none == []
    ensures Write(p, none) == p
  {
  }

  /** What lies under the lowest point of the stack is not touched. */
  lemma {:induction false} KeepsBase(p: Page, ops: seq<Op>, n: nat)
    requires !Write(p, ops).overflowed && n <= |p.stack|
    requires forall k | 0 <= k <= |ops| :: |p.stack| + Depth(ops, k) >= n
    ensures n <= |Write(p, ops).stack| && Write(p, ops).stack[..n] == p.stack[..n]
    decreases |ops|
  {
    hide Write, Apply;
    if ops == [] {
      WriteNothing(p, ops);
    } else {
      var front, last := ops[..|ops| - 1], ops[|ops| - 1];
      assert ops == front + [last];
      WriteOn(p, front, [last]);
      WriteOne(Write(p, front), last);
      StackHeight(p, ops, |front|);
      StackHeight(p, ops, |ops|);
      assert ops[..|ops|] == ops;
      forall k | 0 <= k <= |front| ensures |p.stack| + Depth(front, k) >= n {
        DepthPrefix(ops, front, k);
      }
      KeepsBase(p, front, n);
      OneCall(Write(p, front), last);
    }
  }

  lemma {:induction false} DepthPrefix(ops: seq<Op>, front: seq<Op>, k: nat)
    requires front <= ops && k <= |front|
    ensures Depth(front, k) == Depth(ops, k)
    decreases k
  {
    if k > 0 {
      DepthPrefix(ops, front, k - 1);
    }
  }

  lemma {:induction false} DepthFrom(ops: seq<Op>, n: nat, k: nat)
    requires n <= |ops| && k <= |ops| - n
    ensures Depth(ops[n..], k) == Depth(ops, n + k) - Depth(ops, n)
    decreases k
  {
    if k > 0 {
      DepthFrom(ops, n, k - 1);
    }
  }

  /** Balanced calls leave the stack as it was. */
  lemma {:induction false} BalancedRuns(p: Page, ops: seq<Op>, room: nat)
    requires Balanced(ops, room) && !p.overflowed && |p.stack| + room <= 12
    ensures !Write(p, ops).overflowed && Write(p, ops).stack == p.stack
    decreases |ops|
  {
    hide Write, Apply;
    if ops == [] {
      WriteNothing(p, ops);
    } else {
      var q := Apply(p, Endless, ops[0]);
      OneCall(p, ops[0]);
      WriteOne(p, ops[0]);
      if !IsBracket(ops[0]) && Balanced(ops[1..], room) {
        assert ops == [ops[0]] + ops[1..];
        WriteOn(p, [ops[0]], ops[1..]);
        BalancedRuns(q, ops[1..], room);
      } else {
        var j :| 1 <= j < |ops| && ops[j] == End(ops[0].isObject) && Balanced(ops[1..j], room - 1)
                 && Balanced(ops[j + 1..], room);
        InThree(p, ops, j);
        BalancedRuns(q, ops[1..j], room - 1);
        var r := Write(q, ops[1..j]);
        OneCall(r, ops[j]);
        BalancedRuns(Apply(r, Endless, ops[j]), ops[j + 1..], room);
      }
    }
  }

  lemma InThree(p: Page, ops: seq<Op>, j: nat)
    requires 1 <= j < |ops|
    ensures Write(p, ops) == Write(Apply(Write(Apply(p, Endless, ops[0]), ops[1..j]), Endless, ops[j]), ops[j + 1..])
  {
    hide Write, Apply;
    var q := Apply(p, Endless, ops[0]);
    var inner, rest := ops[1..j], ops[j + 1..];
    assert ops == [ops[0]] + (inner + ([ops[j]] + rest));
    WriteOn(p, [ops[0]], inner + ([ops[j]] + rest));
    WriteOne(p, ops[0]);
    WriteOn(q, inner, [ops[j]] + rest);
    WriteOn(Write(q, inner), [ops[j]], rest);
    WriteOne(Write(q, inner), ops[j]);
  }

  /** Where the bracket that the first call opens is closed. */
  lemma FirstReturn(ops: seq<Op>) returns (j: nat)
    requires ops != [] && ops[0].Begin? && Depth(ops, |ops|) == 0
    ensures 1 <= j < |ops| && Depth(ops, j) == 1 && Depth(ops, j + 1) == 0
    ensures forall k | 1 <= k <= j :: Depth(ops, k) >= 1
  {
    assert Depth(ops, 1) == 1;
    j := 1;
    while Depth(ops, j + 1) >= 1
      invariant 1 <= j < |ops| && forall k | 1 <= k <= j :: Depth(ops, k) >= 1
      decreases |ops| - j
    {
      j := j + 1;
    }
  }

  /** Calls that never go below where they began, and end there, are balanced. */
  lemma {:induction false} RunsBalanced(p: Page, ops: seq<Op>)
    requires !Write(p, ops).overflowed && |p.stack| <= 12
    requires Depth(ops, |ops|) == 0 && forall k | 0 <= k <= |ops| :: Depth(ops, k) >= 0
    ensures Balanced(ops, 12 - |p.stack|)
    decreases |ops|
  {
    hide Write, Apply, Balanced;
    if ops == [] {
      BalancedNone(12 - |p.stack|);
    } else {
      var q := Apply(p, Endless, ops[0]);
      assert Depth(ops, 1) == if ops[0].Begin? then 1 else if ops[0].End? then -1 else 0;
      StackHeight(p, ops, 1);
      assert ops[..1] == [ops[0]] && ops == [ops[0]] + ops[1..];
      WriteOne(p, ops[0]);
      OneCall(p, ops[0]);
      WriteOn(p, [ops[0]], ops[1..]);
      if !IsBracket(ops[0]) {
        forall k | 0 <= k <= |ops| - 1 ensures Depth(ops[1..], k) == Depth(ops, 1 + k) {
          DepthFrom(ops, 1, k);
        }
        RunsBalanced(q, ops[1..]);
        BalancedPlain(ops, 12 - |p.stack|);
      } else {
        OpenedBalanced(p, ops);
      }
    }
  }

  lemma BalancedNone(room: nat)
    ensures Balanced([], room)
  {
  }

  lemma BalancedPlain(ops: seq<Op>, room: nat)
    requires ops != [] && !IsBracket(ops[0]) && Balanced(ops[1..], room)
    ensures Balanced(ops, room)
  {
  }

  lemma BalancedPair(ops: seq<Op>, j: nat, room: nat)
    requires 1 <= j < |ops| && ops[0].Begin? && ops[j] == End(ops[0].isObject) && room > 0
    requires Balanced(ops[1..j], room - 1) && Balanced(ops[j + 1..], room)
    ensures Balanced(ops, room)
  {
  }

  lemma OpenedBalanced(p: Page, ops: seq<Op>)
    requires ops != [] && ops[0].Begin? && !Write(p, ops).overflowed && |p.stack| < 12
    requires Depth(ops, |ops|) == 0 && forall k | 0 <= k <= |ops| :: Depth(ops, k) >= 0
    ensures Balanced(ops, 12 - |p.stack|)
    decreases |ops|, 0
  {
    hide Write, Apply, Balanced, Depth;
    var j := FirstReturn(ops);
    var q := Apply(p, Endless, ops[0]);
    var inner, rest := ops[1..j], ops[j + 1..];
    var r := Write(q, inner);
    var t := Apply(r, Endless, ops[j]);
    InThree(p, ops, j);
    OverflowStays(t, rest);
    OneCall(r, ops[j]);
    OverflowStays(q, inner);
    OneCall(p, ops[0]);
    DepthOne(ops);
    forall k | 0 <= k <= |inner| ensures Depth(inner, k) == Depth(ops, 1 + k) - 1 {
      assert inner <= ops[1..];
      DepthPrefix(ops[1..], inner, k);
      DepthFrom(ops, 1, k);
    }
    forall k | 0 <= k <= |rest| ensures Depth(rest, k) == Depth(ops, j + 1 + k) {
      DepthFrom(ops, j + 1, k);
    }
    DepthNext(ops, j);
    RunsBalanced(q, inner);
    KeepsBase(q, inner, |q.stack|);
    StackHeight(q, inner, |inner|);
    assert inner[..|inner|] == inner && r.stack == q.stack;
    RunsBalanced(t, rest);
    BalancedPair(ops, j, 12 - |p.stack|);
  }

  lemma DepthOne(ops: seq<Op>)
    requires ops != [] && ops[0].Begin?
    ensures Depth(ops, 1) == 1
  {
    assert Depth(ops, 0) == 0;
  }

  lemma DepthNext(ops: seq<Op>, j: nat)
    requires j < |ops| && Depth(ops, j) == 1 && Depth(ops, j + 1) == 0
    ensures ops[j].End?
  {
  }

  /** Whatever is called on a writer, in whatever order: the page is valid if and only if the brackets match, no more
      than twelve deep, and everything fits. */
  lemma ValidExactly(capacity: nat, ops: seq<Op>)
    ensures IsValidPage(Run(BLANK_PAGE, Sheet(capacity), ops)) <==>
      Balanced(ops, 12) && |Run(BLANK_PAGE, Endless, ops).text| <= capacity
  {
    hide Run, Balanced, Depth;
    Faithful(capacity, ops);
    var e := Write(BLANK_PAGE, ops);
    if IsValidPage(e) {
      forall k | 0 <= k <= |ops| ensures Depth(ops, k) >= 0 {
        StackHeight(BLANK_PAGE, ops, k);
      }
      StackHeight(BLANK_PAGE, ops, |ops|);
      assert ops[..|ops|] == ops;
      RunsBalanced(BLANK_PAGE, ops);
    }
    if Balanced(ops, 12) {
      BalancedRuns(BLANK_PAGE, ops, 12);
    }
  }
}
