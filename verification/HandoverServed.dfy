/** What becomes of a start: which ones are accepted, that each of them gets its turn, and how turns are counted.

    `EveryRunIsSafe` would hold of a device that never starts a conversation. These lemmas say that it does. */
module HandoverServed {
  import opened Handover

  /** A start is accepted if and only if the phase is idle and the text is at most 480 bytes long. Then the device
      listens at once, and the caller goes on to hand its text over; otherwise nothing changes at all. */
  lemma StartsExactly(s: System, i: nat, text: string)
    requires Sound(s) && i < |s.callers| && s.callers[i].Away?
    ensures Enabled(s, Request(i, text))
    ensures
      var t := Next(s, Request(i, text));
      if s.phase == Idle && |text| <= 480 then
        && t.accepted == s.accepted + [text] && t.phase == Listening
        && OnlyActive(t, i) && TextOf(t.callers[i]) == text
        && t.turns == s.turns && t.task == s.task && t.buffer == s.buffer && t.notified == s.notified
      else t == s
    ensures Next(s, Request(i, text)).accepted == s.accepted + [text] <==> s.phase == Idle && |text| <= 480
  {
    if s.phase == Idle {
      assert NobodyActive(s);
    }
    assert s.accepted + [text] != s.accepted;
  }

  // ------------------------------------------------------------ every start

  /** The texts accepted so far stay, in order. */
  lemma {:induction false} AcceptedStay(s: System, steps: seq<Step>)
    requires Possible(s, steps)
    ensures s.accepted <= Run(s, steps).accepted
    decreases |steps|
  {
    if steps != [] {
      AcceptedStay(Next(s, steps[0]), steps[1..]);
    }
  }

  lemma FirstStep(s: System, step: Step, rest: seq<Step>)
    requires Enabled(s, step) && Possible(Next(s, step), rest)
    ensures Possible(s, [step] + rest) && Run(s, [step] + rest) == Run(Next(s, step), rest)
  {
    hide Next, Enabled;
    assert ([step] + rest)[0] == step && ([step] + rest)[1..] == rest;
  }

  lemma WorkKeeps(s: System, step: Step)
    requires Enabled(s, step) && !step.Request?
    ensures Next(s, step).accepted == s.accepted
  {
  }

  /** From any sound state the device can come back to the idle phase without accepting anything more, and then every
      start that was accepted has had its turn, with its text up to a NUL, and every turn has been counted. */
  lemma {:induction false} ComesBackServed(s: System) returns (steps: seq<Step>)
    requires Sound(s)
    ensures Possible(s, steps) && forall k | 0 <= k < |steps| :: !steps[k].Request?
    ensures
      var t := Run(s, steps);
      && t.phase == Idle && t.accepted == s.accepted
      && |t.turns| == |t.accepted| == Ended(t)
      && forall k | 0 <= k < |t.turns| :: t.turns[k] == UpToNul(t.accepted[k])
    decreases Rank(s)
  {
    hide Next, Enabled, Rank, UpToNul;
    if s.phase == Idle {
      steps := [];
      IdleIsServed(s);
    } else {
      AlwaysComesBack(s);
      var step :| Enabled(s, step) && !step.Request? && !step.SpeakAloud?;
      StepSound(s, step);
      WorkKeeps(s, step);
      var rest := ComesBackServed(Next(s, step));
      FirstStep(s, step, rest);
      steps := [step] + rest;
    }
  }

  lemma IdleIsServed(s: System)
    requires Sound(s) && s.phase == Idle
    ensures |s.turns| == |s.accepted| == Ended(s)
    ensures forall k | 0 <= k < |s.turns| :: s.turns[k] == UpToNul(s.accepted[k])
  {
    hide UpToNul;
    assert NobodyActive(s);
  }

  /** Every accepted start is served: whatever the callers and the task do after it, the device can come back to the
      idle phase, and by then the start has had its own turn, with its text. */
  lemma StartIsServed(s: System, i: nat, text: string, more: seq<Step>) returns (steps: seq<Step>)
    requires Sound(s) && Enabled(s, Request(i, text)) && s.phase == Idle && |text| <= 480
    requires Possible(Next(s, Request(i, text)), more)
    ensures
      var later := Run(Next(s, Request(i, text)), more);
      && Possible(later, steps) && (forall k | 0 <= k < |steps| :: !steps[k].Request?)
      && var t := Run(later, steps);
      && t.phase == Idle && t.accepted == later.accepted && |t.turns| == |t.accepted| > |s.accepted|
      && t.turns[|s.accepted|] == UpToNul(text)
      && (more == [] ==> t.turns[|t.turns| - 1] == UpToNul(text))
  {
    var first := Next(s, Request(i, text));
    StartsExactly(s, i, text);
    StepSound(s, Request(i, text));
    RunSound(first, more);
    AcceptedStay(first, more);
    steps := ComesBackServed(Run(first, more));
    assert first.accepted[|s.accepted|] == text;
  }

  // ------------------------------------------------------------ what is counted

  /** How many of the steps are one of these. */
  function Count(steps: seq<Step>, which: set<Step>): nat {
    if steps == [] then 0 else (if steps[0] in which then 1 else 0) + Count(steps[1..], which)
  }

  lemma {:induction false} CountsFrom(s: System, steps: seq<Step>)
    requires Possible(s, steps)
    ensures
      var t := Run(s, steps);
      && t.completed == s.completed + Count(steps, {End(Completed)})
      && t.cancelled == s.cancelled + Count(steps, {End(Cancelled), Abort})
      && t.failed == s.failed + Count(steps, {End(Failed)})
    decreases |steps|
  {
    if steps != [] {
      CountsFrom(Next(s, steps[0]), steps[1..]);
    }
  }

  /** In every run: completed, cancelled and failed turns are counted each as what they were, and a turn that was given
      up before it began as cancelled. */
  lemma CountedAsEnded(callers: nat, steps: seq<Step>)
    requires Possible(Start(callers), steps)
    ensures
      var s := Run(Start(callers), steps);
      && s.completed == Count(steps, {End(Completed)})
      && s.cancelled == Count(steps, {End(Cancelled), Abort})
      && s.failed == Count(steps, {End(Failed)})
  {
    CountsFrom(Start(callers), steps);
  }

  // ---------------------------------------------------------- what is shown

  /** Speech has been announced in the turn under way. */
  predicate SpeechAnnounced(steps: seq<Step>) {
    steps != [] &&
    match steps[|steps| - 1]
    case SpeakAloud => true
    case Release => false
    case _ => SpeechAnnounced(steps[..|steps| - 1])
  }

  lemma {:induction false} RunLast(s: System, steps: seq<Step>)
    requires steps != [] && Possible(s, steps)
    ensures
      var front, last := steps[..|steps| - 1], steps[|steps| - 1];
      Possible(s, front) && Enabled(Run(s, front), last) && Run(s, steps) == Next(Run(s, front), last)
    decreases |steps|
  {
    hide Next, Enabled;
    var front, last := steps[..|steps| - 1], steps[|steps| - 1];
    if |steps| == 1 {
      assert front == [] && steps[1..] == [];
    } else {
      assert steps[1..][..|steps| - 2] == front[1..] && steps[1..][|steps| - 2] == last;
      RunLast(Next(s, steps[0]), steps[1..]);
    }
  }

  /** The device shows that it speaks exactly while speech has been announced in the turn under way, and that it is
      idle exactly when no start is being served. */
  lemma {:induction false} ShowsExactly(callers: nat, steps: seq<Step>)
    requires Possible(Start(callers), steps)
    ensures
      var s := Run(Start(callers), steps);
      && (s.phase == Speaking <==> SpeechAnnounced(steps))
      && (s.phase == Idle <==> |s.accepted| == |s.turns| && s.task.Parked?)
    decreases |steps|
  {
    StartIsSound(callers);
    RunSound(Start(callers), steps);
    var s := Run(Start(callers), steps);
    if !NobodyActive(s) {
      var i: nat :| ActiveCaller(s, i);
    }
    if steps != [] {
      var front := steps[..|steps| - 1];
      RunLast(Start(callers), steps);
      ShowsExactly(callers, front);
      RunSound(Start(callers), front);
      ShowsNext(Run(Start(callers), front), steps[|steps| - 1]);
    }
  }

  lemma ShowsNext(s: System, step: Step)
    requires Sound(s) && Enabled(s, step)
    ensures Next(s, step).phase == Speaking <==> step.SpeakAloud? || (s.phase == Speaking && !step.Release?)
  {
    if !NobodyActive(s) {
      var i: nat :| ActiveCaller(s, i);
    }
  }

  // ---------------------------------------------------- words are used once

  /** Whenever no start is being served there are no words to say. */
  predicate Wordless(s: System) {
    (s.phase == Idle || s.task.Releasing?) && |s.buffer| > 0 ==> s.buffer[0] == '\0'
  }

  lemma WordlessNext(s: System, step: Step)
    requires Sound(s) && Enabled(s, step) && Wordless(s)
    ensures Wordless(Next(s, step))
  {
    hide UpToNul;
    if step.CopyByte? || step.EndText? || step.Notify? {
      assert !NobodyActive(s);
    }
  }

  lemma {:induction false} WordlessRun(s: System, steps: seq<Step>)
    requires Sound(s) && Possible(s, steps) && Wordless(s)
    ensures Wordless(Run(s, steps))
    decreases |steps|
  {
    hide Next, Enabled, Wordless;
    if steps != [] {
      StepSound(s, steps[0]);
      WordlessNext(s, steps[0]);
      WordlessRun(Next(s, steps[0]), steps[1..]);
    }
  }

  /** In every run, when the device is idle, the words of the last start are gone: a start without a text records. */
  lemma WordsAreUsedOnce(callers: nat, steps: seq<Step>)
    requires Possible(Start(callers), steps)
    ensures Run(Start(callers), steps).phase == Idle ==> UpToNul(Run(Start(callers), steps).buffer) == ""
  {
    StartIsSound(callers);
    RunSound(Start(callers), steps);
    WordlessRun(Start(callers), steps);
  }
}
