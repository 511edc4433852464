/** Cancelling from several places at once.

    The shared reason is only ever touched by single atomic operations: a load, or a compare-exchange that may
    fail although the value matched. Any number of threads run `cancel`, `reset` and `clear_emergency` as steps
    of a machine. The module proves that each call takes effect at one instant, as one operation on the reason
    (`RunIsAtomic`), and from that what no interleaving can do. */
module Cancellation {

  /** In order of gravity. */
  datatype Reason = NotCancelled | TimedOut | Requested | Shutdown | EmergencyStop

  function Gravity(r: Reason): nat {
    match r
    case NotCancelled => 0
    case TimedOut => 1
    case Requested => 2
    case Shutdown => 3
    case EmergencyStop => 4
  }

  function Graver(a: Reason, b: Reason): Reason { if Gravity(b) > Gravity(a) then b else a }

  datatype Call = Cancel(reason: Reason) | Reset | ClearEmergency

  /** Where a thread is: outside; called but nothing read yet; or about to exchange, having read `seen`. */
  datatype Thread = Outside | Called(call: Call) | Trying(call: Call, seen: Reason)

  datatype System = System(reason: Reason, threads: seq<Thread>)

  /** A thread makes a call, or takes its next step; `spurious` is whether a weak exchange fails by itself. */
  datatype Step = Enter(thread: nat, call: Call) | Go(thread: nat, spurious: bool)

  // ---------------------------------------------------------------- steps

  /** The loop condition: whether the call still has something to do, given the reason it has seen. */
  predicate Continues(call: Call, seen: Reason) {
    match call
    case Cancel(reason) => Gravity(reason) > Gravity(seen)
    case Reset => seen != EmergencyStop && seen != Shutdown && seen != NotCancelled
    case ClearEmergency => false
  }

  /** What the exchange writes. */
  function Wanted(call: Call): Reason {
    if call.Cancel? then call.reason else NotCancelled
  }

  /** A thread that has just read `seen`: it goes on to exchange, or returns. */
  function AfterRead(call: Call, seen: Reason): Thread {
    if Continues(call, seen) then Trying(call, seen) else Outside
  }

  predicate Enabled(s: System, step: Step) {
    match step
    case Enter(i, _) => i < |s.threads| && s.threads[i].Outside?
    case Go(i, _) => i < |s.threads| && !s.threads[i].Outside?
  }

  function Next(s: System, step: Step): System
    requires Enabled(s, step)
  {
    match step
    case Enter(i, call) => s.(threads := s.threads[i := Called(call)])
    case Go(i, spurious) =>
      match s.threads[i]
      case Called(call) =>
        if call == Cancel(NotCancelled) then s.(threads := s.threads[i := Outside])
        else if call == ClearEmergency then
          // A strong exchange, and no loop.
          System(if s.reason == EmergencyStop then NotCancelled else s.reason, s.threads[i := Outside])
        else s.(threads := s.threads[i := AfterRead(call, s.reason)])
      case Trying(call, seen) =>
        if s.reason == seen && !spurious then System(Wanted(call), s.threads[i := Outside])
        else s.(threads := s.threads[i := AfterRead(call, s.reason)])
  }

  /** The call that returns in this step, if one does. */
  function Returns(s: System, step: Step): seq<Call>
    requires Enabled(s, step)
  {
    if step.Go? && Next(s, step).threads[step.thread].Outside? then [s.threads[step.thread].call] else []
  }

  // ------------------------------------------------ what a call amounts to

  function Effect(reason: Reason, call: Call): Reason {
    match call
    case Cancel(r) => Graver(reason, r)
    case Reset => if reason == EmergencyStop || reason == Shutdown then reason else NotCancelled
    case ClearEmergency => if reason == EmergencyStop then NotCancelled else reason
  }

  function Effects(reason: Reason, calls: seq<Call>): Reason
    decreases |calls|
  {
    if calls == [] then reason else Effects(Effect(reason, calls[0]), calls[1..])
  }

  /** A thread only tries to exchange what the loop lets through. */
  predicate Sound(s: System) {
    forall i | 0 <= i < |s.threads| ::
      s.threads[i].Trying? ==> Continues(s.threads[i].call, s.threads[i].seen)
  }

  /** Every step keeps the threads sound; a call that returns has its whole effect in that very step, and no
      other step changes the reason. */
  lemma StepIsAtomic(s: System, step: Step)
    requires Sound(s) && Enabled(s, step)
    ensures Sound(Next(s, step))
    ensures Next(s, step).reason == Effects(s.reason, Returns(s, step))
  {
    var calls := Returns(s, step);
    assert calls != [] ==> calls[1..] == [];
    if step.Go? {
      var call := s.threads[step.thread].call;
      assert Effects(s.reason, [call]) == Effect(s.reason, call) by {
        assert [call][1..] == [];
      }
      var t := Next(s, step);
      assert forall i | 0 <= i < |t.threads| && i != step.thread :: t.threads[i] == s.threads[i];
    }
  }

  // ----------------------------------------------------------------- runs

  predicate Possible(s: System, steps: seq<Step>)
    decreases |steps|
  {
    steps == [] || (Enabled(s, steps[0]) && Possible(Next(s, steps[0]), steps[1..]))
  }

  function Run(s: System, steps: seq<Step>): System
    requires Possible(s, steps)
    decreases |steps|
  {
    if steps == [] then s else Run(Next(s, steps[0]), steps[1..])
  }

  /** The calls of a run in the order in which they returned. */
  function Returned(s: System, steps: seq<Step>): seq<Call>
    requires Possible(s, steps)
    decreases |steps|
  {
    if steps == [] then [] else Returns(s, steps[0]) + Returned(Next(s, steps[0]), steps[1..])
  }

  lemma {:induction false} EffectsAppend(reason: Reason, a: seq<Call>, b: seq<Call>)
    ensures Effects(reason, a + b) == Effects(Effects(reason, a), b)
    decreases |a|
  {
    if a == [] {
      assert a + b == b;
    } else {
      assert (a + b)[1..] == a[1..] + b;
      EffectsAppend(Effect(reason, a[0]), a[1..], b);
    }
  }

  /** In any interleaving, with any spurious failures, the reason is what the calls would have made of it one
      after the other, in the order in which they returned. */
  lemma {:induction false} RunIsAtomic(s: System, steps: seq<Step>)
    requires Sound(s) && Possible(s, steps)
    ensures Sound(Run(s, steps))
    ensures Run(s, steps).reason == Effects(s.reason, Returned(s, steps))
    decreases |steps|
  {
    if steps != [] {
      StepIsAtomic(s, steps[0]);
      RunIsAtomic(Next(s, steps[0]), steps[1..]);
      EffectsAppend(s.reason, Returns(s, steps[0]), Returned(Next(s, steps[0]), steps[1..]));
    }
  }

  /** A call that has to try again without a spurious failure saw a reason that somebody changed since. */
  lemma RetryMeansChange(s: System, i: nat)
    requires Sound(s) && i < |s.threads| && s.threads[i].Trying?
    ensures Next(s, Go(i, false)).threads[i].Trying? ==> s.reason != s.threads[i].seen
    ensures s.reason == s.threads[i].seen ==> Returns(s, Go(i, false)) == [s.threads[i].call]
  {
  }

  // ------------------------------------------------------------ what follows

  lemma {:induction false} EmergencyRemains(reason: Reason, calls: seq<Call>)
    requires reason == EmergencyStop && ClearEmergency !in calls
    ensures Effects(reason, calls) == EmergencyStop
    decreases |calls|
  {
    if calls != [] {
      assert calls[0] in calls;
      EmergencyRemains(Effect(reason, calls[0]), calls[1..]);
    }
  }

  /** A stored emergency stop leaves only through a clear_emergency that returned. */
  lemma OnlyClearReleases(s: System, steps: seq<Step>)
    requires Sound(s) && Possible(s, steps) && s.reason == EmergencyStop
    ensures Run(s, steps).reason != EmergencyStop ==> ClearEmergency in Returned(s, steps)
  {
    RunIsAtomic(s, steps);
    if ClearEmergency !in Returned(s, steps) {
      EmergencyRemains(s.reason, Returned(s, steps));
    }
  }

  // --------------------------------------------------- shutdown, and after

  /** An emergency stop, and later a clear_emergency. */
  predicate StopThenClear(calls: seq<Call>) {
    exists i, j | 0 <= i < j < |calls| :: calls[i] == Cancel(EmergencyStop) && calls[j] == ClearEmergency
  }

  lemma EffectsNext(reason: Reason, call: Call, rest: seq<Call>)
    ensures Effects(reason, [call] + rest) == Effects(Effect(reason, call), rest)
  {
    assert ([call] + rest)[1..] == rest;
  }

  /** A shutdown gives way to an emergency stop alone. */
  lemma {:induction false} ShutdownRemains(calls: seq<Call>)
    requires Cancel(EmergencyStop) !in calls
    ensures Effects(Shutdown, calls) == Shutdown
    decreases |calls|
  {
    if calls != [] {
      assert calls[0] in calls;
      ShutdownRemains(calls[1..]);
    }
  }

  /** A lighter reason than the shutdown takes a stop and a clear. */
  lemma {:induction false} LighterNeedsBoth(calls: seq<Call>)
    requires Gravity(Effects(Shutdown, calls)) < Gravity(Shutdown)
    ensures StopThenClear(calls)
    decreases |calls|
  {
    if calls != [] {
      var rest := calls[1..];
      if calls[0] == Cancel(EmergencyStop) {
        if ClearEmergency !in rest {
          EmergencyRemains(EmergencyStop, rest);
          assert false;
        }
        var j :| 0 <= j < |rest| && rest[j] == ClearEmergency;
        assert calls[0] == Cancel(EmergencyStop) && calls[j + 1] == ClearEmergency;
      } else {
        LighterNeedsBoth(rest);
        var i, j :| 0 <= i < j < |rest| && rest[i] == Cancel(EmergencyStop) && rest[j] == ClearEmergency;
        assert calls[i + 1] == Cancel(EmergencyStop) && calls[j + 1] == ClearEmergency;
      }
    }
  }

  /** The first clear_emergency leaves no reason. */
  lemma {:induction false} FirstClear(calls: seq<Call>) returns (n: nat)
    requires ClearEmergency in calls
    ensures n <= |calls| && Effects(EmergencyStop, calls[..n]) == NotCancelled
    decreases |calls|
  {
    if calls[0] == ClearEmergency {
      n := 1;
      EffectsNext(EmergencyStop, calls[0], []);
      assert calls[..1] == [calls[0]] + [];
    } else {
      var rest := calls[1..];
      assert calls == [calls[0]] + rest;
      n := FirstClear(rest);
      EffectsNext(EmergencyStop, calls[0], rest[..n]);
      n := n + 1;
      assert calls[..n] == [calls[0]] + rest[..n - 1];
    }
  }

  lemma {:induction false} StopThenClearForgets(calls: seq<Call>) returns (n: nat)
    requires StopThenClear(calls)
    ensures n <= |calls| && Effects(Shutdown, calls[..n]) == NotCancelled
    decreases |calls|
  {
    hide Effects;
    var rest := calls[1..];
    var i, j :| 0 <= i < j < |calls| && calls[i] == Cancel(EmergencyStop) && calls[j] == ClearEmergency;
    if calls[0] == Cancel(EmergencyStop) {
      assert rest[j - 1] == ClearEmergency;
      n := FirstClear(rest);
    } else {
      assert rest[i - 1] == Cancel(EmergencyStop) && rest[j - 1] == ClearEmergency;
      n := StopThenClearForgets(rest);
    }
    EffectsNext(Shutdown, calls[0], rest[..n]);
    n := n + 1;
    assert calls[..n] == [calls[0]] + rest[..n - 1];
  }

  /** A shutdown is forgotten: at some point a lighter reason, or none, stands in its place. After any calls, this
      has happened if and only if an emergency stop came and later a clear_emergency. */
  lemma {:induction false} ShutdownForgotten(calls: seq<Call>)
    ensures (exists n: nat | n <= |calls| :: Gravity(Effects(Shutdown, calls[..n])) < Gravity(Shutdown))
       <==> StopThenClear(calls)
  {
    if n: nat :| n <= |calls| && Gravity(Effects(Shutdown, calls[..n])) < Gravity(Shutdown) {
      LighterNeedsBoth(calls[..n]);
      var i, j :| 0 <= i < j < n && calls[..n][i] == Cancel(EmergencyStop) && calls[..n][j] == ClearEmergency;
      assert calls[i] == Cancel(EmergencyStop) && calls[j] == ClearEmergency;
    }
    if StopThenClear(calls) {
      var n := StopThenClearForgets(calls);
    }
  }

  // ------------------------------------------------------- the same for runs

  /** What had returned after some steps is the beginning of what returns in all. */
  lemma {:induction false} ReturnedSoFar(s: System, steps: seq<Step>, n: nat)
    requires Possible(s, steps) && n <= |steps|
    ensures Possible(s, steps[..n]) && Returned(s, steps[..n]) <= Returned(s, steps)
    decreases n
  {
    if n > 0 {
      assert steps[..n][1..] == steps[1..][..n - 1];
      ReturnedSoFar(Next(s, steps[0]), steps[1..], n - 1);
    }
  }

  /** Calls return one at a time, so every beginning of the calls is what had returned after some steps. */
  lemma {:induction false} StepsFor(s: System, steps: seq<Step>, m: nat) returns (n: nat)
    requires Possible(s, steps) && m <= |Returned(s, steps)|
    ensures n <= |steps| && Possible(s, steps[..n]) && Returned(s, steps[..n]) == Returned(s, steps)[..m]
    decreases |steps|
  {
    if m == 0 {
      n := 0;
      assert steps[..0] == [];
    } else {
      var first := Returns(s, steps[0]);
      n := StepsFor(Next(s, steps[0]), steps[1..], m - |first|);
      n := n + 1;
      assert steps[..n][1..] == steps[1..][..n - 1];
      assert Returned(s, steps)[..m] == first + Returned(Next(s, steps[0]), steps[1..])[..m - |first|];
    }
  }

  /** The reason that stood after the first `n` steps. */
  function ReasonAfter(s: System, steps: seq<Step>, n: nat): Reason
    requires Possible(s, steps) && n <= |steps|
  {
    ReturnedSoFar(s, steps, n);
    Run(s, steps[..n]).reason
  }

  lemma ReasonAfterIs(s: System, steps: seq<Step>, n: nat)
    requires Sound(s) && Possible(s, steps) && n <= |steps|
    ensures exists m: nat | m <= |Returned(s, steps)| ::
      ReasonAfter(s, steps, n) == Effects(s.reason, Returned(s, steps)[..m])
  {
    ReturnedSoFar(s, steps, n);
    RunIsAtomic(s, steps[..n]);
    var m := |Returned(s, steps[..n])|;
    assert Returned(s, steps)[..m] == Returned(s, steps[..n]);
  }

  lemma EffectsReached(s: System, steps: seq<Step>, m: nat)
    requires Sound(s) && Possible(s, steps) && m <= |Returned(s, steps)|
    ensures exists n: nat | n <= |steps| :: ReasonAfter(s, steps, n) == Effects(s.reason, Returned(s, steps)[..m])
  {
    var n := StepsFor(s, steps, m);
    RunIsAtomic(s, steps[..n]);
    assert ReasonAfter(s, steps, n) == Effects(s.reason, Returned(s, steps)[..m]);
  }

  /** In any interleaving a shutdown survives every reset, every clear_emergency and every lighter cancellation: some
      other reason stands at some point if and only if an emergency stop has returned. */
  lemma {:induction false} ShutdownSurvives(s: System, steps: seq<Step>)
    requires Sound(s) && Possible(s, steps) && s.reason == Shutdown
    ensures (exists n: nat | n <= |steps| :: ReasonAfter(s, steps, n) != Shutdown)
       <==> Cancel(EmergencyStop) in Returned(s, steps)
  {
    var calls := Returned(s, steps);
    hide Run, Returned, Possible, ReasonAfter, Sound;
    if n: nat :| n <= |steps| && ReasonAfter(s, steps, n) != Shutdown {
      ReasonAfterIs(s, steps, n);
      var m: nat :| m <= |calls| && ReasonAfter(s, steps, n) == Effects(Shutdown, calls[..m]);
      if Cancel(EmergencyStop) !in calls {
        ShutdownRemains(calls[..m]);
        assert false;
      }
    }
    if Cancel(EmergencyStop) in calls {
      var m := FirstStop(calls);
      EffectsReached(s, steps, m);
    }
  }

  lemma {:induction false} FirstStop(calls: seq<Call>) returns (m: nat)
    requires Cancel(EmergencyStop) in calls
    ensures m <= |calls| && Effects(Shutdown, calls[..m]) == EmergencyStop
    decreases |calls|
  {
    var rest := calls[1..];
    if calls[0] == Cancel(EmergencyStop) {
      m := 0;
    } else {
      assert calls == [calls[0]] + rest;
      m := FirstStop(rest);
    }
    EffectsNext(Shutdown, calls[0], rest[..m]);
    m := m + 1;
    assert calls[..m] == [calls[0]] + rest[..m - 1];
  }

  /** But an emergency stop does replace it, and then clearing the stop leaves no reason at all. In any
      interleaving a shutdown is forgotten if and only if an emergency stop has returned and, after it, a
      clear_emergency. */
  lemma {:induction false} RunForgets(s: System, steps: seq<Step>)
    requires Sound(s) && Possible(s, steps) && s.reason == Shutdown
    ensures (exists n: nat | n <= |steps| :: Gravity(ReasonAfter(s, steps, n)) < Gravity(Shutdown))
       <==> StopThenClear(Returned(s, steps))
  {
    var calls := Returned(s, steps);
    hide Run, Returned, Possible, ReasonAfter, Sound, StopThenClear;
    ShutdownForgotten(calls);
    if n: nat :| n <= |steps| && Gravity(ReasonAfter(s, steps, n)) < Gravity(Shutdown) {
      ReasonAfterIs(s, steps, n);
      var m: nat :| m <= |calls| && ReasonAfter(s, steps, n) == Effects(Shutdown, calls[..m]);
      assert Gravity(Effects(Shutdown, calls[..m])) < Gravity(Shutdown);
    }
    if StopThenClear(calls) {
      var m: nat :| m <= |calls| && Gravity(Effects(Shutdown, calls[..m])) < Gravity(Shutdown);
      EffectsReached(s, steps, m);
    }
  }

  /** While nothing is reset or cleared, the reason is the gravest of all that were given. */
  lemma {:induction false} GravestWins(reason: Reason, calls: seq<Call>)
    requires forall c | c in calls :: c.Cancel?
    ensures
      var r := Effects(reason, calls);
      && (r == reason || Cancel(r) in calls)
      && Gravity(r) >= Gravity(reason)
      && forall c | c in calls :: Gravity(r) >= Gravity(c.reason)
    decreases |calls|
  {
    if calls != [] {
      var first := calls[0];
      assert first in calls;
      GravestWins(Effect(reason, first), calls[1..]);
      forall c | c in calls ensures c == first || c in calls[1..] {
        var k :| 0 <= k < |calls| && calls[k] == c;
        assert k > 0 ==> calls[1..][k - 1] == c;
      }
    }
  }

  // ---------------------------------------------------------------- resets

  predicate IsGrave(r: Reason) { r == Shutdown || r == EmergencyStop }

  /** The calls after the last reset. */
  function SinceReset(calls: seq<Call>): seq<Call> {
    if calls == [] then []
    else
      var front, last := calls[..|calls| - 1], calls[|calls| - 1];
      if last == Reset then [] else SinceReset(front) + [last]
  }

  /** A reset, or a cancellation for a light reason, which a reset clears. */
  predicate IsLight(call: Call) { call == Reset || (call.Cancel? && !IsGrave(call.reason)) }

  /** After any calls a reset clears a timeout and a request, and nothing but an emergency stop and a shutdown survives
      it. */
  lemma ResetClears(reason: Reason, calls: seq<Call>)
    ensures
      var before, after := Effects(reason, calls), Effects(reason, calls + [Reset]);
      && (after == NotCancelled <==> !IsGrave(before))
      && (IsGrave(before) ==> after == before)
  {
    hide Effects;
    EffectsAppend(reason, calls, [Reset]);
    EffectOne(Effects(reason, calls), Reset);
  }

  lemma EffectOne(reason: Reason, call: Call)
    ensures Effects(reason, [call]) == Effect(reason, call)
  {
    assert [call][1..] == [];
  }

  /** As long as nobody stops the device for good, the reason is the gravest that was given since the last reset, and
      none if none was given: no cancellation outlives the reset that follows it. */
  lemma {:induction false} NothingOutlivesReset(calls: seq<Call>)
    requires forall c | c in calls :: IsLight(c)
    ensures
      var r, since := Effects(NotCancelled, calls), SinceReset(calls);
      && !IsGrave(r) && (r == NotCancelled || Cancel(r) in since)
      && forall c | c in since :: c.Cancel? && Gravity(r) >= Gravity(c.reason)
    decreases |calls|
  {
    if calls != [] {
      var front, last := calls[..|calls| - 1], calls[|calls| - 1];
      assert calls == front + [last] && last in calls && forall c | c in front :: c in calls;
      hide Effects;
      NothingOutlivesReset(front);
      EffectsAppend(NotCancelled, front, [last]);
      EffectOne(Effects(NotCancelled, front), last);
    } else {
      assert Effects(NotCancelled, []) == NotCancelled;
    }
  }

  /** And so it is in any interleaving, for the calls in the order in which they return. */
  lemma RunResets(s: System, steps: seq<Step>)
    requires Sound(s) && s.reason == NotCancelled && Possible(s, steps)
    requires forall c | c in Returned(s, steps) :: IsLight(c)
    ensures
      var r, since := Run(s, steps).reason, SinceReset(Returned(s, steps));
      && !IsGrave(r) && (r == NotCancelled || Cancel(r) in since)
      && forall c | c in since :: c.Cancel? && Gravity(r) >= Gravity(c.reason)
  {
    hide Run, Returned, Effects, SinceReset;
    RunIsAtomic(s, steps);
    NothingOutlivesReset(Returned(s, steps));
  }
}
