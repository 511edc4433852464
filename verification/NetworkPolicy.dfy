/** When to try the network again.

    `Policy` is the state, `After` what one event does to it. The theorems are about every history: how long
    the wait is after k failures in a row, and when no attempt is offered. */
module NetworkPolicy {

  const WORD: nat := 0x1_0000_0000

  type Word = n: nat | n < WORD

  datatype Phase = Unprovisioned | Connecting | Connected | Backoff

  datatype Policy = Policy(first: Word, max: Word, apAfter: nat, phase: Phase, provisioned: bool, guests: nat,
                           failures: nat, backoff: Word, since: Word)

  datatype Event =
    | SetProvisioned(provisioned: bool)
    | SetGuests(guests: nat)
    | AttemptStarted(now: Word)
    | ConnectedNow
    | Failed(now: Word)

  const MAX_FAILURES: nat := 255

  function Start(first: Word, max: Word, apAfter: nat): Policy {
    Policy(if first == 0 then 1 else first, max, apAfter, Unprovisioned, false, 0, 0, 0, 0)
  }

  /** Subtraction of 32-bit words. */
  function Elapsed(from: Word, to: Word): Word { (to - from) % WORD }

  /** Doubling in 32 bits, capped; a result that wrapped around counts as over the cap. */
  function Doubled(backoff: Word, max: Word): Word {
    var doubled := backoff * 2 % WORD;
    if doubled < backoff || doubled > max then max else doubled
  }

  function NextBackoff(p: Policy): Word {
    if p.backoff == 0 then p.first else if p.backoff < p.max then Doubled(p.backoff, p.max) else p.backoff
  }

  function After(p: Policy, e: Event): Policy {
    match e
    case SetProvisioned(false) => p.(provisioned := false, phase := Unprovisioned, failures := 0, backoff := 0)
    case SetProvisioned(true) =>
      p.(provisioned := true, failures := 0, backoff := 0, since := 0,
         phase := if p.phase == Connecting || p.phase == Connected then p.phase else Backoff)
    case SetGuests(n) => p.(guests := n)
    case AttemptStarted(_) => if p.provisioned then p.(phase := Connecting) else p
    case ConnectedNow => p.(phase := Connected, failures := 0, backoff := 0)
    case Failed(now) =>
      if !p.provisioned then p
      else p.(failures := if p.failures < MAX_FAILURES then p.failures + 1 else p.failures,
              backoff := NextBackoff(p), since := now, phase := Backoff)
  }

  predicate ShouldAttempt(p: Policy, now: Word) {
    && p.provisioned && p.phase != Connecting && p.phase != Connected
    && !(p.guests > 0 && p.failures > 0)
    && Elapsed(p.since, now) >= p.backoff
  }

  function WaitRemaining(p: Policy, now: Word): Word {
    if ShouldAttempt(p, now) || Elapsed(p.since, now) >= p.backoff then 0 else p.backoff - Elapsed(p.since, now)
  }

  predicate ShouldOpenAccessPoint(p: Policy) {
    !p.provisioned || (p.phase != Connected && p.failures >= p.apAfter)
  }

  // -------------------------------------------------------------- histories

  function AfterAll(p: Policy, events: seq<Event>): Policy {
    if events == [] then p else After(AfterAll(p, events[..|events| - 1]), events[|events| - 1])
  }

  predicate Provisioned(events: seq<Event>) {
    if events == [] then false
    else
      var last := events[|events| - 1];
      if last.SetProvisioned? then last.provisioned else Provisioned(events[..|events| - 1])
  }

  /** Failures in a row: since the last connection and the last change of credentials. */
  function Streak(events: seq<Event>): nat {
    if events == [] then 0
    else
      var last, before := events[|events| - 1], events[..|events| - 1];
      match last
      case SetProvisioned(_) => 0
      case ConnectedNow => 0
      case Failed(_) => Streak(before) + if Provisioned(before) then 1 else 0
      case _ => Streak(before)
  }

  function Power2(k: nat): nat { if k == 0 then 1 else 2 * Power2(k - 1) }

  function Min(a: nat, b: nat): nat { if a < b then a else b }

  /** The wait after `k` failures in a row, on unbounded numbers. */
  function Wait(first: nat, max: nat, k: nat): nat {
    if k == 0 then 0 else if first > max then first else Min(first * Power2(k - 1), max)
  }

  lemma {:induction false} WaitDoubles(first: Word, max: Word, k: nat)
    requires k > 0 && 0 < first
    ensures
      var w := Wait(first, max, k);
      Wait(first, max, k + 1) == (if w < max then Min(2 * w, max) else w) && 0 < w < WORD
  {
    hide Power2;
    PowerPositive(k - 1);
    PowerDoubles(k);
    Twice(first, Power2(k - 1));
  }

  lemma PowerDoubles(k: nat)
    requires k > 0
    ensures Power2(k) == 2 * Power2(k - 1)
  {
  }

  lemma {:induction false} Twice(a: nat, b: nat)
    requires b >= 1
    ensures a * (2 * b) == 2 * (a * b) && a * b >= a
  {
  }

  lemma {:induction false} PowerPositive(k: nat)
    ensures Power2(k) >= 1
    decreases k
  {
    if k > 0 {
      PowerPositive(k - 1);
    }
  }

  lemma DoubledIsExact(b: Word, max: Word)
    requires 0 < b < max
    ensures Doubled(b, max) == Min(2 * b, max)
  {
    if 2 * b >= WORD {
      assert 2 * b % WORD == 2 * b - WORD;
    }
  }

  /** After any history the interval is the one for the failures in a row, computed without overflow, and the
      failure count is that number up to 255. */
  lemma {:induction false} WaitAfterFailures(first: Word, max: Word, apAfter: nat, events: seq<Event>)
    requires first > 0
    ensures
      var p := AfterAll(Start(first, max, apAfter), events);
      && p.first == first && p.max == max && p.apAfter == apAfter
      && p.provisioned == Provisioned(events)
      && p.backoff == Wait(first, max, Streak(events))
      && p.failures == Min(Streak(events), MAX_FAILURES)
    decreases |events|
  {
    hide NextBackoff, Wait;
    NoWait(first, max);
    if events != [] {
      var before := events[..|events| - 1];
      WaitAfterFailures(first, max, apAfter, before);
      BackoffIsNext(AfterAll(Start(first, max, apAfter), before), Streak(before));
    }
  }

  lemma BackoffIsNext(p: Policy, k: nat)
    requires p.first > 0 && p.backoff == Wait(p.first, p.max, k)
    ensures NextBackoff(p) == Wait(p.first, p.max, k + 1)
  {
    hide Doubled, Wait;
    NoWait(p.first, p.max);
    if k > 0 {
      WaitDoubles(p.first, p.max, k);
      if p.backoff < p.max {
        DoubledIsExact(p.backoff, p.max);
      }
    }
  }

  lemma NoWait(first: nat, max: nat)
    ensures Wait(first, max, 0) == 0 && Wait(first, max, 1) == first
  {
    assert Power2(0) == 1;
  }

  /** Retrying never waits longer than the cap and never less than the first interval, when the first is at most
      the cap; the access point opens without credentials, and otherwise after enough failures in a row while
      not connected. */
  lemma WaitBounds(first: Word, max: Word, apAfter: nat, events: seq<Event>)
    requires 0 < first <= max && apAfter <= MAX_FAILURES
    ensures
      var p := AfterAll(Start(first, max, apAfter), events);
      && (Streak(events) > 0 ==> first <= p.backoff <= max)
      && (p.backoff == 0 <==> Streak(events) == 0)
      && (ShouldOpenAccessPoint(p) <==> !Provisioned(events) || (p.phase != Connected && Streak(events) >= apAfter))
  {
    WaitAfterFailures(first, max, apAfter, events);
    if Streak(events) > 0 {
      var power := Power2(Streak(events) - 1);
      PowerPositive(Streak(events) - 1);
      assert first * power >= first;
    }
  }

  /** An attempt is in flight, or a connection stands: since then neither a failure nor the removal of the
      credentials has ended it. */
  predicate Busy(events: seq<Event>) {
    if events == [] then false
    else
      var last, before := events[|events| - 1], events[..|events| - 1];
      match last
      case SetProvisioned(b) => b && Busy(before)
      case SetGuests(_) => Busy(before)
      case AttemptStarted(_) => Provisioned(before) || Busy(before)
      case ConnectedNow => true
      case Failed(_) => !Provisioned(before) && Busy(before)
  }

  /** A connection stands: it was made, and no failure, no new attempt, and no removal of the credentials came since. */
  predicate IsConnected(events: seq<Event>) {
    if events == [] then false
    else
      var last, before := events[|events| - 1], events[..|events| - 1];
      match last
      case SetProvisioned(b) => b && IsConnected(before)
      case SetGuests(_) => IsConnected(before)
      case AttemptStarted(_) => !Provisioned(before) && IsConnected(before)
      case ConnectedNow => true
      case Failed(_) => !Provisioned(before) && IsConnected(before)
  }

  lemma {:induction false} ConnectionShows(first: Word, max: Word, apAfter: nat, events: seq<Event>)
    ensures
      var p := AfterAll(Start(first, max, apAfter), events);
      (p.phase == Connected <==> IsConnected(events)) && p.provisioned == Provisioned(events)
    decreases |events|
  {
    hide NextBackoff;
    if events != [] {
      ConnectionShows(first, max, apAfter, events[..|events| - 1]);
    }
  }

  /** After any history the access point is open exactly if there are no credentials, or if no connection stands and as
      many attempts in a row have failed as it takes. */
  lemma OpenAfter(first: Word, max: Word, apAfter: nat, events: seq<Event>)
    requires first > 0 && apAfter <= MAX_FAILURES
    ensures ShouldOpenAccessPoint(AfterAll(Start(first, max, apAfter), events)) <==>
      !Provisioned(events) || (!IsConnected(events) && Streak(events) >= apAfter)
  {
    hide AfterAll, Start, Streak, Provisioned, IsConnected;
    WaitAfterFailures(first, max, apAfter, events);
    ConnectionShows(first, max, apAfter, events);
  }

  function GuestsAt(events: seq<Event>): nat {
    if events == [] then 0
    else
      var last := events[|events| - 1];
      if last.SetGuests? then last.guests else GuestsAt(events[..|events| - 1])
  }

  /** When the last failure of the row was. */
  function LastFailure(events: seq<Event>): Word
    requires Streak(events) > 0
  {
    var last, before := events[|events| - 1], events[..|events| - 1];
    if last.Failed? && Provisioned(before) then last.now else LastFailure(before)
  }

  /** On a 32-bit clock any time short of a whole turn is measured right, across the wrap too. */
  lemma ElapsedIs(from: Word, waited: nat)
    requires waited < WORD
    ensures Elapsed(from, (from + waited) % WORD) == waited
  {
    if from + waited >= WORD {
      assert (from + waited) % WORD == from + waited - WORD;
      assert (waited - WORD) % WORD == waited;
    }
  }

  lemma {:induction false} HistoryShows(first: Word, max: Word, apAfter: nat, events: seq<Event>)
    ensures
      var p := AfterAll(Start(first, max, apAfter), events);
      && (p.phase == Connecting || p.phase == Connected <==> Busy(events))
      && p.guests == GuestsAt(events) && p.provisioned == Provisioned(events)
      && (Streak(events) > 0 ==> p.since == LastFailure(events))
    decreases |events|
  {
    hide NextBackoff;
    if events != [] {
      HistoryShows(first, max, apAfter, events[..|events| - 1]);
    }
  }

  /** After any history an attempt is offered exactly when there are credentials, nothing is in flight or connected,
      and either nothing has failed since they were entered, or no guest is attached and the interval for the
      failures in a row has passed since the last of them. What is left of that interval is the wait. */
  lemma OfferedAfter(first: Word, max: Word, apAfter: nat, events: seq<Event>, now: Word)
    requires first > 0
    ensures
      var p := AfterAll(Start(first, max, apAfter), events);
      var k := Streak(events);
      var passed := if k == 0 then 0 else Elapsed(LastFailure(events), now);
      && (ShouldAttempt(p, now) <==>
            Provisioned(events) && !Busy(events)
            && (k == 0 || (GuestsAt(events) == 0 && passed >= Wait(first, max, k))))
      && WaitRemaining(p, now) == if passed >= Wait(first, max, k) then 0 else Wait(first, max, k) - passed
  {
    WaitAfterFailures(first, max, apAfter, events);
    HistoryShows(first, max, apAfter, events);
    NoWait(first, max);
    hide AfterAll, Start, Wait, Streak, Provisioned, Busy, GuestsAt, LastFailure;
  }

  // ------------------------------------------------------ guests at the table

  /** The driver asks before it starts an attempt. */
  predicate Driven(p: Policy, events: seq<Event>)
    decreases |events|
  {
    events == [] ||
    ((events[0].AttemptStarted? ==> ShouldAttempt(p, events[0].now)) && Driven(After(p, events[0]), events[1..]))
  }

  /** A guest stays attached throughout. */
  predicate GuestsStay(events: seq<Event>) {
    forall k | 0 <= k < |events| :: events[k].SetGuests? ==> events[k].guests > 0
  }

  function Attempts(events: seq<Event>): nat {
    if events == [] then 0 else (if events[0].AttemptStarted? then 1 else 0) + Attempts(events[1..])
  }

  function Entries(events: seq<Event>): nat {
    if events == [] then 0 else (if events[0] == SetProvisioned(true) then 1 else 0) + Entries(events[1..])
  }

  /** Attempts that the present credentials may still start while guests are attached. */
  function Credit(p: Policy): nat {
    if p.phase == Connecting || p.phase == Connected || p.failures > 0 || !p.provisioned then 0 else 1
  }

  /** Nothing starts while an attempt is in flight or a connection stands, and as long as a guest stays attached,
      at most one attempt starts for each entry of credentials, plus the one that was still due. */
  lemma {:induction false} OneAttemptPerEntry(p: Policy, events: seq<Event>)
    requires p.guests > 0 && GuestsStay(events) && Driven(p, events)
    ensures Attempts(events) <= Credit(p) + Entries(events)
    decreases |events|
  {
    if events != [] {
      assert events[0].SetGuests? ==> events[0].guests > 0;
      assert forall k | 0 <= k < |events[1..]| :: events[1..][k] == events[k + 1];
      OneAttemptPerEntry(After(p, events[0]), events[1..]);
    }
  }

  // ---------------------------------------------------------------- class

  class NetworkPolicyMachine {
    const firstBackoffMs: Word
    const maxBackoffMs: Word
    const apAfterFailures: nat
    var phase: Phase
    var provisioned: bool
    var guests: nat
    var failures: nat
    var backoffMs: Word
    var backoffSince: Word

    ghost function State(): Policy
      reads this
    {
      Policy(firstBackoffMs, maxBackoffMs, apAfterFailures, phase, provisioned, guests, failures, backoffMs,
             backoffSince)
    }

    constructor (first: Word, max: Word, apAfter: nat)
      ensures State() == Start(first, max, apAfter)
    {
      firstBackoffMs := if first == 0 then 1 else first;
      maxBackoffMs, apAfterFailures := max, apAfter;
      phase, provisioned, guests, failures, backoffMs, backoffSince := Unprovisioned, false, 0, 0, 0, 0;
    }

    method SetProvisionedTo(b: bool)
      modifies this
      ensures State() == After(old(State()), SetProvisioned(b))
    {
      provisioned := b;
      if !b {
        phase := Unprovisioned;
        failures := 0;
        backoffMs := 0;
        return;
      }
      failures := 0;
      backoffMs := 0;
      backoffSince := 0;
      if phase != Connecting && phase != Connected {
        phase := Backoff;
      }
    }

    method SetGuestCount(n: nat)
      modifies this
      ensures State() == After(old(State()), SetGuests(n))
    {
      guests := n;
    }

    method OnAttemptStarted(now: Word)
      modifies this
      ensures State() == After(old(State()), AttemptStarted(now))
    {
      if !provisioned {
        return;
      }
      phase := Connecting;
    }

    method OnConnected()
      modifies this
      ensures State() == After(old(State()), ConnectedNow)
    {
      phase := Connected;
      failures := 0;
      backoffMs := 0;
    }

    method OnFailed(now: Word)
      modifies this
      ensures State() == After(old(State()), Failed(now))
    {
      if !provisioned {
        return;
      }
      if failures < MAX_FAILURES {
        failures := failures + 1;
      }
      if backoffMs == 0 {
        backoffMs := firstBackoffMs;
      } else if backoffMs < maxBackoffMs {
        var doubled := backoffMs * 2 % WORD;
        backoffMs := if doubled < backoffMs || doubled > maxBackoffMs then maxBackoffMs else doubled;
      }
      backoffSince := now;
      phase := Backoff;
    }
  }
}
