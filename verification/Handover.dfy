/** Handing a request to the conversation task.

    Any number of callers may try to start a conversation at any time; one task carries conversations out. They
    share a phase, a text buffer, and the task's notification. Every access is a step of its own: the buffer is
    copied byte by byte. The module proves, for every interleaving, what the comments in the source promise about
    this hand-over (`EveryRunIsSafe`), and that every accepted start is carried out (`AlwaysComesBack`). */
module Handover {

  const MAX_SPOKEN_TEXT_BYTES: nat := 480

  datatype Phase = Idle | Listening | Thinking | Speaking

  /** A caller inside request_start: it has claimed the phase and is copying its text, about to end it with a NUL,
      or about to notify the task. */
  datatype Caller = Away | Copying(text: string, copied: nat) | Ending(text: string) | Notifying(text: string)

  /** The task: waiting; woken; holding a view of the text before deciding what to do; in a conversation; winding
      down; about to give the phase back. */
  datatype Task = Parked | Woken | Decided(spoken: string) | Conversing(spoken: string) | Winding | Releasing

  datatype Outcome = Completed | Cancelled | Failed

  /** `accepted` and `turns` are history: the texts of the starts that were accepted, and what each turn read. */
  datatype System = System(phase: Phase, buffer: string, notified: nat, callers: seq<Caller>, task: Task,
                           completed: nat, cancelled: nat, failed: nat,
                           accepted: seq<string>, turns: seq<string>)

  function Start(callers: nat): System {
    System(Idle, seq(MAX_SPOKEN_TEXT_BYTES + 1, _ => '\0'), 0, seq(callers, _ => Away), Parked, 0, 0, 0, [], [])
  }

  datatype Step =
    | Request(caller: nat, text: string)
    | CopyByte(caller: nat)
    | EndText(caller: nat)
    | Notify(caller: nat)
    | Wake
    | Read
    | Abort
    | Think
    | SpeakAloud
    | End(outcome: Outcome)
    | Clear
    | Release

  /** A C string ends at its first NUL. */
  function UpToNul(text: string): string {
    if text == "" || text[0] == '\0' then "" else [text[0]] + UpToNul(text[1..])
  }

  predicate Enabled(s: System, step: Step) {
    match step
    case Request(i, _) => i < |s.callers| && s.callers[i].Away?
    case CopyByte(i) =>
      && i < |s.callers| && s.callers[i].Copying?
      && s.callers[i].copied < |s.callers[i].text| && s.callers[i].copied < |s.buffer|
    case EndText(i) =>
      && i < |s.callers| && |s.buffer| > MAX_SPOKEN_TEXT_BYTES
      && (|| (s.callers[i].Copying? && s.callers[i].copied >= |s.callers[i].text|)
          || (s.callers[i].Ending? && |s.callers[i].text| < |s.buffer|))
    case Notify(i) => i < |s.callers| && s.callers[i].Notifying?
    case Wake => s.task.Parked? && s.notified > 0
    case Read => s.task.Woken?
    case Abort => s.task.Decided?
    case Think => s.task.Decided?
    case SpeakAloud => s.task.Conversing?
    case End(_) => s.task.Conversing?
    case Clear => s.task.Winding? && |s.buffer| > 0
    case Release => s.task.Releasing?
  }

  function Next(s: System, step: Step): System
    requires Enabled(s, step)
  {
    match step
    case Request(i, text) =>
      // The compare-exchange on the phase; a second start, or a text that is too long, is turned away.
      if |text| > MAX_SPOKEN_TEXT_BYTES || s.phase != Idle then s
      else s.(phase := Listening, callers := s.callers[i := Copying(text, 0)], accepted := s.accepted + [text])
    case CopyByte(i) =>
      var c := s.callers[i];
      s.(buffer := s.buffer[c.copied := c.text[c.copied]], callers := s.callers[i := Copying(c.text, c.copied + 1)])
    case EndText(i) =>
      var c := s.callers[i];
      if c.Copying? then s.(callers := s.callers[i := Ending(c.text)])
      else s.(buffer := s.buffer[|c.text| := '\0'], callers := s.callers[i := Notifying(c.text)])
    case Notify(i) => s.(notified := s.notified + 1, callers := s.callers[i := Away])
    case Wake => s.(notified := 0, task := Woken)
    case Read => s.(task := Decided(UpToNul(s.buffer)), turns := s.turns + [UpToNul(s.buffer)])
    case Abort => s.(task := Winding, cancelled := s.cancelled + 1)
    case Think => s.(task := Conversing(s.task.spoken), phase := Thinking)
    case SpeakAloud => s.(phase := Speaking)
    case End(outcome) =>
      var t := s.(task := Winding);
      (match outcome
       case Completed => t.(completed := t.completed + 1)
       case Cancelled => t.(cancelled := t.cancelled + 1)
       case Failed => t.(failed := t.failed + 1))
    case Clear => s.(task := Releasing, buffer := s.buffer[0 := '\0'])
    case Release => s.(task := Parked, phase := Idle)
  }

  // ------------------------------------------------------------ the invariant

  predicate IsActive(c: Caller) { !c.Away? }

  predicate NobodyActive(s: System) { forall i | 0 <= i < |s.callers| :: s.callers[i].Away? }

  predicate OnlyActive(s: System, i: nat) {
    i < |s.callers| && IsActive(s.callers[i]) && forall j | 0 <= j < |s.callers| && j != i :: s.callers[j].Away?
  }

  function Ended(s: System): nat { s.completed + s.cancelled + s.failed }

  /** The text of the last accepted start. */
  function LastText(s: System): string {
    if s.accepted == [] then "" else s.accepted[|s.accepted| - 1]
  }

  /** The buffer holds a text and its end. */
  predicate Holds(buffer: string, text: string) {
    |text| < |buffer| && buffer[..|text|] == text && buffer[|text|] == '\0'
  }

  /** How far the active caller has come. */
  predicate Written(buffer: string, c: Caller) {
    match c
    case Away => true
    case Copying(text, copied) => copied <= |text| && copied <= |buffer| && buffer[..copied] == text[..copied]
    case Ending(text) => |text| < |buffer| && buffer[..|text|] == text
    case Notifying(text) => Holds(buffer, text)
  }

  function TextOf(c: Caller): string { if c.Away? then "" else c.text }

  /** The part of the state that only the history sees. */
  predicate Counted(s: System) {
    && |s.turns| <= |s.accepted|
    && (forall k | 0 <= k < |s.turns| :: s.turns[k] == UpToNul(s.accepted[k]))
    && (forall k | 0 <= k < |s.accepted| :: |s.accepted[k]| <= MAX_SPOKEN_TEXT_BYTES)
  }

  /** A start has been accepted and its turn has not read the text yet. */
  predicate Owed(s: System) {
    |s.accepted| == |s.turns| + 1 && Ended(s) == |s.turns|
  }

  /** Exactly one party is at work: a caller, the notification, the task, or nobody. */
  ghost predicate Sound(s: System) {
    && |s.buffer| == MAX_SPOKEN_TEXT_BYTES + 1 && Counted(s)
    && (NobodyActive(s) || exists i: nat :: ActiveCaller(s, i))
    && (NobodyActive(s) ==>
          match s.task
          case Parked =>
            if s.notified == 0 then s.phase == Idle && |s.accepted| == |s.turns| && Ended(s) == |s.turns|
            else s.notified == 1 && s.phase == Listening && Owed(s) && Holds(s.buffer, LastText(s))
          case Woken => s.notified == 0 && s.phase == Listening && Owed(s) && Holds(s.buffer, LastText(s))
          case Decided(spoken) => s.notified == 0 && s.phase == Listening && InTurn(s, spoken)
          case Conversing(spoken) =>
            s.notified == 0 && (s.phase == Thinking || s.phase == Speaking) && InTurn(s, spoken)
          case Winding => s.notified == 0 && s.phase != Idle && |s.accepted| == |s.turns| == Ended(s)
          case Releasing => s.notified == 0 && s.phase != Idle && |s.accepted| == |s.turns| == Ended(s))
  }

  /** A turn that has read its text and has not been counted; the text is still what it read. */
  predicate InTurn(s: System, spoken: string) {
    && |s.accepted| == |s.turns| == Ended(s) + 1
    && spoken == UpToNul(s.buffer) && spoken == s.turns[|s.turns| - 1]
  }

  predicate ActiveCaller(s: System, i: nat) {
    && OnlyActive(s, i)
    && s.phase == Listening && s.task.Parked? && s.notified == 0 && Owed(s)
    && TextOf(s.callers[i]) == LastText(s)
    && |s.buffer| == MAX_SPOKEN_TEXT_BYTES + 1 && |LastText(s)| <= MAX_SPOKEN_TEXT_BYTES
    && Written(s.buffer, s.callers[i])
  }

  lemma {:induction false} HeldText(buffer: string, text: string)
    requires Holds(buffer, text)
    ensures UpToNul(buffer) == UpToNul(text)
    decreases |text|
  {
    if text != "" {
      assert buffer[0] == buffer[..|text|][0] == text[0];
      if text[0] != '\0' {
        assert buffer[1..][..|text| - 1] == buffer[..|text|][1..] == text[1..];
        HeldText(buffer[1..], text[1..]);
      }
    }
  }

  lemma NulFree(text: string)
    requires '\0' !in text
    ensures UpToNul(text) == text
    decreases |text|
  {
    if text != "" {
      assert text[0] in text;
      assert forall c | c in text[1..] :: c in text;
      NulFree(text[1..]);
    }
  }

  lemma StartIsSound(callers: nat)
    ensures Sound(Start(callers))
  {
  }

  /** A step of the caller at work. */
  lemma CallerStepSound(s: System, i: nat, step: Step)
    requires Sound(s) && ActiveCaller(s, i) && Enabled(s, step)
    requires step == CopyByte(i) || step == EndText(i) || step == Notify(i)
    ensures Sound(Next(s, step))
  {
    var t := Next(s, step);
    var c := s.callers[i];
    if step.Notify? {
      assert NobodyActive(t);
    } else {
      if step.CopyByte? {
        assert t.buffer[..c.copied] == s.buffer[..c.copied];
        assert t.buffer[..c.copied + 1] == t.buffer[..c.copied] + [c.text[c.copied]];
        assert c.text[..c.copied + 1] == c.text[..c.copied] + [c.text[c.copied]];
      } else if c.Copying? {
        assert c.text[..c.copied] == c.text;
      } else {
        assert t.buffer[..|c.text|] == s.buffer[..|c.text|];
      }
      assert ActiveCaller(t, i);
      assert !NobodyActive(t);
    }
  }

  /** A step of the task. */
  lemma TaskStepSound(s: System, step: Step)
    requires Sound(s) && NobodyActive(s) && Enabled(s, step)
    requires !step.Request? && !step.CopyByte? && !step.EndText? && !step.Notify?
    ensures Sound(Next(s, step))
  {
    var t := Next(s, step);
    if step.Read? {
      HeldText(s.buffer, LastText(s));
    }
    assert NobodyActive(t);
  }

  /** Every step of every party keeps the hand-over sound. */
  lemma StepSound(s: System, step: Step)
    requires Sound(s) && Enabled(s, step)
    ensures Sound(Next(s, step))
  {
    var t := Next(s, step);
    match step {
      case Request(i, text) =>
        if t != s {
          assert NobodyActive(s);
          assert t.callers[i] == Copying(text, 0);
          assert forall j | 0 <= j < |t.callers| && j != i :: t.callers[j] == s.callers[j];
          assert ActiveCaller(t, i);
          assert !NobodyActive(t);
        }
      case CopyByte(i) =>
        assert ActiveCaller(s, i);
        CallerStepSound(s, i, step);
      case EndText(i) =>
        assert ActiveCaller(s, i);
        CallerStepSound(s, i, step);
      case Notify(i) =>
        assert ActiveCaller(s, i);
        CallerStepSound(s, i, step);
      case _ =>
        assert NobodyActive(s);
        TaskStepSound(s, step);
    }
  }

  // ------------------------------------------------------------------- runs

  predicate Possible(s: System, steps: seq<Step>)
    decreases |steps|
  {
    steps == [] || (Enabled(s, steps[0]) && Possible(Next(s, steps[0]), steps[1..]))
  }

  function Run(s: System, steps: seq<Step>): System
    requires Possible(s, steps)
    decreases |steps|
  {
    if steps == [] then s else Run(Next(s, steps[0]), steps[1..])
  }

  lemma {:induction false} RunSound(s: System, steps: seq<Step>)
    requires Sound(s) && Possible(s, steps)
    ensures Sound(Run(s, steps))
    decreases |steps|
  {
    if steps != [] {
      StepSound(s, steps[0]);
      RunSound(Next(s, steps[0]), steps[1..]);
    }
  }

  /** Writing the shared text: the steps of callers that do, and of the task. */
  predicate WritesText(step: Step) { step.CopyByte? || step.EndText? }

  /** The task holds, or is about to take, a view of the shared text. */
  predicate MayRead(t: Task) { t.Woken? || t.Decided? || t.Conversing? }

  /** In every interleaving of callers and the task: at most one notification is pending; no caller can write the
      shared text while the task may read it, and the text the task holds a view of stays what it read; every turn
      has exactly the text of its start, up to a NUL; each turn but the one under way has been counted in
      exactly one of the counters; and when the phase is idle every accepted start has had its turn. */
  lemma EveryRunIsSafe(callers: nat, steps: seq<Step>)
    requires Possible(Start(callers), steps)
    ensures var s := Run(Start(callers), steps);
      && s.notified <= 1
      && (forall step | Enabled(s, step) && WritesText(step) :: !MayRead(s.task) && s.notified == 0)
      && (s.task.Decided? || s.task.Conversing? ==>
            s.task.spoken == UpToNul(s.buffer) && s.turns != [] && s.task.spoken == s.turns[|s.turns| - 1])
      && |s.turns| <= |s.accepted| <= |s.turns| + 1
      && (forall k | 0 <= k < |s.turns| :: s.turns[k] == UpToNul(s.accepted[k]))
      && Ended(s) <= |s.turns| <= Ended(s) + 1
      && (s.phase == Idle ==> |s.accepted| == |s.turns| == Ended(s) && s.task.Parked? && s.notified == 0)
  {
    StartIsSound(callers);
    RunSound(Start(callers), steps);
    var s := Run(Start(callers), steps);
    if !NobodyActive(s) {
      var i: nat :| ActiveCaller(s, i);
    }
  }

  /** Texts without a NUL are spoken exactly as they were given. */
  lemma ExactTexts(callers: nat, steps: seq<Step>, k: nat)
    requires Possible(Start(callers), steps)
    requires var s := Run(Start(callers), steps); k < |s.turns| && k < |s.accepted| && '\0' !in s.accepted[k]
    ensures Run(Start(callers), steps).turns[k] == Run(Start(callers), steps).accepted[k]
  {
    EveryRunIsSafe(callers, steps);
    NulFree(Run(Start(callers), steps).accepted[k]);
  }

  // ---------------------------------------------------------------- progress

  function CallerRank(c: Caller): nat {
    match c
    case Away => 0
    case Copying(text, copied) => if copied < |text| then 12 + |text| - copied else 12
    case Ending(_) => 11
    case Notifying(_) => 10
  }

  function CallersRank(callers: seq<Caller>): nat {
    if callers == [] then 0 else CallerRank(callers[0]) + CallersRank(callers[1..])
  }

  /** How many steps are left until the phase is idle again, not counting announcements of speech. */
  function Rank(s: System): nat {
    CallersRank(s.callers) + 9 * s.notified +
    match s.task
    case Parked => 0
    case Woken => 8
    case Decided(_) => 7
    case Conversing(_) => 6
    case Winding => 4
    case Releasing => 3
  }

  lemma {:induction false} RankReplaced(callers: seq<Caller>, i: nat, c: Caller)
    requires i < |callers|
    ensures CallersRank(callers[i := c]) == CallersRank(callers) - CallerRank(callers[i]) + CallerRank(c)
    decreases i
  {
    if i > 0 {
      assert callers[i := c][1..] == callers[1..][i - 1 := c];
      RankReplaced(callers[1..], i - 1, c);
    } else {
      assert callers[0 := c][1..] == callers[1..];
    }
  }

  /** Once a start has been accepted the hand-over cannot get stuck or go round in circles: some step is possible,
      and every step except announcing speech brings the idle phase closer. Starts requested meanwhile are
      turned away and change nothing. */
  lemma AlwaysComesBack(s: System)
    requires Sound(s) && s.phase != Idle
    ensures exists step :: Enabled(s, step) && !step.Request? && !step.SpeakAloud?
    ensures forall step | Enabled(s, step) ::
      if step.Request? then Next(s, step) == s
      else if step.SpeakAloud? then Rank(Next(s, step)) == Rank(s)
      else Rank(Next(s, step)) < Rank(s)
  {
    hide Sound, Rank, Next, Enabled;
    SomeStep(s);
    forall step | Enabled(s, step)
      ensures if step.Request? then Next(s, step) == s
        else if step.SpeakAloud? then Rank(Next(s, step)) == Rank(s)
        else Rank(Next(s, step)) < Rank(s)
    {
      StepRank(s, step);
    }
  }

  lemma StepRank(s: System, step: Step)
    requires s.phase != Idle && Enabled(s, step)
    ensures if step.Request? then Next(s, step) == s
      else if step.SpeakAloud? then Rank(Next(s, step)) == Rank(s)
      else Rank(Next(s, step)) < Rank(s)
  {
    hide UpToNul, CallersRank;
    match step {
      case CopyByte(i) =>
        RankReplaced(s.callers, i, Copying(s.callers[i].text, s.callers[i].copied + 1));
      case EndText(i) =>
        RankReplaced(s.callers, i, Ending(s.callers[i].text));
        RankReplaced(s.callers, i, Notifying(s.callers[i].text));
      case Notify(i) =>
        RankReplaced(s.callers, i, Away);
      case _ =>
    }
  }

  lemma SomeStep(s: System)
    requires Sound(s) && s.phase != Idle
    ensures exists step :: Enabled(s, step) && !step.Request? && !step.SpeakAloud?
  {
    if NobodyActive(s) {
      var step :=
        match s.task
        case Parked => Wake
        case Woken => Read
        case Decided(_) => Abort
        case Conversing(_) => End(Completed)
        case Winding => Clear
        case Releasing => Release;
      assert Enabled(s, step);
    } else {
      var i: nat :| ActiveCaller(s, i);
      var c := s.callers[i];
      if c.Copying? && c.copied < |c.text| {
        assert Enabled(s, CopyByte(i));
      } else if c.Notifying? {
        assert Enabled(s, Notify(i));
      } else {
        assert Enabled(s, EndText(i));
      }
    }
  }
}
