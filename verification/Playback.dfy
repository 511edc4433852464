/** Buffering speech sentence by sentence, and playing it.

    `Stager` is what the buffer decides; `Player` carries the decisions out against a sink that may refuse to
    start, stall, or be cut short. The player's history records for every sample the expression of the sentence
    it arrived in and the expression that was shown while it was written, if it was. The theorem `PairedAlways`
    says that these never differ, that order is kept, and that nothing is lost track of. */
module Playback {
  import opened Bytes
  import S = SpeechSpec

  type Expression = S.Expression

  newtype Sample = x: int | -0x8000 <= x < 0x8000

  // ---------------------------------------------------------- the decisions

  datatype Stager = Stager(staged: seq<Sample>, speaking: Expression, pending: Option<Expression>)

  const EMPTY_STAGER := Stager([], S.Neutral, None)

  /** A sentence begins: the stager, and how many samples must be played first. */
  function BeginSentence(s: Stager, next: Expression): (Stager, nat) {
    if s.staged == [] then (s.(speaking := next, pending := None), 0)
    else (s.(pending := Some(next)), |s.staged|)
  }

  /** How many of `count` samples are taken in. */
  function Taken(s: Stager, count: nat, capacity: nat): (n: nat)
    requires |s.staged| <= capacity
    ensures n <= count && |s.staged| + n <= capacity
  {
    if s.pending.Some? then 0 else if count < capacity - |s.staged| then count else capacity - |s.staged|
  }

  function Accept(s: Stager, samples: seq<Sample>, capacity: nat): Stager
    requires |s.staged| <= capacity
  {
    s.(staged := s.staged + samples[..Taken(s, |samples|, capacity)])
  }

  function FinishStage(s: Stager, completed: bool): (Stager, nat) {
    if completed then (s, |s.staged|) else (s.(staged := [], pending := None), 0)
  }

  function Flushed(s: Stager): Stager {
    Stager([], if s.pending.Some? then s.pending.value else s.speaking, None)
  }

  // ------------------------------------------------------------- the player

  /** One write to the sink: refused because of a cancellation, or answered with how much was taken. */
  datatype Write = Cancelled | Wrote(n: nat)

  /** What the sink does for one instruction: it cannot be started, or it answers writes one by one. */
  datatype Deed = Refused | Writing(answers: seq<Write>)

  /** How much of `count` samples is written before the sink stalls, is cancelled, or has it all. */
  function Written(answers: seq<Write>, count: nat): (n: nat)
    ensures n <= count
    decreases |answers|
  {
    if count == 0 || answers == [] || answers[0].Cancelled? || answers[0].n == 0 || answers[0].n > count then 0
    else answers[0].n + Written(answers[1..], count - answers[0].n)
  }

  /** A sample that is no longer staged: the expression it arrived under, and the one it was heard under. */
  datatype Fate = Fate(sample: Sample, voice: Expression, heard: Option<Expression>)

  /** `voices` belong to the staged samples, `sentence` to those that arrive next, `spoken` counts the
      instructions carried out; `arrived` is everything taken in from the reply. */
  datatype Player = Player(stager: Stager, voices: seq<Expression>, sentence: Expression,
                           past: seq<Fate>, arrived: seq<(Sample, Expression)>, spoken: nat)

  const FRESH_PLAYER := Player(EMPTY_STAGER, [], S.Neutral, [], [], 0)

  function Fates(samples: seq<Sample>, voices: seq<Expression>, written: nat, shown: Expression): seq<Fate>
    requires |samples| == |voices|
  {
    seq(|samples|, k requires 0 <= k < |samples| =>
      Fate(samples[k], voices[k], if k < written then Some(shown) else None))
  }

  /** Carry out one instruction: play what is staged under the expression it belongs to. */
  function Speak(p: Player, count: nat, sink: nat -> Deed): Player
    requires |p.voices| == |p.stager.staged|
  {
    if count == 0 then p
    else
      var deed := sink(p.spoken);
      var written := if deed.Refused? then 0 else Written(deed.answers, count);
      p.(stager := Flushed(p.stager), voices := [], spoken := p.spoken + 1,
         past := p.past + Fates(p.stager.staged, p.voices, written, p.stager.speaking))
  }

  function OnSentence(p: Player, next: Expression, sink: nat -> Deed): Player
    requires |p.voices| == |p.stager.staged|
  {
    var (s, count) := BeginSentence(p.stager, next);
    Speak(p.(stager := s, sentence := next), count, sink)
  }

  /** Samples that nothing can be done with. */
  function Discard(p: Player, samples: seq<Sample>): Player {
    p.(past := p.past + Fates(samples, seq(|samples|, _ => p.sentence), 0, p.sentence))
  }

  /** The offering loop: stage what fits, play when nothing does, give up when playing frees nothing. */
  function Offer(p: Player, samples: seq<Sample>, capacity: nat, sink: nat -> Deed): Player
    requires |p.voices| == |p.stager.staged| <= capacity
    decreases |samples|, |p.stager.staged|
  {
    if samples == [] then p
    else
      var n := Taken(p.stager, |samples|, capacity);
      if n != 0 then
        Offer(p.(stager := Accept(p.stager, samples, capacity), voices := p.voices + seq(n, _ => p.sentence)),
              samples[n..], capacity, sink)
      else
        var q := Speak(p, |p.stager.staged|, sink);
        if p.stager.staged == [] || q.stager.staged != [] then Discard(q, samples)
        else Offer(q, samples, capacity, sink)
  }

  function OnAudio(p: Player, samples: seq<Sample>, capacity: nat, sink: nat -> Deed): Player
    requires |p.voices| == |p.stager.staged| <= capacity
  {
    Offer(p.(arrived := p.arrived + Arrivals(samples, p.sentence)), samples, capacity, sink)
  }

  function Arrivals(samples: seq<Sample>, voice: Expression): seq<(Sample, Expression)> {
    seq(|samples|, k requires 0 <= k < |samples| => (samples[k], voice))
  }

  function OnFinished(p: Player, completed: bool, sink: nat -> Deed): Player
    requires |p.voices| == |p.stager.staged|
  {
    var (s, count) := FinishStage(p.stager, completed);
    if completed then Speak(p, count, sink)
    else p.(stager := s, voices := [], past := p.past + Fates(p.stager.staged, p.voices, 0, p.stager.speaking))
  }

  // ------------------------------------------------------------ the invariant

  /** What a past sample was when it arrived. */
  function Origins(past: seq<Fate>): seq<(Sample, Expression)> {
    seq(|past|, k requires 0 <= k < |past| => (past[k].sample, past[k].voice))
  }

  /** What reached the sink, in order, with the expression it was heard under. */
  function Heard(past: seq<Fate>): seq<(Sample, Expression)> {
    if past == [] then []
    else
      var last := past[|past| - 1];
      Heard(past[..|past| - 1]) + if last.heard.Some? then [(last.sample, last.heard.value)] else []
  }

  function Lost(past: seq<Fate>): nat {
    if past == [] then 0
    else Lost(past[..|past| - 1]) + if past[|past| - 1].heard.None? then 1 else 0
  }

  predicate IsPaired(f: Fate) { f.heard.Some? ==> f.heard.value == f.voice }

  predicate AllPaired(past: seq<Fate>) { forall k | 0 <= k < |past| :: IsPaired(past[k]) }

  /** Between callbacks: no sentence boundary is waiting, everything staged belongs to the sentence being spoken,
      and what has arrived is what is past followed by what is staged. */
  predicate Settled(p: Player, capacity: nat) {
    && Steady(p, capacity)
    && p.arrived == Origins(p.past) + Arrivals(p.stager.staged, p.sentence)
  }

  predicate Steady(p: Player, capacity: nat) {
    && |p.voices| == |p.stager.staged| <= capacity
    && p.stager.pending == None && p.stager.speaking == p.sentence
    && (forall k | 0 <= k < |p.voices| :: p.voices[k] == p.sentence)
    && AllPaired(p.past)
  }

  lemma FatesAre(samples: seq<Sample>, voices: seq<Expression>, written: nat, shown: Expression)
    requires |samples| == |voices| && forall k | 0 <= k < |voices| :: voices[k] == shown
    ensures var f := Fates(samples, voices, written, shown);
      AllPaired(f) && Origins(f) == Arrivals(samples, shown)
  {
  }

  lemma OriginsJoin(a: seq<Fate>, b: seq<Fate>)
    ensures Origins(a + b) == Origins(a) + Origins(b)
    ensures AllPaired(a) && AllPaired(b) ==> AllPaired(a + b)
  {
  }

  /** Playing what is staged moves it to the past and frees the whole stage. */
  lemma SpeakSettles(p: Player, capacity: nat, next: Option<Expression>, sink: nat -> Deed)
    requires Settled(p, capacity) && p.stager.staged != []
    ensures
      var s := p.stager.(pending := next);
      var e := if next.Some? then next.value else p.sentence;
      var q := Speak(p.(stager := s, sentence := e), |s.staged|, sink);
      Settled(q, capacity) && q.stager.staged == [] && q.sentence == e && q.arrived == p.arrived
  {
    var deed := sink(p.spoken);
    var written := if deed.Refused? then 0 else Written(deed.answers, |p.stager.staged|);
    var f := Fates(p.stager.staged, p.voices, written, p.stager.speaking);
    FatesAre(p.stager.staged, p.voices, written, p.stager.speaking);
    OriginsJoin(p.past, f);
    hide Written, AllPaired, Origins, Fates, Arrivals;
    NoArrivals(Origins(p.past + f), if next.Some? then next.value else p.sentence);
  }

  lemma NoArrivals(a: seq<(Sample, Expression)>, e: Expression)
    ensures a + Arrivals([], e) == a
  {
  }

  lemma SentenceSettles(p: Player, capacity: nat, next: Expression, sink: nat -> Deed)
    requires Settled(p, capacity)
    ensures Settled(OnSentence(p, next, sink), capacity)
    ensures OnSentence(p, next, sink).sentence == next && OnSentence(p, next, sink).arrived == p.arrived
    ensures OnSentence(p, next, sink).stager.staged == []
  {
    hide AllPaired, Origins, Arrivals, Written;
    if p.stager.staged == [] {
      NoArrivals(Origins(p.past), p.sentence);
      NoArrivals(Origins(p.past), next);
    } else {
      SpeakSettles(p, capacity, Some(next), sink);
      hide Speak;
    }
  }

  /** Everything that has arrived is past or staged, or is still being offered. */
  predicate Offering(p: Player, samples: seq<Sample>, capacity: nat) {
    && Steady(p, capacity)
    && p.arrived == Origins(p.past) + Arrivals(p.stager.staged + samples, p.sentence)
  }

  lemma ArrivalsJoin(a: seq<Sample>, b: seq<Sample>, e: Expression)
    ensures Arrivals(a + b, e) == Arrivals(a, e) + Arrivals(b, e)
  {
  }

  /** With room for at least one sample the loop stages everything it was offered: the branch that gives up is
      never taken, since playing always frees the stage and no boundary is waiting. */
  lemma {:induction false} OfferSettles(p: Player, samples: seq<Sample>, capacity: nat, sink: nat -> Deed)
    requires Offering(p, samples, capacity) && capacity > 0
    ensures var q := Offer(p, samples, capacity, sink);
      Settled(q, capacity) && q.sentence == p.sentence && q.arrived == p.arrived
    decreases |samples|, |p.stager.staged|
  {
    hide AllPaired, Origins, Arrivals, Written;
    var s := p.stager;
    if samples == [] {
      assert s.staged + samples == s.staged;
    } else {
      var n := Taken(s, |samples|, capacity);
      if n != 0 {
        var q := p.(stager := Accept(s, samples, capacity), voices := p.voices + seq(n, _ => p.sentence));
        assert s.staged + samples == (s.staged + samples[..n]) + samples[n..];
        OfferSettles(q, samples[n..], capacity, sink);
      } else {
        OfferPlays(p, samples, capacity, sink);
        OfferSettles(Speak(p, |s.staged|, sink), samples, capacity, sink);
      }
    }
  }

  lemma OfferPlays(p: Player, samples: seq<Sample>, capacity: nat, sink: nat -> Deed)
    requires Offering(p, samples, capacity) && p.stager.staged != []
    ensures var q := Speak(p, |p.stager.staged|, sink);
      Offering(q, samples, capacity) && q.stager.staged == [] && q.sentence == p.sentence && q.arrived == p.arrived
  {
    hide AllPaired, Arrivals, Written, Fates, Origins;
    var s := p.stager.staged;
    var settled := p.(arrived := Origins(p.past) + Arrivals(s, p.sentence));
    SpeakSettles(settled, capacity, None, sink);
    assert p.stager.(pending := None) == p.stager && settled.(stager := p.stager, sentence := p.sentence) == settled;
    var q := Speak(p, |s|, sink);
    assert Speak(settled, |s|, sink) == q.(arrived := settled.arrived);
    NoArrivals(Origins(q.past), p.sentence);
    ArrivalsJoin(s, samples, p.sentence);
    assert [] + samples == samples;
    assert (Origins(p.past) + Arrivals(s, p.sentence)) + Arrivals(samples, p.sentence)
        == Origins(p.past) + (Arrivals(s, p.sentence) + Arrivals(samples, p.sentence));
  }

  lemma AudioSettles(p: Player, samples: seq<Sample>, capacity: nat, sink: nat -> Deed)
    requires Settled(p, capacity) && capacity > 0
    ensures var q := OnAudio(p, samples, capacity, sink);
      Settled(q, capacity) && q.sentence == p.sentence && q.arrived == p.arrived + Arrivals(samples, p.sentence)
  {
    hide AllPaired, Origins, Arrivals, Offer;
    ArrivalsJoin(p.stager.staged, samples, p.sentence);
    assert (Origins(p.past) + Arrivals(p.stager.staged, p.sentence)) + Arrivals(samples, p.sentence)
        == Origins(p.past) + (Arrivals(p.stager.staged, p.sentence) + Arrivals(samples, p.sentence));
    OfferSettles(p.(arrived := p.arrived + Arrivals(samples, p.sentence)), samples, capacity, sink);
  }

  lemma FinishSettles(p: Player, completed: bool, capacity: nat, sink: nat -> Deed)
    requires Settled(p, capacity)
    ensures var q := OnFinished(p, completed, sink);
      Settled(q, capacity) && q.sentence == p.sentence && q.arrived == p.arrived && q.stager.staged == []
  {
    hide Written;
    if completed && p.stager.staged != [] {
      hide AllPaired, Origins, Arrivals;
      SpeakSettles(p, capacity, None, sink);
      assert p.stager.(pending := None) == p.stager && p.(stager := p.stager, sentence := p.sentence) == p;
    } else if !completed {
      var f := Fates(p.stager.staged, p.voices, 0, p.stager.speaking);
      FatesAre(p.stager.staged, p.voices, 0, p.stager.speaking);
      OriginsJoin(p.past, f);
      hide AllPaired, Origins, Arrivals, Fates;
      NoArrivals(Origins(p.past + f), p.sentence);
    }
  }

  // -------------------------------------------------------------------- runs

  datatype Callback = Sentence(expression: Expression) | Audio(samples: seq<Sample>) | Finished(completed: bool)

  function React(p: Player, c: Callback, capacity: nat, sink: nat -> Deed): Player
    requires |p.voices| == |p.stager.staged| <= capacity
  {
    match c
    case Sentence(e) => OnSentence(p, e, sink)
    case Audio(samples) => OnAudio(p, samples, capacity, sink)
    case Finished(completed) => OnFinished(p, completed, sink)
  }

  function ReactAll(p: Player, callbacks: seq<Callback>, capacity: nat, sink: nat -> Deed): Player
    requires Settled(p, capacity) && capacity > 0
    decreases |callbacks|
  {
    if callbacks == [] then p
    else
      ReactSettles(p, callbacks[0], capacity, sink);
      ReactAll(React(p, callbacks[0], capacity, sink), callbacks[1..], capacity, sink)
  }

  lemma ReactSettles(p: Player, c: Callback, capacity: nat, sink: nat -> Deed)
    requires Settled(p, capacity) && capacity > 0
    ensures Settled(React(p, c, capacity, sink), capacity)
    ensures React(p, c, capacity, sink).sentence == (if c.Sentence? then c.expression else p.sentence)
    ensures React(p, c, capacity, sink).arrived
         == p.arrived + (if c.Audio? then Arrivals(c.samples, p.sentence) else [])
    ensures !c.Audio? ==> React(p, c, capacity, sink).stager.staged == []
  {
    match c
    case Sentence(e) =>
      SentenceSettles(p, capacity, e, sink);
      hide *;
      assert p.arrived + [] == p.arrived;
    case Audio(samples) => AudioSettles(p, samples, capacity, sink);
    case Finished(completed) =>
      FinishSettles(p, completed, capacity, sink);
      hide *;
      assert p.arrived + [] == p.arrived;
  }

  /** The samples of a run, each with the expression of the sentence it came in. */
  function Given(callbacks: seq<Callback>, sentence: Expression): seq<(Sample, Expression)> {
    if callbacks == [] then []
    else
      match callbacks[0]
      case Sentence(e) => Given(callbacks[1..], e)
      case Audio(samples) => Arrivals(samples, sentence) + Given(callbacks[1..], sentence)
      case Finished(_) => Given(callbacks[1..], sentence)
  }

  lemma {:induction false} RunSettles(p: Player, callbacks: seq<Callback>, capacity: nat, sink: nat -> Deed)
    requires Settled(p, capacity) && capacity > 0
    ensures var q := ReactAll(p, callbacks, capacity, sink);
      Settled(q, capacity) && q.arrived == p.arrived + Given(callbacks, p.sentence)
    decreases |callbacks|
  {
    hide React, Arrivals, AllPaired, Origins;
    if callbacks == [] {
      assert p.arrived + [] == p.arrived;
    } else {
      var c := callbacks[0];
      var q := React(p, c, capacity, sink);
      ReactSettles(p, c, capacity, sink);
      RunSettles(q, callbacks[1..], capacity, sink);
      if c.Audio? {
        assert (p.arrived + Arrivals(c.samples, p.sentence)) + Given(callbacks[1..], p.sentence)
            == p.arrived + (Arrivals(c.samples, p.sentence) + Given(callbacks[1..], p.sentence));
      } else {
        assert q.arrived == p.arrived;
      }
    }
  }

  /** `a` comes from `b` by leaving elements out. */
  predicate IsThinned(a: seq<(Sample, Expression)>, b: seq<(Sample, Expression)>) {
    if a == [] then true
    else if b == [] then false
    else
      var x, y := a[|a| - 1], b[|b| - 1];
      (x == y && IsThinned(a[..|a| - 1], b[..|b| - 1])) || IsThinned(a, b[..|b| - 1])
  }

  /** One more past sample. */
  lemma OneMorePast(before: seq<Fate>, last: Fate)
    ensures var past := before + [last];
      && Heard(past) == Heard(before) + (if last.heard.Some? then [(last.sample, last.heard.value)] else [])
      && Lost(past) == Lost(before) + (if last.heard.None? then 1 else 0)
      && Origins(past) == Origins(before) + [(last.sample, last.voice)]
  {
    var past := before + [last];
    assert past[..|past| - 1] == before && past[|past| - 1] == last;
  }

  lemma NoPast()
    ensures Heard([]) == [] && Lost([]) == 0 && Origins([]) == []
  {
  }

  lemma ThinnedMore(a: seq<(Sample, Expression)>, b: seq<(Sample, Expression)>, x: (Sample, Expression))
    requires IsThinned(a, b)
    ensures IsThinned(a, b + [x]) && IsThinned(a + [x], b + [x])
  {
    assert (a + [x])[..|a|] == a && (b + [x])[..|b|] == b;
  }

  lemma {:induction false} HeardIsThinned(past: seq<Fate>)
    requires AllPaired(past)
    ensures IsThinned(Heard(past), Origins(past)) && |Heard(past)| + Lost(past) == |past|
    ensures Lost(past) == 0 ==> Heard(past) == Origins(past)
    decreases |past|
  {
    if past == [] {
      NoPast();
      assert IsThinned([], []);
    } else {
      var before, last := past[..|past| - 1], past[|past| - 1];
      assert past == before + [last] && IsPaired(last) && AllPaired(before);
      hide Heard, Lost, Origins, IsThinned, AllPaired;
      HeardIsThinned(before);
      OneMorePast(before, last);
      assert Heard(before) + [] == Heard(before);
      ThinnedMore(Heard(before), Origins(before), (last.sample, last.voice));
    }
  }

  /** Over every run, whatever the sink does: samples reach it in the order in which they arrived, each under the
      expression of the sentence it arrived in; and received equals written plus discarded plus staged. */
  lemma PairedAlways(callbacks: seq<Callback>, capacity: nat, sink: nat -> Deed)
    requires capacity > 0
    ensures Settled(FRESH_PLAYER, capacity)
    ensures
      var p := ReactAll(FRESH_PLAYER, callbacks, capacity, sink);
      var given := Given(callbacks, S.Neutral);
      && IsThinned(Heard(p.past), given)
      && |given| == |Heard(p.past)| + Lost(p.past) + |p.stager.staged|
      && |given| == |p.past| + |p.stager.staged| && Origins(p.past) == given[..|p.past|]
      && (Lost(p.past) == 0 ==> Heard(p.past) == given[..|p.past|])
  {
    assert Settled(FRESH_PLAYER, capacity) by {
      assert Origins([]) + Arrivals([], S.Neutral) == [];
    }
    RunSettles(FRESH_PLAYER, callbacks, capacity, sink);
    var p := ReactAll(FRESH_PLAYER, callbacks, capacity, sink);
    var given := Given(callbacks, S.Neutral);
    assert [] + given == given;
    HeardIsThinned(p.past);
    assert given == Origins(p.past) + Arrivals(p.stager.staged, p.sentence);
    assert given[..|p.past|] == Origins(p.past);
    hide ReactAll, Heard, Given;
    ThinnedLonger(Heard(p.past), Origins(p.past), Arrivals(p.stager.staged, p.sentence));
  }

  lemma {:induction false} ThinnedLonger(a: seq<(Sample, Expression)>, b: seq<(Sample, Expression)>,
                                         more: seq<(Sample, Expression)>)
    requires IsThinned(a, b)
    ensures IsThinned(a, b + more)
    decreases |more|
  {
    if more == [] {
      assert b + more == b;
    } else {
      var l := b + more;
      assert l[..|l| - 1] == b + more[..|more| - 1];
      ThinnedLonger(a, b, more[..|more| - 1]);
    }
  }

  /** When the turn has finished nothing is left behind: every sample was written or discarded. */
  lemma NothingLeft(callbacks: seq<Callback>, completed: bool, capacity: nat, sink: nat -> Deed)
    requires capacity > 0
    ensures Settled(FRESH_PLAYER, capacity)
    ensures
      var p := ReactAll(FRESH_PLAYER, callbacks + [Finished(completed)], capacity, sink);
      p.stager.staged == [] && Origins(p.past) == Given(callbacks + [Finished(completed)], S.Neutral)
  {
    PairedAlways(callbacks + [Finished(completed)], capacity, sink);
    EndsEmpty(FRESH_PLAYER, callbacks, completed, capacity, sink);
    hide ReactAll, Given;
    var given := Given(callbacks + [Finished(completed)], S.Neutral);
    assert given[..|given|] == given;
  }

  lemma {:induction false} EndsEmpty(p: Player, callbacks: seq<Callback>, completed: bool, capacity: nat,
                                       sink: nat -> Deed)
    requires Settled(p, capacity) && capacity > 0
    ensures ReactAll(p, callbacks + [Finished(completed)], capacity, sink).stager.staged == []
    decreases |callbacks|
  {
    hide React, AllPaired, Origins, Arrivals;
    var all := callbacks + [Finished(completed)];
    ReactSettles(p, all[0], capacity, sink);
    if callbacks == [] {
      assert all[1..] == [];
    } else {
      assert all[1..] == callbacks[1..] + [Finished(completed)];
      EndsEmpty(React(p, all[0], capacity, sink), callbacks[1..], completed, capacity, sink);
    }
  }

  // ------------------------------------------------------------- the classes

  /** 32-bit milliseconds. */
  const CLOCK: nat := 0x1_0000_0000

  class PlaybackStager {
    const stage: array?<Sample>
    const capacity: nat
    const sinkDepthMs: nat
    var stagedCount: nat
    var speaking: Expression
    var pendingExpression: Expression
    var hasPending: bool
    var untilMs: nat
    var spoke: bool

    ghost predicate Valid()
      reads this
    {
      capacity == (if stage == null then 0 else stage.Length) && stagedCount <= capacity
    }

    ghost function State(): Stager
      reads this, stage
      requires Valid()
    {
      Stager(if stage == null then [] else stage[..stagedCount], speaking,
             if hasPending then Some(pendingExpression) else None)
    }

    constructor (stage: array?<Sample>, sinkDepthMs: nat)
      ensures Valid() && this.stage == stage && this.sinkDepthMs == sinkDepthMs && State() == EMPTY_STAGER && !spoke
    {
      this.stage := stage;
      capacity := if stage == null then 0 else stage.Length;
      this.sinkDepthMs := sinkDepthMs;
      stagedCount, speaking, pendingExpression, hasPending, untilMs, spoke := 0, S.Neutral, S.Neutral, false, 0, false;
    }

    method Begin(next: Expression) returns (count: nat)
      requires Valid()
      modifies this
      ensures Valid() && (State(), count) == BeginSentence(old(State()), next)
    {
      if stagedCount == 0 {
        speaking := next;
        hasPending := false;
        return 0;
      }
      pendingExpression := next;
      hasPending := true;
      return stagedCount;
    }

    method AcceptSamples(samples: array<Sample>, from: nat, count: nat) returns (taken: nat)
      requires Valid() && from + count <= samples.Length && samples != stage
      modifies this, stage
      ensures Valid() && taken == Taken(old(State()), count, capacity)
      ensures State() == Accept(old(State()), samples[from..from + count], capacity)
    {
      taken := 0;
      if count == 0 || capacity == 0 {
        NothingTaken(State(), samples[from..from + count]);
        return;
      }
      if hasPending {
        NothingTaken(State(), samples[from..from + count]);
        return;
      }
      var room := capacity - stagedCount;
      var take := if count < room then count else room;
      if take == 0 {
        NothingTaken(State(), samples[from..from + count]);
        return;
      }
      ghost var before := stage[..stagedCount];
      var at := stagedCount;
      for k := 0 to take
        modifies stage
        invariant stage[..at] == before
        invariant forall j | at <= j < at + k :: stage[j] == samples[from + j - at]
      {
        stage[at + k] := samples[from + k];
      }
      assert stage[..stagedCount + take] == before + samples[from..from + count][..take];
      stagedCount := stagedCount + take;
      return take;
    }

    method Finish(completed: bool) returns (count: nat)
      requires Valid()
      modifies this
      ensures Valid() && (State(), count) == FinishStage(old(State()), completed)
    {
      if !completed {
        stagedCount := 0;
        hasPending := false;
        return 0;
      }
      return stagedCount;
    }

    method Flush(now: nat)
      requires Valid()
      modifies this
      ensures Valid() && State() == Flushed(old(State()))
      ensures spoke && untilMs == (now + sinkDepthMs) % CLOCK
    {
      stagedCount := 0;
      untilMs := (now + sinkDepthMs) % CLOCK;
      spoke := true;
      if hasPending {
        speaking := pendingExpression;
        hasPending := false;
      }
    }

    function RemainingMs(now: nat): nat
      reads this
    {
      if !spoke then 0
      else
        var left := (untilMs - now) % CLOCK;
        // A word with its top bit set is negative.
        if 0 < left < CLOCK / 2 then left else 0
    }
  }

  lemma NothingAccepted(s: Stager, samples: seq<Sample>, capacity: nat)
    requires |s.staged| <= capacity && Taken(s, |samples|, capacity) == 0
    ensures Accept(s, samples, capacity) == s
  {
    NothingTaken(s, samples);
  }

  lemma NothingTaken(s: Stager, samples: seq<Sample>)
    ensures s.staged + samples[..0] == s.staged && s.(staged := s.staged) == s
  {
  }

  /** What is still to be heard `elapsed` milliseconds after a flush, on a clock that may have wrapped since. */
  lemma StillSounding(stager: PlaybackStager, now: nat, elapsed: nat)
    requires stager.spoke && stager.untilMs == (now + stager.sinkDepthMs) % CLOCK
    requires stager.sinkDepthMs < CLOCK / 2 && elapsed < CLOCK / 2
    ensures stager.RemainingMs((now + elapsed) % CLOCK)
         == if elapsed < stager.sinkDepthMs then stager.sinkDepthMs - elapsed else 0
  {
    var d := stager.sinkDepthMs - elapsed;
    assert (((now + stager.sinkDepthMs) % CLOCK) - ((now + elapsed) % CLOCK)) % CLOCK == d % CLOCK by {
      WordDifference(now + stager.sinkDepthMs, now + elapsed);
    }
    if d < 0 {
      assert d % CLOCK == d + CLOCK;
    }
  }

  lemma WordDifference(a: nat, b: nat)
    ensures ((a % CLOCK) - (b % CLOCK)) % CLOCK == (a - b) % CLOCK
  {
    var i, j := a / CLOCK, b / CLOCK;
    assert a == i * CLOCK + a % CLOCK && b == j * CLOCK + b % CLOCK;
    assert a - b == (a % CLOCK - b % CLOCK) + (i - j) * CLOCK;
    WordMultiple(a % CLOCK - b % CLOCK, i - j);
  }

  lemma WordMultiple(x: int, k: int)
    ensures (x + k * CLOCK) % CLOCK == x % CLOCK
  {
    var q, r := x / CLOCK, x % CLOCK;
    assert x + k * CLOCK == (q + k) * CLOCK + r;
  }

  /** The player on the device: it owns nothing but counters. The sink and the clock are oracles. */
  class PlayerMachine {
    const stager: PlaybackStager
    const sink: nat -> Deed
    const clock: nat -> nat
    var received: nat
    var played: nat
    var peak: int
    var spoken: nat
    ghost var voices: seq<Expression>
    ghost var sentence: Expression
    ghost var past: seq<Fate>
    ghost var arrived: seq<(Sample, Expression)>

    ghost predicate Valid()
      reads this, stager
    {
      && stager.Valid() && |voices| == stager.stagedCount && stager.capacity > 0
      && played == |Heard(past)| && received == |arrived|
    }

    ghost function State(): Player
      reads this, stager, stager.stage
      requires Valid()
    {
      Player(stager.State(), voices, sentence, past, arrived, spoken)
    }

    constructor (stage: array<Sample>, sinkDepthMs: nat, sink: nat -> Deed, clock: nat -> nat)
      requires stage.Length > 0
      ensures Valid() && fresh(stager) && stager.stage == stage && this.sink == sink && State() == FRESH_PLAYER
      ensures received == 0 && played == 0
    {
      stager := new PlaybackStager(stage, sinkDepthMs);
      this.sink := sink;
      this.clock := clock;
      received, played, peak, spoken := 0, 0, 0, 0;
      voices, sentence, past, arrived := [], S.Neutral, [], [];
    }

    /** Hand samples over until the sink has them all, stalls, or the turn is cancelled. */
    method WriteAll(answers: seq<Write>, count: nat) returns (written: nat)
      ensures written == Written(answers, count)
    {
      written := 0;
      var k := 0;
      assert answers[0..] == answers;
      while written < count
        invariant 0 <= k <= |answers| && written <= count
        invariant Written(answers, count) == written + Written(answers[k..], count - written)
        decreases |answers| - k
      {
        if k >= |answers| || answers[k].Cancelled? || answers[k].n == 0 || answers[k].n > count - written {
          break;
        }
        assert answers[k..][1..] == answers[k + 1..];
        written := written + answers[k].n;
        k := k + 1;
      }
    }

    method SpeakStaged(count: nat)
      requires Valid() && (count == 0 || count == stager.stagedCount)
      modifies this, stager
      ensures Valid() && State() == Speak(old(State()), count, sink)
      ensures received == old(received)
    {
      hide Written, Heard, Fates;
      if count == 0 {
        return;
      }
      var deed := sink(spoken);
      ghost var p := State();
      if deed.Refused? {
        HeardGrows(past, p.stager.staged, p.voices, 0, p.stager.speaking);
        stager.Flush(clock(spoken));
        past := past + Fates(p.stager.staged, p.voices, 0, p.stager.speaking);
        voices := [];
        spoken := spoken + 1;
        return;
      }
      var written := WriteAll(deed.answers, count);
      HeardGrows(past, p.stager.staged, p.voices, written, p.stager.speaking);
      played := played + written;
      stager.Flush(clock(spoken));
      past := past + Fates(p.stager.staged, p.voices, written, p.stager.speaking);
      voices := [];
      spoken := spoken + 1;
    }

    method SentenceBegins(next: Expression)
      requires Valid()
      modifies this, stager
      ensures Valid() && State() == OnSentence(old(State()), next, sink)
    {
      hide Speak;
      var count := stager.Begin(next);
      sentence := next;
      SpeakStaged(count);
    }

    /** Remember the loudest sample. */
    method MeasurePeak(samples: array<Sample>, count: nat)
      requires count <= samples.Length
      modifies this`peak
      ensures peak >= old(peak)
      ensures forall i | 0 <= i < count :: -peak <= samples[i] as int <= peak
      ensures
        || peak == old(peak)
        || exists i | 0 <= i < count :: peak == samples[i] as int || peak == -(samples[i] as int)
    {
      for i := 0 to count
        invariant peak >= old(peak)
        invariant forall j | 0 <= j < i :: -peak <= samples[j] as int <= peak
        invariant
          || peak == old(peak)
          || exists j | 0 <= j < i :: peak == samples[j] as int || peak == -(samples[j] as int)
      {
        var magnitude := if samples[i] < 0 then -(samples[i] as int) else samples[i] as int;
        if magnitude > peak {
          peak := magnitude;
        }
      }
    }

    /** Stage what fits, under the expression of the sentence announced last. */
    method StageSamples(samples: array<Sample>, from: nat, count: nat) returns (taken: nat)
      requires Valid() && from + count <= samples.Length && samples != stager.stage
      modifies this`voices, stager, stager.stage
      ensures Valid() && taken == Taken(old(State()).stager, count, stager.capacity)
      ensures State() == AfterTaking(old(State()), samples[from..from + count], taken, stager.capacity)
      ensures taken == 0 ==> State() == old(State())
    {
      hide Accept, Taken;
      AcceptLength(State().stager, samples[from..from + count], stager.capacity);
      taken := stager.AcceptSamples(samples, from, count);
      if taken == 0 {
        NothingAccepted(old(State()).stager, samples[from..from + count], stager.capacity);
      }
      ghost var voice := sentence;
      voices := voices + seq(taken, _ => voice);
    }

    /** Stage the samples of one event, playing early whenever they do not fit. */
    method AudioArrives(samples: array<Sample>, count: nat)
      requires Valid() && count <= samples.Length && samples != stager.stage
      requires Settled(State(), stager.capacity)
      modifies this, stager, stager.stage
      ensures Valid() && State() == OnAudio(old(State()), samples[..count], stager.capacity, sink)
    {
      hide Speak, AllPaired, Origins, Arrivals, Accept, Taken, Heard, Offer, OnAudio, Offering, Fates, Written,
           AfterTaking;
      ArrivalsLength(samples[..count], sentence);
      MeasurePeak(samples, count);
      ghost var p := State();
      ghost var all := samples[..count];
      AudioOffered(p, all, stager.capacity, sink);
      received := received + count;
      arrived := arrived + Arrivals(all, sentence);
      var offset := 0;
      assert all[0..] == all;
      while offset < count
        invariant offset <= count && Valid() && samples[..count] == all
        invariant Offering(State(), all[offset..], stager.capacity)
        invariant Offer(State(), all[offset..], stager.capacity, sink) == OnAudio(p, all, stager.capacity, sink)
        decreases count - offset, stager.stagedCount
      {
        ghost var q := State();
        assert samples[offset..offset + (count - offset)] == all[offset..];
        OfferStep(q, all[offset..], stager.capacity, sink);
        var taken := StageSamples(samples, offset, count - offset);
        if taken != 0 {
          assert all[offset..][taken..] == all[offset + taken..];
          offset := offset + taken;
          continue;
        }
        var staged := stager.stagedCount;
        assert State() == q;
        OfferPlays(q, all[offset..], stager.capacity, sink);
        SpeakStaged(staged);
        if staged == 0 || stager.stagedCount != 0 {
          assert false;
          return;
        }
      }
      assert all[offset..] == [];
      NothingOffered(State(), stager.capacity, sink);
    }

    method TurnFinished(completed: bool)
      requires Valid()
      modifies this, stager
      ensures Valid() && State() == OnFinished(old(State()), completed, sink)
    {
      hide Speak;
      ghost var p := State();
      var count := stager.Finish(completed);
      if !completed {
        HeardGrows(past, p.stager.staged, p.voices, 0, p.stager.speaking);
        past := past + Fates(p.stager.staged, p.voices, 0, p.stager.speaking);
        voices := [];
        return;
      }
      SpeakStaged(count);
    }
  }

  lemma ArrivalsLength(samples: seq<Sample>, e: Expression)
    ensures |Arrivals(samples, e)| == |samples|
  {
  }

  /** What is written is heard. */
  lemma {:induction false} HeardGrows(past: seq<Fate>, samples: seq<Sample>, voices: seq<Expression>, written: nat,
                                      shown: Expression)
    requires |samples| == |voices| && written <= |samples|
    ensures |Heard(past + Fates(samples, voices, written, shown))| == |Heard(past)| + written
    decreases |samples|
  {
    var f := Fates(samples, voices, written, shown);
    if samples == [] {
      assert past + f == past;
    } else {
      var n := |samples| - 1;
      var before := Fates(samples[..n], voices[..n], if written > n then n else written, shown);
      HeardGrows(past, samples[..n], voices[..n], if written > n then n else written, shown);
      assert f == before + [f[n]];
      assert (past + f)[..|past + f| - 1] == past + before;
    }
  }

  lemma NothingOffered(p: Player, capacity: nat, sink: nat -> Deed)
    requires |p.voices| == |p.stager.staged| <= capacity
    ensures Offer(p, [], capacity, sink) == p
  {
  }

  lemma AudioOffered(p: Player, samples: seq<Sample>, capacity: nat, sink: nat -> Deed)
    requires Settled(p, capacity)
    ensures
      var q := p.(arrived := p.arrived + Arrivals(samples, p.sentence));
      Offering(q, samples, capacity) && OnAudio(p, samples, capacity, sink) == Offer(q, samples, capacity, sink)
  {
    hide Offer;
    ArrivalsJoin(p.stager.staged, samples, p.sentence);
    hide AllPaired, Origins, Arrivals;
    assert (Origins(p.past) + Arrivals(p.stager.staged, p.sentence)) + Arrivals(samples, p.sentence)
        == Origins(p.past) + (Arrivals(p.stager.staged, p.sentence) + Arrivals(samples, p.sentence));
  }

  /** One turn of the offering loop. */
  lemma AcceptLength(s: Stager, samples: seq<Sample>, capacity: nat)
    requires |s.staged| <= capacity
    ensures |Accept(s, samples, capacity).staged| == |s.staged| + Taken(s, |samples|, capacity)
  {
  }

  /** The player after `n` of the samples went onto the stage. */
  function AfterTaking(p: Player, samples: seq<Sample>, n: nat, capacity: nat): Player
    requires |p.stager.staged| <= capacity
  {
    p.(stager := Accept(p.stager, samples, capacity), voices := p.voices + seq(n, _ => p.sentence))
  }

  lemma OfferStep(p: Player, samples: seq<Sample>, capacity: nat, sink: nat -> Deed)
    requires Offering(p, samples, capacity) && samples != [] && capacity > 0
    ensures
      var n := Taken(p.stager, |samples|, capacity);
      if n != 0 then
        var q := AfterTaking(p, samples, n, capacity);
        && Offering(q, samples[n..], capacity)
        && Offer(p, samples, capacity, sink) == Offer(q, samples[n..], capacity, sink)
      else
        && p.stager.staged != [] && Accept(p.stager, samples, capacity) == p.stager
        && var q := Speak(p, |p.stager.staged|, sink);
           q.stager.staged == [] && Offer(p, samples, capacity, sink) == Offer(q, samples, capacity, sink)
  {
    hide AllPaired, Origins, Arrivals, Written;
    var n := Taken(p.stager, |samples|, capacity);
    if n != 0 {
      assert p.stager.staged + samples == (p.stager.staged + samples[..n]) + samples[n..];
    } else {
      NothingTaken(p.stager, samples);
      OfferPlays(p, samples, capacity, sink);
    }
  }
}
