/** What is heard of a run, sample by sample.

    `PairedAlways` lets a sink lose whatever it likes. Here the answers of the sink decide: which instructions a run
    gives follows from its callbacks alone (`Plan`), each instruction lands as many samples as its writes take
    (`LandsExactly`), and exactly those are heard (`HeardExactly`). Nothing is lost if and only if every instruction
    lands whole (`NothingLostIff`). */
module PlaybackHeard {
  import opened Bytes
  import opened Playback
  import S = SpeechSpec

  // ---------------------------------------------------- one instruction

  /** What the first answers took. */
  function Total(answers: seq<Write>): nat {
    if answers == [] then 0
    else
      var last := answers[|answers| - 1];
      Total(answers[..|answers| - 1]) + if last.Wrote? then last.n else 0
  }

  /** Each of the first `k` writes takes something, and no more than what is left. */
  predicate Takes(answers: seq<Write>, count: nat, k: nat) {
    && k <= |answers|
    && forall j | 0 <= j < k :: answers[j].Wrote? && 1 <= answers[j].n && Total(answers[..j]) + answers[j].n <= count
  }

  /** The writes go no further: all is written, or the next one is cancelled, stalls, or never comes. */
  predicate Stops(answers: seq<Write>, count: nat, k: nat) {
    && Takes(answers, count, k)
    && (Total(answers[..k]) == count || !Takes(answers, count, k + 1))
  }

  lemma {:induction false} WritesOn(answers: seq<Write>, count: nat, k: nat)
    requires Takes(answers, count, k)
    ensures Total(answers[..k]) <= count
    ensures Written(answers, count) == Total(answers[..k]) + Written(answers[k..], count - Total(answers[..k]))
    decreases k
  {
    hide Written;
    if k == 0 {
      assert answers[0..] == answers;
    } else {
      WritesOn(answers, count, k - 1);
      var left := count - Total(answers[..k - 1]);
      assert answers[..k][..k - 1] == answers[..k - 1];
      assert answers[k - 1..][0] == answers[k - 1] && answers[k - 1..][1..] == answers[k..];
      FirstWrite(answers[k - 1..], left);
    }
  }

  lemma FirstWrite(answers: seq<Write>, count: nat)
    requires answers != []
    ensures
      var first := answers[0];
      Written(answers, count)
      == if first.Wrote? && 1 <= first.n <= count then first.n + Written(answers[1..], count - first.n) else 0
  {
  }

  /** One instruction writes the sum of the longest row of answers that take something, and no more than is left. */
  lemma LandsExactly(answers: seq<Write>, count: nat) returns (k: nat)
    ensures Stops(answers, count, k) && Written(answers, count) == Total(answers[..k])
    ensures Written(answers, count) == count <==>
      exists j: nat :: Takes(answers, count, j) && Total(answers[..j]) == count
  {
    hide Written;
    k := 0;
    while k < |answers| && Takes(answers, count, k + 1) && Total(answers[..k]) != count
      invariant Takes(answers, count, k)
    {
      k := k + 1;
    }
    WritesOn(answers, count, k);
    NoFurther(answers, count, k);
    forall j: nat | Takes(answers, count, j) && Total(answers[..j]) == count ensures Written(answers, count) == count {
      WritesOn(answers, count, j);
      assert count - Total(answers[..j]) == 0;
    }
  }

  lemma NoFurther(answers: seq<Write>, count: nat, k: nat)
    requires Stops(answers, count, k) && Total(answers[..k]) <= count
    ensures Written(answers[k..], count - Total(answers[..k])) == 0
  {
    hide Total;
    if Total(answers[..k]) < count && k < |answers| {
      assert answers[k..][0] == answers[k];
      assert !(answers[k].Wrote? && 1 <= answers[k].n && Total(answers[..k]) + answers[k].n <= count);
    }
  }

  /** How many of the samples of an instruction are written. */
  function Lands(deed: Deed, count: nat): (n: nat)
    ensures n <= count
  {
    if deed.Refused? then 0 else Written(deed.answers, count)
  }

  // ------------------------------------------------- the instructions of a run

  /** Samples are played by one instruction, or dropped without any. */
  datatype Step = Play(n: nat) | Drop(n: nat)

  /** A sentence longer than the stage is played in full stages, each as soon as a sample comes that finds no room. */
  function Early(total: nat, capacity: nat): seq<Step>
    requires capacity > 0
  {
    if total <= capacity then [] else [Play(capacity)] + Early(total - capacity, capacity)
  }

  function Rest(total: nat, capacity: nat): (n: nat)
    requires capacity > 0
    ensures n <= capacity
  {
    if total <= capacity then total else Rest(total - capacity, capacity)
  }

  /** What one callback causes when `staged` samples wait: a new sentence and a completed turn play what is staged, any
      other end of the turn drops it. */
  function Steps(c: Callback, staged: nat, capacity: nat): seq<Step>
    requires capacity > 0
  {
    match c
    case Sentence(_) => if staged == 0 then [] else [Play(staged)]
    case Audio(samples) => Early(staged + |samples|, capacity)
    case Finished(completed) => if staged == 0 then [] else if completed then [Play(staged)] else [Drop(staged)]
  }

  function Staged(c: Callback, staged: nat, capacity: nat): nat
    requires capacity > 0
  {
    if c.Audio? then Rest(staged + |c.samples|, capacity) else 0
  }

  /** The instructions of a whole run. They do not depend on the sink. */
  function Plan(callbacks: seq<Callback>, staged: nat, capacity: nat): seq<Step>
    requires capacity > 0
    decreases |callbacks|
  {
    if callbacks == [] then []
    else Steps(callbacks[0], staged, capacity)
         + Plan(callbacks[1..], Staged(callbacks[0], staged, capacity), capacity)
  }

  /** How many samples the steps are about. */
  function Covered(plan: seq<Step>): nat { if plan == [] then 0 else plan[0].n + Covered(plan[1..]) }

  function Plays(plan: seq<Step>): nat {
    if plan == [] then 0 else (if plan[0].Play? then 1 else 0) + Plays(plan[1..])
  }

  /** What is heard when the samples are played by plan, from instruction `k` on: of every instruction as many samples
      as it lands, from its first. */
  function Played(given: seq<(Sample, Expression)>, plan: seq<Step>, k: nat, sink: nat -> Deed)
    : seq<(Sample, Expression)>
    requires Covered(plan) <= |given|
    decreases |plan|
  {
    if plan == [] then []
    else if plan[0].Play? then
      given[..Lands(sink(k), plan[0].n)] + Played(given[plan[0].n..], plan[1..], k + 1, sink)
    else Played(given[plan[0].n..], plan[1..], k, sink)
  }

  // --------------------------------------------------------- lemmas on plans

  lemma {:induction false} CoveredJoin(a: seq<Step>, b: seq<Step>)
    ensures Covered(a + b) == Covered(a) + Covered(b) && Plays(a + b) == Plays(a) + Plays(b)
    decreases |a|
  {
    if a == [] {
      assert a + b == b;
    } else {
      assert (a + b)[1..] == a[1..] + b;
      CoveredJoin(a[1..], b);
    }
  }

  lemma {:induction false} PlayedJoin(x: seq<(Sample, Expression)>, a: seq<Step>, y: seq<(Sample, Expression)>,
                                      b: seq<Step>, k: nat, sink: nat -> Deed)
    requires Covered(a) == |x| && Covered(b) <= |y|
    ensures Covered(a + b) <= |x + y|
    ensures Played(x + y, a + b, k, sink) == Played(x, a, k, sink) + Played(y, b, k + Plays(a), sink)
    decreases |a|
  {
    hide Lands, Played, Covered, Plays;
    CoveredJoin(a, b);
    if a == [] {
      NothingPlayed(x, k, sink);
      assert a + b == b && x + y == y && [] + Played(y, b, k, sink) == Played(y, b, k, sink);
    } else {
      var n, rest := a[0].n, a[1..];
      var next := if a[0].Play? then k + 1 else k;
      assert a == [a[0]] + rest && a + b == [a[0]] + (rest + b);
      StepThen(x, a[0], rest, k, sink);
      CoveredJoin(rest, b);
      PlayedJoin(x[n..], rest, y, b, next, sink);
      StepThen(x + y, a[0], rest + b, k, sink);
      assert (x + y)[n..] == x[n..] + y;
      if a[0].Play? {
        var w := Lands(sink(k), n);
        assert (x + y)[..w] == x[..w];
        Rejoin(x[..w], Played(x[n..], rest, next, sink), Played(y, b, next + Plays(rest), sink));
      }
    }
  }

  lemma NothingPlayed(given: seq<(Sample, Expression)>, k: nat, sink: nat -> Deed)
    ensures Covered([]) == 0 && Plays([]) == 0 && Played(given, [], k, sink) == []
  {
  }

  lemma StepThen(given: seq<(Sample, Expression)>, step: Step, rest: seq<Step>, k: nat, sink: nat -> Deed)
    ensures Covered([step] + rest) == step.n + Covered(rest)
    ensures Plays([step] + rest) == (if step.Play? then 1 else 0) + Plays(rest)
    ensures step.n + Covered(rest) <= |given| ==>
      Played(given, [step] + rest, k, sink)
      == if step.Play? then given[..Lands(sink(k), step.n)] + Played(given[step.n..], rest, k + 1, sink)
         else Played(given[step.n..], rest, k, sink)
  {
    hide Lands;
    assert ([step] + rest)[1..] == rest;
  }

  lemma Rejoin(a: seq<(Sample, Expression)>, b: seq<(Sample, Expression)>, c: seq<(Sample, Expression)>)
    ensures a + (b + c) == a + b + c
  {
  }

  lemma {:induction false} HeardJoin(a: seq<Fate>, b: seq<Fate>)
    ensures Heard(a + b) == Heard(a) + Heard(b)
    decreases |b|
  {
    if b == [] {
      assert a + b == a && Heard(a) + [] == Heard(a);
    } else {
      var front := b[..|b| - 1];
      assert (a + b)[..|a + b| - 1] == a + front && (a + b)[|a + b| - 1] == b[|b| - 1];
      HeardJoin(a, front);
    }
  }

  /** Of the samples of one instruction the first `written` are heard. */
  lemma {:induction false} HeardOfFates(samples: seq<Sample>, voices: seq<Expression>, written: nat, shown: Expression)
    requires |samples| == |voices| && written <= |samples|
    ensures Heard(Fates(samples, voices, written, shown)) == Arrivals(samples[..written], shown)
    decreases |samples|
  {
    hide Heard, Fates, Arrivals;
    if samples == [] {
      NoFates(voices, written, shown);
    } else {
      var n := |samples| - 1;
      var w := if written < n then written else n;
      var before, last := Fates(samples[..n], voices[..n], w, shown),
                          Fate(samples[n], voices[n], if n < written then Some(shown) else None);
      HeardOfFates(samples[..n], voices[..n], w, shown);
      assert samples[..n][..w] == samples[..w];
      FatesSplit(samples, voices, written, shown);
      OneMorePast(before, last);
      assert Heard(before) + [] == Heard(before);
      if written == n + 1 {
        assert samples[..n + 1] == samples[..n] + [samples[n]];
        ArrivalsOn(samples[..n], samples[n], shown);
      }
    }
  }

  lemma NoFates(voices: seq<Expression>, written: nat, shown: Expression)
    requires voices == [] && written == 0
    ensures Heard(Fates([], voices, written, shown)) == Arrivals([], shown)
  {
  }

  lemma FatesSplit(samples: seq<Sample>, voices: seq<Expression>, written: nat, shown: Expression)
    requires samples != [] && |samples| == |voices| && written <= |samples|
    ensures
      var n := |samples| - 1;
      Fates(samples, voices, written, shown)
      == Fates(samples[..n], voices[..n], if written < n then written else n, shown)
         + [Fate(samples[n], voices[n], if n < written then Some(shown) else None)]
  {
  }

  lemma ArrivalsOn(samples: seq<Sample>, x: Sample, e: Expression)
    ensures Arrivals(samples + [x], e) == Arrivals(samples, e) + [(x, e)]
  {
  }

  // ------------------------------------------------------ a run follows its plan

  /** From `p` to `q` the samples were played by the plan. */
  predicate Follows(p: Player, q: Player, given: seq<(Sample, Expression)>, plan: seq<Step>, sink: nat -> Deed) {
    && Covered(plan) <= |given|
    && Heard(q.past) == Heard(p.past) + Played(given, plan, p.spoken, sink)
    && q.spoken == p.spoken + Plays(plan)
  }

  lemma FollowsNothing(p: Player, given: seq<(Sample, Expression)>, sink: nat -> Deed)
    ensures Follows(p, p, given, [], sink)
  {
    assert Heard(p.past) + [] == Heard(p.past);
  }

  lemma FollowsThen(p: Player, q: Player, r: Player, x: seq<(Sample, Expression)>, a: seq<Step>,
                    y: seq<(Sample, Expression)>, b: seq<Step>, sink: nat -> Deed)
    requires Covered(a) == |x| && Follows(p, q, x, a, sink) && Follows(q, r, y, b, sink)
    ensures Follows(p, r, x + y, a + b, sink)
  {
    hide Played, Heard, Covered, Plays;
    CoveredJoin(a, b);
    PlayedJoin(x, a, y, b, p.spoken, sink);
    Rejoin(Heard(p.past), Played(x, a, p.spoken, sink), Played(y, b, q.spoken, sink));
  }

  /** One instruction plays everything that is staged. */
  lemma SpeakFollows(p: Player, next: Player, sink: nat -> Deed)
    requires |p.voices| == |p.stager.staged| && p.stager.staged != [] && p.stager.speaking == p.sentence
    requires next.past == p.past && next.spoken == p.spoken && next.voices == p.voices
    requires next.stager.staged == p.stager.staged && next.stager.speaking == p.stager.speaking
    ensures
      var q := Speak(next, |p.stager.staged|, sink);
      Follows(p, q, Arrivals(p.stager.staged, p.sentence), [Play(|p.stager.staged|)], sink)
  {
    hide Heard, Fates, Arrivals;
    var staged := p.stager.staged;
    var w := Lands(sink(p.spoken), |staged|);
    var f := Fates(staged, p.voices, w, p.sentence);
    HeardJoin(p.past, f);
    HeardOfFates(staged, p.voices, w, p.sentence);
    ArrivalsCut(staged, w, p.sentence);
    OneStep(Arrivals(staged, p.sentence), Play(|staged|), p.spoken, sink);
    assert Speak(next, |staged|, sink).past == p.past + f;
  }

  lemma ArrivalsCut(samples: seq<Sample>, w: nat, e: Expression)
    requires w <= |samples|
    ensures |Arrivals(samples, e)| == |samples| && Arrivals(samples, e)[..w] == Arrivals(samples[..w], e)
  {
  }

  lemma OneStep(given: seq<(Sample, Expression)>, step: Step, k: nat, sink: nat -> Deed)
    requires |given| == step.n
    ensures Covered([step]) == step.n && Plays([step]) == if step.Play? then 1 else 0
    ensures Played(given, [step], k, sink) == if step.Play? then given[..Lands(sink(k), step.n)] else []
  {
    assert [step][1..] == [];
  }

  lemma {:induction false} EarlyCovers(total: nat, capacity: nat)
    requires capacity > 0
    ensures Covered(Early(total, capacity)) + Rest(total, capacity) == total
    decreases total
  {
    if total > capacity {
      EarlyCovers(total - capacity, capacity);
      assert ([Play(capacity)] + Early(total - capacity, capacity))[1..] == Early(total - capacity, capacity);
    }
  }

  /** The offering loop plays full stages early, and leaves the rest staged. */
  lemma {:induction false} OfferFollows(p: Player, samples: seq<Sample>, capacity: nat, sink: nat -> Deed)
    requires Offering(p, samples, capacity) && capacity > 0
    ensures
      var q := Offer(p, samples, capacity, sink);
      var all := p.stager.staged + samples;
      var n := Covered(Early(|all|, capacity));
      && n <= |all| && q.stager.staged == all[n..]
      && Follows(p, q, Arrivals(all[..n], p.sentence), Early(|all|, capacity), sink)
    decreases |samples|, |p.stager.staged|
  {
    hide AllPaired, Origins, Arrivals, Written, Follows, Covered;
    var s, all := p.stager.staged, p.stager.staged + samples;
    EarlyCovers(|all|, capacity);
    if samples == [] {
      assert all == s && all[0..] == s;
      NoneCovered();
      FollowsNothing(p, Arrivals(all[..0], p.sentence), sink);
    } else {
      var n := Taken(p.stager, |samples|, capacity);
      if n != 0 {
        TakenFollows(p, samples, capacity, sink);
      } else {
        FullFollows(p, samples, capacity, sink);
      }
    }
  }

  lemma NoneCovered()
    ensures Covered([]) == 0
  {
  }

  lemma TakenFollows(p: Player, samples: seq<Sample>, capacity: nat, sink: nat -> Deed)
    requires Offering(p, samples, capacity) && capacity > 0 && Taken(p.stager, |samples|, capacity) != 0
    ensures
      var q := Offer(p, samples, capacity, sink);
      var all := p.stager.staged + samples;
      var n := Covered(Early(|all|, capacity));
      && n <= |all| && q.stager.staged == all[n..]
      && Follows(p, q, Arrivals(all[..n], p.sentence), Early(|all|, capacity), sink)
    decreases |samples|, |p.stager.staged|, 0
  {
    hide AllPaired, Origins, Arrivals, Written, Covered, Early, Played, Plays, Heard;
    var n := Taken(p.stager, |samples|, capacity);
    var q := AfterTaking(p, samples, n, capacity);
    assert p.stager.staged + samples == (p.stager.staged + samples[..n]) + samples[n..];
    OfferFollows(q, samples[n..], capacity, sink);
  }

  lemma FullFollows(p: Player, samples: seq<Sample>, capacity: nat, sink: nat -> Deed)
    requires Offering(p, samples, capacity) && capacity > 0
    requires samples != [] && Taken(p.stager, |samples|, capacity) == 0
    ensures
      var q := Offer(p, samples, capacity, sink);
      var all := p.stager.staged + samples;
      var n := Covered(Early(|all|, capacity));
      && n <= |all| && q.stager.staged == all[n..]
      && Follows(p, q, Arrivals(all[..n], p.sentence), Early(|all|, capacity), sink)
    decreases |samples|, |p.stager.staged|, 0
  {
    hide AllPaired, Origins, Arrivals, Written, Covered, Follows, Speak, Offer, Early;
    var s, all := p.stager.staged, p.stager.staged + samples;
    var q := Speak(p, |s|, sink);
    FullStage(p, samples, capacity);
    OfferStep(p, samples, capacity, sink);
    OfferPlays(p, samples, capacity, sink);
    SpeakFollows(p, p, sink);
    OfferFollows(q, samples, capacity, sink);
    assert [] + samples == samples;
    var n := Covered(Early(|samples|, capacity));
    EarlyMore(|samples|, capacity);
    ArrivalsCut(s, 0, p.sentence);
    FollowsThen(p, q, Offer(q, samples, capacity, sink), Arrivals(s, p.sentence), [Play(capacity)],
                Arrivals(samples[..n], p.sentence), Early(|samples|, capacity), sink);
    ArrivalsJoin(s, samples[..n], p.sentence);
    assert all[..capacity + n] == s + samples[..n] && all[capacity + n..] == samples[n..];
  }

  lemma FullStage(p: Player, samples: seq<Sample>, capacity: nat)
    requires Offering(p, samples, capacity) && samples != [] && Taken(p.stager, |samples|, capacity) == 0
    ensures |p.stager.staged| == capacity == |p.voices| && p.stager.speaking == p.sentence
  {
    hide AllPaired, Origins, Arrivals;
  }

  lemma EarlyMore(more: nat, capacity: nat)
    requires more > 0 && capacity > 0
    ensures Early(capacity + more, capacity) == [Play(capacity)] + Early(more, capacity)
    ensures Covered(Early(capacity + more, capacity)) == capacity + Covered(Early(more, capacity))
    ensures Covered([Play(capacity)]) == capacity
  {
    var early := Early(more, capacity);
    assert ([Play(capacity)] + early)[1..] == early;
    OneCovered(Play(capacity));
  }

  lemma OneCovered(step: Step)
    ensures Covered([step]) == step.n
  {
    assert [step][1..] == [];
  }

  /** What is staged, and what the callback brings. */
  function AtHand(p: Player, c: Callback): seq<(Sample, Expression)> {
    Arrivals(p.stager.staged, p.sentence) + if c.Audio? then Arrivals(c.samples, p.sentence) else []
  }

  predicate ReactsSo(p: Player, q: Player, c: Callback, capacity: nat, sink: nat -> Deed)
    requires capacity > 0
  {
    var steps := Steps(c, |p.stager.staged|, capacity);
    && Covered(steps) <= |AtHand(p, c)|
    && Follows(p, q, AtHand(p, c)[..Covered(steps)], steps, sink)
    && Arrivals(q.stager.staged, q.sentence) == AtHand(p, c)[Covered(steps)..]
    && |q.stager.staged| == Staged(c, |p.stager.staged|, capacity)
  }

  lemma SentenceFollows(p: Player, e: Expression, capacity: nat, sink: nat -> Deed)
    requires Settled(p, capacity) && capacity > 0
    ensures ReactsSo(p, OnSentence(p, e, sink), Sentence(e), capacity, sink)
  {
    hide AllPaired, Origins, Arrivals, Follows, Lands;
    var m := |p.stager.staged|;
    SentenceSettles(p, capacity, e, sink);
    ArrivalsCut(p.stager.staged, 0, p.sentence);
    Nothing(p, e, sink);
    OneCovered(Play(m));
    var x := AtHand(p, Sentence(e));
    assert x == Arrivals(p.stager.staged, p.sentence);
    if m == 0 {
      assert x[..0] == [] && x[0..] == [];
    } else {
      SpeakFollows(p, p.(stager := p.stager.(pending := Some(e)), sentence := e), sink);
      assert x[..m] == x && x[m..] == [];
    }
  }

  lemma Nothing(p: Player, e: Expression, sink: nat -> Deed)
    ensures Arrivals([], e) == [] && Covered([]) == 0
    ensures forall q: Player | q.past == p.past && q.spoken == p.spoken :: Follows(p, q, [], [], sink)
  {
    assert Heard(p.past) + [] == Heard(p.past);
  }

  lemma FinishFollows(p: Player, completed: bool, capacity: nat, sink: nat -> Deed)
    requires Settled(p, capacity) && capacity > 0
    ensures ReactsSo(p, OnFinished(p, completed, sink), Finished(completed), capacity, sink)
  {
    hide AllPaired, Origins, Arrivals, Follows, Lands, Fates;
    var m := |p.stager.staged|;
    FinishSettles(p, completed, capacity, sink);
    ArrivalsCut(p.stager.staged, 0, p.sentence);
    Nothing(p, p.sentence, sink);
    OneCovered(if completed then Play(m) else Drop(m));
    var x := AtHand(p, Finished(completed));
    assert x == Arrivals(p.stager.staged, p.sentence);
    if m == 0 {
      assert x[..0] == [] && x[0..] == [];
      if !completed {
        NothingDropped(p, sink);
      }
    } else if completed {
      SpeakFollows(p, p, sink);
      assert x[..m] == x && x[m..] == [];
    } else {
      DropFollows(p, x, sink);
      assert x[..m] == x && x[m..] == [];
    }
  }

  lemma NothingDropped(p: Player, sink: nat -> Deed)
    requires p.stager.staged == [] && p.voices == []
    ensures OnFinished(p, false, sink).past == p.past
  {
    assert p.past + [] == p.past;
  }

  lemma DropFollows(p: Player, given: seq<(Sample, Expression)>, sink: nat -> Deed)
    requires |p.voices| == |p.stager.staged| == |given| && p.stager.staged != []
    ensures Follows(p, OnFinished(p, false, sink), given, [Drop(|given|)], sink)
  {
    hide Heard, Fates, Arrivals;
    var f := Fates(p.stager.staged, p.voices, 0, p.stager.speaking);
    HeardJoin(p.past, f);
    HeardOfFates(p.stager.staged, p.voices, 0, p.stager.speaking);
    ArrivalsCut(p.stager.staged[..0], 0, p.stager.speaking);
    OneStep(given, Drop(|given|), p.spoken, sink);
    assert Heard(p.past) + [] == Heard(p.past);
  }

  lemma AudioFollows(p: Player, samples: seq<Sample>, capacity: nat, sink: nat -> Deed)
    requires Settled(p, capacity) && capacity > 0
    ensures ReactsSo(p, OnAudio(p, samples, capacity, sink), Audio(samples), capacity, sink)
  {
    hide AllPaired, Origins, Arrivals, Offer, Covered, Early, Heard, Played, Plays;
    var staged, e := p.stager.staged, p.sentence;
    var r := p.(arrived := p.arrived + Arrivals(samples, e));
    var all := staged + samples;
    AudioOffered(p, samples, capacity, sink);
    AudioSettles(p, samples, capacity, sink);
    OfferFollows(r, samples, capacity, sink);
    EarlyCovers(|all|, capacity);
    ArrivalsJoin(staged, samples, e);
    var n := Covered(Early(|all|, capacity));
    ArrivalsCut(all, n, e);
    ArrivalsDrop(all, n, e);
  }

  lemma ArrivalsDrop(samples: seq<Sample>, n: nat, e: Expression)
    requires n <= |samples|
    ensures |Arrivals(samples, e)| == |samples| && Arrivals(samples, e)[n..] == Arrivals(samples[n..], e)
  {
  }

  lemma ReactFollows(p: Player, c: Callback, capacity: nat, sink: nat -> Deed)
    requires Settled(p, capacity) && capacity > 0
    ensures ReactsSo(p, React(p, c, capacity, sink), c, capacity, sink)
  {
    hide ReactsSo, AllPaired, Origins, OnSentence, OnAudio, OnFinished;
    match c
    case Sentence(e) => SentenceFollows(p, e, capacity, sink);
    case Audio(samples) => AudioFollows(p, samples, capacity, sink);
    case Finished(completed) => FinishFollows(p, completed, capacity, sink);
  }

  lemma {:induction false} RunFollows(p: Player, callbacks: seq<Callback>, capacity: nat, sink: nat -> Deed)
    requires Settled(p, capacity) && capacity > 0
    ensures
      var q := ReactAll(p, callbacks, capacity, sink);
      var all := Arrivals(p.stager.staged, p.sentence) + Given(callbacks, p.sentence);
      var plan := Plan(callbacks, |p.stager.staged|, capacity);
      && Covered(plan) <= |all| && Follows(p, q, all[..Covered(plan)], plan, sink)
      && Arrivals(q.stager.staged, q.sentence) == all[Covered(plan)..]
    decreases |callbacks|
  {
    hide React, Arrivals, AllPaired, Origins, Follows, Covered, Steps, Staged;
    var staged := Arrivals(p.stager.staged, p.sentence);
    var all := staged + Given(callbacks, p.sentence);
    var plan := Plan(callbacks, |p.stager.staged|, capacity);
    if callbacks == [] {
      NoneCovered();
      FollowsNothing(p, all[..0], sink);
      assert all == staged && all[0..] == staged;
    } else {
      var c, rest := callbacks[0], callbacks[1..];
      var q := React(p, c, capacity, sink);
      ReactSettles(p, c, capacity, sink);
      ReactFollows(p, c, capacity, sink);
      RunFollows(q, rest, capacity, sink);
      var steps := Steps(c, |p.stager.staged|, capacity);
      var x, n := AtHand(p, c), Covered(steps);
      var later := Arrivals(q.stager.staged, q.sentence) + Given(rest, q.sentence);
      var more := Plan(rest, |q.stager.staged|, capacity);
      GivenNext(p, callbacks, q.sentence);
      CoveredJoin(steps, more);
      Regroup(x, n, Given(rest, q.sentence), later, Covered(more));
      FollowsThen(p, q, ReactAll(q, rest, capacity, sink), x[..n], steps, later[..Covered(more)], more, sink);
    }
  }

  lemma GivenNext(p: Player, callbacks: seq<Callback>, sentence: Expression)
    requires callbacks != []
    requires sentence == if callbacks[0].Sentence? then callbacks[0].expression else p.sentence
    ensures Arrivals(p.stager.staged, p.sentence) + Given(callbacks, p.sentence)
         == AtHand(p, callbacks[0]) + Given(callbacks[1..], sentence)
  {
    hide Arrivals;
    var staged, rest := Arrivals(p.stager.staged, p.sentence), Given(callbacks[1..], sentence);
    if callbacks[0].Audio? {
      Rejoin(staged, Arrivals(callbacks[0].samples, p.sentence), rest);
    } else {
      assert staged + [] == staged;
    }
  }

  lemma Regroup(x: seq<(Sample, Expression)>, n: nat, rest: seq<(Sample, Expression)>,
                later: seq<(Sample, Expression)>, m: nat)
    requires n <= |x| && later == x[n..] + rest && m <= |later|
    ensures n + m <= |x + rest| && (x + rest)[..n + m] == x[..n] + later[..m] && (x + rest)[n + m..] == later[m..]
    ensures |x[..n]| == n
  {
    assert x + rest == x[..n] + later;
  }

  // ------------------------------------------------------------- theorems

  /** Over every run and every sink: what is heard is, of each instruction in turn, as many samples as it lands, from
      its first; what the plan does not cover is still staged. */
  lemma HeardExactly(callbacks: seq<Callback>, capacity: nat, sink: nat -> Deed)
    requires capacity > 0
    ensures Settled(FRESH_PLAYER, capacity)
    ensures
      var p := ReactAll(FRESH_PLAYER, callbacks, capacity, sink);
      var given, plan := Given(callbacks, S.Neutral), Plan(callbacks, 0, capacity);
      && Covered(plan) + |p.stager.staged| == |given|
      && Heard(p.past) == Played(given, plan, 0, sink)
  {
    hide ReactAll, Played, Covered, Plays, Plan, Given, Heard;
    PairedAlways(callbacks, capacity, sink);
    RunFollows(FRESH_PLAYER, callbacks, capacity, sink);
    NoPast();
    var p := ReactAll(FRESH_PLAYER, callbacks, capacity, sink);
    var given, plan := Given(callbacks, S.Neutral), Plan(callbacks, 0, capacity);
    ArrivalsCut([], 0, S.Neutral);
    ArrivalsCut(p.stager.staged, 0, p.sentence);
    assert Arrivals([], S.Neutral) + given == given;
    PlayedOf(given, plan, 0, sink);
    assert [] + Played(given, plan, 0, sink) == Played(given, plan, 0, sink);
  }

  /** Only the samples that the plan covers matter. */
  lemma {:induction false} PlayedOf(given: seq<(Sample, Expression)>, plan: seq<Step>, k: nat, sink: nat -> Deed)
    requires Covered(plan) <= |given|
    ensures Played(given[..Covered(plan)], plan, k, sink) == Played(given, plan, k, sink)
  {
    hide Played, Covered, Plays;
    var n := Covered(plan);
    assert given == given[..n] + given[n..] && plan == plan + [];
    NothingPlayed(given[n..], k + Plays(plan), sink);
    PlayedJoin(given[..n], plan, given[n..], [], k, sink);
  }

  /** The writes of an instruction take all its samples, one after the other. */
  ghost predicate Delivers(deed: Deed, count: nat) {
    deed.Writing? && exists k: nat :: Takes(deed.answers, count, k) && Total(deed.answers[..k]) == count
  }

  /** Nothing of the plan is dropped, and every instruction from `k` on is delivered whole. */
  ghost predicate AllDelivered(plan: seq<Step>, k: nat, sink: nat -> Deed)
    decreases |plan|
  {
    plan != [] ==> plan[0].Play? && Delivers(sink(k), plan[0].n) && AllDelivered(plan[1..], k + 1, sink)
  }

  predicate AllPositive(plan: seq<Step>) { forall k | 0 <= k < |plan| :: plan[k].n > 0 }

  lemma LandsWhole(deed: Deed, count: nat)
    requires count > 0
    ensures Lands(deed, count) == count <==> Delivers(deed, count)
  {
    if deed.Writing? {
      var k := LandsExactly(deed.answers, count);
    }
  }

  lemma {:induction false} PlayedWhole(given: seq<(Sample, Expression)>, plan: seq<Step>, k: nat, sink: nat -> Deed)
    requires Covered(plan) == |given| && AllPositive(plan)
    ensures |Played(given, plan, k, sink)| <= |given|
    ensures |Played(given, plan, k, sink)| == |given| <==> AllDelivered(plan, k, sink)
    ensures AllDelivered(plan, k, sink) ==> Played(given, plan, k, sink) == given
    decreases |plan|
  {
    hide Lands, Delivers;
    if plan != [] {
      var n := plan[0].n;
      if plan[0].Play? {
        LandsWhole(sink(k), n);
        PlayedWhole(given[n..], plan[1..], k + 1, sink);
        assert given == given[..n] + given[n..];
      } else {
        PlayedWhole(given[n..], plan[1..], k, sink);
      }
    }
  }

  lemma {:induction false} EarlyPositive(total: nat, capacity: nat)
    requires capacity > 0
    ensures AllPositive(Early(total, capacity))
    ensures forall k | 0 <= k < |Early(total, capacity)| :: Early(total, capacity)[k] == Play(capacity)
    decreases total
  {
    if total > capacity {
      EarlyPositive(total - capacity, capacity);
    }
  }

  lemma {:induction false} PlanPositive(callbacks: seq<Callback>, staged: nat, capacity: nat)
    requires capacity > 0
    ensures AllPositive(Plan(callbacks, staged, capacity))
    decreases |callbacks|
  {
    hide Early, Rest;
    if callbacks != [] {
      if callbacks[0].Audio? {
        EarlyPositive(staged + |callbacks[0].samples|, capacity);
      }
      PlanPositive(callbacks[1..], Staged(callbacks[0], staged, capacity), capacity);
    }
  }

  /** When the turn has ended: nothing is lost, and everything is heard under the expression it arrived with, if and
      only if every instruction of the run is delivered whole, and the end dropped nothing. */
  lemma NothingLostIff(callbacks: seq<Callback>, completed: bool, capacity: nat, sink: nat -> Deed)
    requires capacity > 0
    ensures Settled(FRESH_PLAYER, capacity)
    ensures
      var run := callbacks + [Finished(completed)];
      var p := ReactAll(FRESH_PLAYER, run, capacity, sink);
      var given, plan := Given(run, S.Neutral), Plan(run, 0, capacity);
      && (Lost(p.past) == 0 <==> AllDelivered(plan, 0, sink))
      && (Heard(p.past) == given <==> AllDelivered(plan, 0, sink))
  {
    hide ReactAll, Played, Covered, Plan, Given, Heard, Lost, AllDelivered, IsThinned, Origins, AllPositive;
    var run := callbacks + [Finished(completed)];
    var given, plan := Given(run, S.Neutral), Plan(run, 0, capacity);
    PairedAlways(run, capacity, sink);
    NothingLeft(callbacks, completed, capacity, sink);
    HeardExactly(run, capacity, sink);
    PlanPositive(run, 0, capacity);
    PlayedWhole(given, plan, 0, sink);
  }

  /** A run in which no end but a completed one is reported drops nothing: only the sink can lose samples. */
  lemma {:induction false} CompletedDropsNothing(callbacks: seq<Callback>, staged: nat, capacity: nat)
    requires capacity > 0 && Finished(false) !in callbacks
    ensures forall k | 0 <= k < |Plan(callbacks, staged, capacity)| :: Plan(callbacks, staged, capacity)[k].Play?
    decreases |callbacks|
  {
    hide Early, Rest;
    if callbacks != [] {
      if callbacks[0].Audio? {
        EarlyPositive(staged + |callbacks[0].samples|, capacity);
      }
      assert callbacks[0] in callbacks;
      CompletedDropsNothing(callbacks[1..], Staged(callbacks[0], staged, capacity), capacity);
    }
  }

  /** A turn that ends completed plays what is staged last; one that ends otherwise drops it. */
  lemma LastSentence(callbacks: seq<Callback>, completed: bool, capacity: nat, sink: nat -> Deed)
    requires capacity > 0
    ensures Settled(FRESH_PLAYER, capacity)
    ensures
      var before := ReactAll(FRESH_PLAYER, callbacks, capacity, sink);
      var p := ReactAll(FRESH_PLAYER, callbacks + [Finished(completed)], capacity, sink);
      var last := Arrivals(before.stager.staged, before.sentence);
      Heard(p.past) == Heard(before.past)
        + if completed && last != [] then last[..Lands(sink(before.spoken), |last|)] else []
  {
    hide ReactAll, Heard, Settled, React, Covered, Plays, Arrivals, Steps;
    PairedAlways(callbacks, capacity, sink);
    RunSettles(FRESH_PLAYER, callbacks, capacity, sink);
    var before := ReactAll(FRESH_PLAYER, callbacks, capacity, sink);
    ReactsLast(FRESH_PLAYER, callbacks, Finished(completed), capacity, sink);
    ReactFollows(before, Finished(completed), capacity, sink);
    LastSteps(before, completed, capacity, sink);
  }

  lemma LastSteps(p: Player, completed: bool, capacity: nat, sink: nat -> Deed)
    requires capacity > 0
    ensures
      var last := Arrivals(p.stager.staged, p.sentence);
      var steps := Steps(Finished(completed), |p.stager.staged|, capacity);
      && AtHand(p, Finished(completed)) == last && Covered(steps) == |last|
      && Played(last[..|last|], steps, p.spoken, sink)
         == if completed && last != [] then last[..Lands(sink(p.spoken), |last|)] else []
  {
    hide Lands;
    var last := Arrivals(p.stager.staged, p.sentence);
    assert last + [] == last && last[..|last|] == last;
    if last == [] {
      NothingPlayed(last, p.spoken, sink);
    } else {
      OneStep(last, if completed then Play(|last|) else Drop(|last|), p.spoken, sink);
    }
  }

  lemma {:induction false} ReactsLast(p: Player, callbacks: seq<Callback>, c: Callback, capacity: nat,
                                      sink: nat -> Deed)
    requires Settled(p, capacity) && capacity > 0
    ensures Settled(ReactAll(p, callbacks, capacity, sink), capacity)
    ensures ReactAll(p, callbacks + [c], capacity, sink)
         == React(ReactAll(p, callbacks, capacity, sink), c, capacity, sink)
    decreases |callbacks|
  {
    hide React, AllPaired, Origins, Arrivals;
    var all := callbacks + [c];
    ReactSettles(p, all[0], capacity, sink);
    if callbacks == [] {
      assert all[1..] == [];
    } else {
      assert all[1..] == callbacks[1..] + [c];
      ReactsLast(React(p, all[0], capacity, sink), callbacks[1..], c, capacity, sink);
    }
  }
}
