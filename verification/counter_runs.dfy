/**
 * Properties of the reducer over single steps and over whole event
 * sequences: the funnel cascade, the log/count invariants, the clamp at
 * zero, the audit trail, and the preferences that survive a reset.
 */
module CounterRuns {
  import opened Wrappers
  import opened Domain
  import opened CounterData
  import opened Storage
  import opened CounterState

  /** An event with the clock reading at which it is dispatched. */
  datatype Timed = Timed(event: Event, now: int)

  /** The state after dispatching `evs` in order. */
  function Run(st: State, evs: seq<Timed>): State
    decreases |evs|
  {
    if evs == [] then st else Run(Step(st, evs[0].event, evs[0].now), evs[1..])
  }

  /** Every event is a tap that increments. */
  predicate OnlyIncrements(evs: seq<Timed>) {
    forall i :: 0 <= i < |evs| ==> evs[i].event.Increment?
  }

  /** No event replaces the state from storage. */
  predicate NoLoads(evs: seq<Timed>) {
    forall i :: 0 <= i < |evs| ==> !evs[i].event.LoadFromStorage?
  }

  /** An increment keeps the counts ordered along the funnel. */
  lemma IncrementKeepsFunnelOrdered(st: State, s: Stage, tag: Option<Tag>, now: int)
    requires FunnelOrdered(st.counters.total)
    ensures FunnelOrdered(IncrementStep(st, s, tag, now).counters.total)
  {
    var r := IncrementStep(st, s, tag, now);
    forall a, b | AtOrBefore(a, b)
      ensures r.counters.total.Get(a) >= r.counters.total.Get(b)
    {
      assert AtOrBefore(b, s) ==> AtOrBefore(a, s);
    }
  }

  /** Starting from ordered counts, any run of increments keeps the counts ordered along the funnel. */
  lemma {:induction false} IncrementsKeepFunnelOrdered(st: State, evs: seq<Timed>)
    requires FunnelOrdered(st.counters.total) && OnlyIncrements(evs)
    ensures FunnelOrdered(Run(st, evs).counters.total)
    decreases |evs|
  {
    if evs != [] {
      var e := evs[0].event;
      assert e.Increment?;
      assert Step(st, e, evs[0].now) == IncrementStep(st, e.stage, e.tag, evs[0].now);
      IncrementKeepsFunnelOrdered(st, e.stage, e.tag, evs[0].now);
      IncrementsKeepFunnelOrdered(Step(st, e, evs[0].now), evs[1..]);
    }
  }

  /** From the initial state, every sequence of taps leaves counts non-increasing along the funnel. */
  lemma InitialIncrementsFunnelOrdered(evs: seq<Timed>)
    requires OnlyIncrements(evs)
    ensures FunnelOrdered(Run(Initial, evs).counters.total)
  {
    IncrementsKeepFunnelOrdered(Initial, evs);
  }

  /** Every event other than a load keeps each log exactly as long as its count. */
  lemma StepKeepsLogsMatch(st: State, e: Event, now: int)
    requires LogsMatch(st.counters) && !e.LoadFromStorage?
    ensures LogsMatch(Step(st, e, now).counters)
  {
    var r := Step(st, e, now);
    match e
    case Decrement(s) =>
      forall t ensures |r.counters.demographics.Get(t)| == r.counters.total.Get(t) {
        if t == s {
          assert |st.counters.demographics.Get(s)| == st.counters.total.Get(s);
        }
      }
    case Increment(s, tag) =>
      forall t ensures |r.counters.demographics.Get(t)| == r.counters.total.Get(t) {
        assert |st.counters.demographics.Get(t)| == st.counters.total.Get(t);
      }
    case _ =>
  }

  /** Every event other than a load keeps each log no longer than its count. */
  lemma StepKeepsLogsWithinCounts(st: State, e: Event, now: int)
    requires LogsWithinCounts(st.counters) && !e.LoadFromStorage?
    ensures LogsWithinCounts(Step(st, e, now).counters)
  {
    var r := Step(st, e, now);
    match e
    case Decrement(s) =>
      forall t ensures |r.counters.demographics.Get(t)| <= r.counters.total.Get(t) {
        if t == s {
          assert |st.counters.demographics.Get(s)| <= st.counters.total.Get(s);
        }
      }
    case Increment(s, tag) =>
      forall t ensures |r.counters.demographics.Get(t)| <= r.counters.total.Get(t) {
        assert |st.counters.demographics.Get(t)| <= st.counters.total.Get(t);
      }
    case _ =>
  }

  /** Every event other than a load keeps every count non-negative: a decrement at zero is a no-op. */
  lemma StepKeepsNonNegative(st: State, e: Event, now: int)
    requires NonNegative(st.counters.total) && !e.LoadFromStorage?
    ensures NonNegative(Step(st, e, now).counters.total)
  {
    var r := Step(st, e, now);
    forall t ensures r.counters.total.Get(t) >= 0 {
      assert st.counters.total.Get(t) >= 0;
    }
  }

  /** A run without loads keeps each log exactly as long as its count. */
  lemma {:induction false} RunKeepsLogsMatch(st: State, evs: seq<Timed>)
    requires LogsMatch(st.counters) && NoLoads(evs)
    ensures LogsMatch(Run(st, evs).counters)
    decreases |evs|
  {
    if evs != [] {
      StepKeepsLogsMatch(st, evs[0].event, evs[0].now);
      RunKeepsLogsMatch(Step(st, evs[0].event, evs[0].now), evs[1..]);
    }
  }

  /** A run without loads keeps every count non-negative. */
  lemma {:induction false} RunKeepsNonNegative(st: State, evs: seq<Timed>)
    requires NonNegative(st.counters.total) && NoLoads(evs)
    ensures NonNegative(Run(st, evs).counters.total)
    decreases |evs|
  {
    if evs != [] {
      StepKeepsNonNegative(st, evs[0].event, evs[0].now);
      RunKeepsNonNegative(Step(st, evs[0].event, evs[0].now), evs[1..]);
    }
  }

  /** An increment appends only tagged increment entries, so the tag rule of the audit log survives it. */
  lemma IncrementKeepsTagsOnIncrements(st: State, s: Stage, tag: Option<Tag>, now: int)
    requires TagsOnIncrements(st.history)
    ensures TagsOnIncrements(IncrementStep(st, s, tag, now).history)
  {
    var h := IncrementStep(st, s, tag, now).history;
    var n := |st.history|;
    IncrementHistory(st, s, tag, now);
    forall i | 0 <= i < |h|
      ensures h[i].action == Inc <==> h[i].demographic.Some?
    {
      if i < n {
        assert h[i] == h[..n][i];
      } else {
        var k := i - n;
        assert 0 <= k <= Rank(s);
        assert h[n + k].action == Inc && h[n + k].demographic.Some?;
      }
    }
  }

  /** A decrement appends one untagged decrement entry, so the tag rule of the audit log survives it. */
  lemma DecrementKeepsTagsOnIncrements(st: State, s: Stage, now: int)
    requires TagsOnIncrements(st.history)
    ensures TagsOnIncrements(DecrementStep(st, s, now).history)
  {
    var h := DecrementStep(st, s, now).history;
    forall i | 0 <= i < |h|
      ensures h[i].action == Inc <==> h[i].demographic.Some?
    {
      if i < |st.history| {
        assert h[i] == st.history[i];
      }
    }
  }

  /** Every event other than a load keeps the rule that exactly the increment entries carry a tag. */
  lemma StepKeepsTagsOnIncrements(st: State, e: Event, now: int)
    requires TagsOnIncrements(st.history) && !e.LoadFromStorage?
    ensures TagsOnIncrements(Step(st, e, now).history)
  {
    match e
    case Increment(s, tag) => IncrementKeepsTagsOnIncrements(st, s, tag, now);
    case Decrement(s) => DecrementKeepsTagsOnIncrements(st, s, now);
    case _ =>
  }

  /** A run without loads keeps the rule that an audit entry has a tag exactly when it is an increment. */
  lemma {:induction false} RunKeepsTagsOnIncrements(st: State, evs: seq<Timed>)
    requires TagsOnIncrements(st.history) && NoLoads(evs)
    ensures TagsOnIncrements(Run(st, evs).history)
    decreases |evs|
  {
    if evs != [] {
      StepKeepsTagsOnIncrements(st, evs[0].event, evs[0].now);
      RunKeepsTagsOnIncrements(Step(st, evs[0].event, evs[0].now), evs[1..]);
    }
  }

  /** The history only grows, except on reset and load: earlier entries are never rewritten. */
  lemma StepExtendsHistory(st: State, e: Event, now: int)
    requires !e.Reset? && !e.LoadFromStorage?
    ensures var r := Step(st, e, now);
            |st.history| <= |r.history| && r.history[..|st.history|] == st.history
    ensures (e.Increment? || e.Decrement?) <==> |Step(st, e, now).history| > |st.history|
  {
    var r := Step(st, e, now);
    if e.Decrement? {
      assert r.history[..|st.history|] == st.history;
    } else if e.Increment? {
      IncrementHistory(st, e.stage, e.tag, now);
    }
  }

  /** A decrement right after an increment at the same stage restores that stage's count and log. */
  lemma DecrementUndoesIncrement(st: State, s: Stage, tag: Option<Tag>, now: int, later: int)
    requires st.counters.total.Get(s) >= 0
    ensures var r := DecrementStep(IncrementStep(st, s, tag, now), s, later);
            r.counters.total.Get(s) == st.counters.total.Get(s)
            && r.counters.demographics.Get(s) == st.counters.demographics.Get(s)
  {
    var m := IncrementStep(st, s, tag, now);
    var log := st.counters.demographics.Get(s);
    assert m.counters.demographics.Get(s) == log + [Resolve(st, tag)];
    assert (log + [Resolve(st, tag)])[..|log|] == log;
    var r := DecrementStep(m, s, later);
    assert r.counters.demographics.Get(s) == log;
  }

  /**
   * Decrements do not cascade: from a state with as many passers-by as
   * buyers (the initial state, say), tapping Buying and then undoing
   * PassingBy leaves fewer passers-by than buyers.
   */
  lemma DecrementBreaksFunnelOrder(st: State, tag: Option<Tag>, t1: int, t2: int)
    requires st.counters.total.Get(PassingBy) == st.counters.total.Get(Buying) >= 0
    ensures var r := DecrementStep(IncrementStep(st, Buying, tag, t1), PassingBy, t2);
            && r.counters.total.Get(PassingBy) == st.counters.total.Get(PassingBy)
            && r.counters.total.Get(Buying) == st.counters.total.Get(Buying) + 1
            && !FunnelOrdered(r.counters.total)
  {
    var m := IncrementStep(st, Buying, tag, t1);
    var r := DecrementStep(m, PassingBy, t2);
    assert m.counters.total.Get(PassingBy) == st.counters.total.Get(PassingBy) + 1;
    assert AtOrBefore(PassingBy, Buying);
  }

  /** From a fresh state, one tap at Noticing with a female young adult tag counts one passer-by and one noticer. */
  lemma NoticingTapFromFresh(now: int)
    ensures var r := IncrementStep(Initial, Noticing, Some(FemaleYoungAdult), now);
            && r.counters.total == PerStage(1, 1, 0, 0)
            && r.counters.demographics == PerStage([FemaleYoungAdult], [FemaleYoungAdult], [], [])
  {
    var r := IncrementStep(Initial, Noticing, Some(FemaleYoungAdult), now);
    var c := r.counters.total;
    assert c.passingBy == c.Get(PassingBy) == 1 && c.noticing == c.Get(Noticing) == 1;
    assert c.consulting == c.Get(Consulting) == 0 && c.buying == c.Get(Buying) == 0;
    var d := r.counters.demographics;
    assert d.passingBy == d.Get(PassingBy) == [FemaleYoungAdult];
    assert d.noticing == d.Get(Noticing) == [FemaleYoungAdult];
    assert d.consulting == d.Get(Consulting) == [] && d.buying == d.Get(Buying) == [];
  }

  /** The same tap writes two history entries, both with value 1, and opens the session clock at `now`. */
  lemma NoticingTapFromFreshHistory(now: int)
    ensures var r := IncrementStep(Initial, Noticing, Some(FemaleYoungAdult), now);
            && r.history == [Entry(now, PassingBy, 1, Inc, Some(FemaleYoungAdult)),
                             Entry(now, Noticing, 1, Inc, Some(FemaleYoungAdult))]
            && r.sessionStartTime == Some(now) && r.lastActivityTime == Some(now)
  {
    var r := IncrementStep(Initial, Noticing, Some(FemaleYoungAdult), now);
    IncrementHistory(Initial, Noticing, Some(FemaleYoungAdult), now);
    assert r.counters.total.Get(PassingBy) == 1 && r.counters.total.Get(Noticing) == 1;
    assert r.history[0] == Entry(now, PassingBy, 1, Inc, Some(FemaleYoungAdult));
    assert r.history[1] == Entry(now, Noticing, 1, Inc, Some(FemaleYoungAdult));
  }

  /** An untagged tap records the current demographic. */
  lemma UntaggedTapUsesCurrent(st: State, s: Stage, now: int)
    ensures Step(st, Increment(s, None), now).counters.demographics.Get(s) ==
            st.counters.demographics.Get(s) + [st.currentDemographic]
  {
  }

  /** Toggling the display mode twice restores the state. */
  lemma ToggleTwiceIsIdentity(st: State, t1: int, t2: int)
    ensures Step(Step(st, ToggleDetailedMode, t1), ToggleDetailedMode, t2) == st
  {
  }

  /** A second START_SESSION keeps the start time set by the first, once that time is a real (non-zero) reading. */
  lemma StartSessionIdempotent(st: State, t1: int, t2: int)
    requires t1 != 0
    ensures var once := Step(st, StartSession, t1);
            var twice := Step(once, StartSession, t2);
            twice.sessionStartTime == once.sessionStartTime && twice.lastActivityTime == Some(t2)
    ensures Truthy(st.sessionStartTime) ==> Step(st, StartSession, t1).sessionStartTime == st.sessionStartTime
  {
  }

  /**
   * START_SESSION touches only the two session times: an unset (falsy) start
   * becomes `now`, and counters, history and the three preferences are kept.
   */
  lemma StartSessionKeepsTheRest(st: State, t: int)
    ensures Step(st, StartSession, t).(sessionStartTime := st.sessionStartTime, lastActivityTime := st.lastActivityTime) == st
    ensures !Truthy(st.sessionStartTime) ==> Step(st, StartSession, t).sessionStartTime == Some(t)
    ensures Step(st, StartSession, t).lastActivityTime == Some(t)
  {
  }

  /** Reset applied twice is reset applied once, and it leaves the initial state as it is. */
  lemma ResetIdempotent(st: State, t1: int, t2: int)
    ensures Step(Step(st, Reset, t1), Reset, t2) == Step(st, Reset, t1)
    ensures Step(Initial, Reset, t1) == Initial
  {
  }

  /** A load discards the current state: only the payload decides the result. */
  lemma LoadIgnoresCurrentState(a: State, b: State, p: Payload, t1: int, t2: int)
    ensures Step(a, LoadFromStorage(p), t1) == Step(b, LoadFromStorage(p), t2)
  {
  }

  /** Loading a legacy flat save with non-negative counts gives those totals with empty logs, within counts. */
  lemma LoadLegacySave(st: State, flat: Counts, now: int)
    requires NonNegative(flat)
    ensures var r := Step(st, LoadFromStorage(EmptyPayload.(counters := Some(Legacy(flat)))), now);
            r.counters.total == flat && (forall s :: r.counters.demographics.Get(s) == [])
            && LogsWithinCounts(r.counters)
  {
    MigrateLegacy(flat);
  }

  /**
   * Reloading a saved state through the reducer gives it back exactly when
   * its default index is not 0; a saved 0 comes back as 1.
   */
  lemma ReloadRoundTrip(st: State, s: State, now: int)
    ensures Step(st, LoadFromStorage(Save(s)), now) == s <==> s.defaultDemographicIndex != 0
    ensures s.defaultDemographicIndex == 0 ==> Step(st, LoadFromStorage(Save(s)), now).defaultDemographicIndex == 1
  {
    LoadAsWrittenRoundTrip(s);
  }

  /** The preference actions replace their own field and nothing else. */
  lemma PreferenceActionsReplaceOneField(st: State, tag: Tag, i: int, now: int)
    ensures Step(st, SetCurrentDemographic(tag), now) == st.(currentDemographic := tag)
    ensures Step(st, SetDefaultDemographicIndex(i), now) == st.(defaultDemographicIndex := i)
    ensures Step(st, ToggleDetailedMode, now) == st.(detailedMode := !st.detailedMode)
  {
  }
}
