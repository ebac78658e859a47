/**
 * The counting reducer `counterReducer`
 * (src/components/CounterApp/counterState.tsx:80-254) as a pure transition.
 * The clock reading `Date.now()` is the parameter `now`.
 */
module CounterState {
  import opened Wrappers
  import opened Domain
  import opened CounterData
  import opened Storage

  /** `CounterAction`. */
  datatype Event =
    | StartSession
    | ToggleDetailedMode
    | SetCurrentDemographic(demographic: Tag)
    | SetDefaultDemographicIndex(index: int)
    | Increment(stage: Stage, tag: Option<Tag>)
    | Decrement(stage: Stage)
    | Reset
    | LoadFromStorage(data: Payload)

  /** No stage occurs twice. */
  predicate Distinct(ss: seq<Stage>) {
    forall i, j :: 0 <= i < j < |ss| ==> ss[i] != ss[j]
  }

  /** The stages one tap at `s` counts (`incrementMap`): the funnel up to and including `s`. */
  function CascadeOf(s: Stage): (r: seq<Stage>)
    ensures r == Funnel[..Rank(s) + 1]
  {
    match s
    case PassingBy => [PassingBy]
    case Noticing => [PassingBy, Noticing]
    case Consulting => [PassingBy, Noticing, Consulting]
    case Buying => [PassingBy, Noticing, Consulting, Buying]
  }

  /** A stage is in the cascade of `s` exactly when it comes at or before `s`. */
  lemma CascadeMembers(s: Stage, t: Stage)
    ensures t in CascadeOf(s) <==> AtOrBefore(t, s)
    ensures Distinct(CascadeOf(s))
  {
    if t in CascadeOf(s) {
      var i :| 0 <= i < |CascadeOf(s)| && CascadeOf(s)[i] == t;
      assert Funnel[i] == t;
    }
  }

  /**
   * The `forEach` of INCREMENT: one more count and one more tag for each
   * stage listed, taken in order.
   */
  function BumpAll(c: Counters, stages: seq<Stage>, tag: Tag): (r: Counters)
    requires Distinct(stages)
    ensures forall t :: r.total.Get(t) == c.total.Get(t) + (if t in stages then 1 else 0)
    ensures forall t :: r.demographics.Get(t) == c.demographics.Get(t) + (if t in stages then [tag] else [])
    decreases |stages|
  {
    if stages == [] then c
    else
      var s := stages[0];
      var c' := Counters(c.total.Set(s, c.total.Get(s) + 1),
                         c.demographics.Set(s, c.demographics.Get(s) + [tag]));
      assert forall t :: t in stages <==> t == s || t in stages[1..];
      BumpAll(c', stages[1..], tag)
  }

  /** The history entries of one INCREMENT, one per stage, each with the stage's new count. */
  function IncrementEntries(stages: seq<Stage>, total: Counts, tag: Tag, now: int): seq<Entry> {
    seq(|stages|, i requires 0 <= i < |stages| => Entry(now, stages[i], total.Get(stages[i]), Inc, Some(tag)))
  }

  /** The tag a tap records: the one it carries, or else the current demographic. */
  function Resolve(st: State, demographic: Option<Tag>): Tag {
    demographic.GetOr(st.currentDemographic)
  }

  /** INCREMENT: the tap at `s` counts once at every stage up to `s`, logged with one tag. */
  function IncrementStep(st: State, s: Stage, demographic: Option<Tag>, now: int): (r: State)
    ensures forall t :: r.counters.total.Get(t) == st.counters.total.Get(t) + (if AtOrBefore(t, s) then 1 else 0)
    ensures forall t :: r.counters.demographics.Get(t) ==
                        st.counters.demographics.Get(t) + (if AtOrBefore(t, s) then [Resolve(st, demographic)] else [])
    ensures |r.history| == |st.history| + Rank(s) + 1
    ensures r.sessionStartTime == Some(OrNow(st.sessionStartTime, now))
    ensures r.lastActivityTime == Some(now)
    ensures r.detailedMode == st.detailedMode && r.currentDemographic == st.currentDemographic
    ensures r.defaultDemographicIndex == st.defaultDemographicIndex
  {
    var stages := CascadeOf(s);
    CascadeMembers(s, s);
    assert forall t :: t in stages <==> AtOrBefore(t, s) by {
      forall t ensures t in stages <==> AtOrBefore(t, s) {
        CascadeMembers(s, t);
      }
    }
    var tag := Resolve(st, demographic);
    var counters := BumpAll(st.counters, stages, tag);
    st.(counters := counters,
        sessionStartTime := Some(OrNow(st.sessionStartTime, now)),
        lastActivityTime := Some(now),
        history := st.history + IncrementEntries(stages, counters.total, tag, now))
  }

  /**
   * INCREMENT keeps the old history as a prefix and appends one entry per
   * cascaded stage, in funnel order, each with the stage's new count and the
   * recorded tag.
   */
  lemma IncrementHistory(st: State, s: Stage, demographic: Option<Tag>, now: int)
    ensures var r := IncrementStep(st, s, demographic, now);
            r.history[..|st.history|] == st.history
    ensures var r := IncrementStep(st, s, demographic, now);
            forall i :: 0 <= i <= Rank(s) ==>
              r.history[|st.history| + i] ==
              Entry(now, Funnel[i], r.counters.total.Get(Funnel[i]), Inc, Some(Resolve(st, demographic)))
  {
    var r := IncrementStep(st, s, demographic, now);
    var entries := IncrementEntries(CascadeOf(s), r.counters.total, Resolve(st, demographic), now);
    assert r.history == st.history + entries;
    assert (st.history + entries)[..|st.history|] == st.history;
  }

  /** `Math.max`. */
  function Max(a: int, b: int): int {
    if a >= b then a else b
  }

  /**
   * DECREMENT: only stage `s` changes. A positive count drops by one and the
   * log loses its newest tag if it has one; at zero nothing changes. One
   * untagged history entry is appended either way.
   */
  function DecrementStep(st: State, s: Stage, now: int): (r: State)
    ensures var c := st.counters.total.Get(s);
            var log := st.counters.demographics.Get(s);
            && r.counters.total.Get(s) == (if c > 0 then c - 1 else c)
            && r.counters.demographics.Get(s) == (if c > 0 && |log| > 0 then log[..|log| - 1] else log)
            && r.history == st.history + [Entry(now, s, if c > 0 then c - 1 else 0, Dec, None)]
    ensures forall t :: t != s ==> r.counters.total.Get(t) == st.counters.total.Get(t)
    ensures forall t :: t != s ==> r.counters.demographics.Get(t) == st.counters.demographics.Get(t)
    ensures r.sessionStartTime == st.sessionStartTime && r.lastActivityTime == Some(now)
    ensures r.detailedMode == st.detailedMode && r.currentDemographic == st.currentDemographic
    ensures r.defaultDemographicIndex == st.defaultDemographicIndex
  {
    var c := st.counters.total.Get(s);
    var log := st.counters.demographics.Get(s);
    var counters :=
      if c > 0 then
        Counters(st.counters.total.Set(s, c - 1),
                 if |log| > 0 then st.counters.demographics.Set(s, log[..|log| - 1]) else st.counters.demographics)
      else st.counters;
    st.(counters := counters,
        lastActivityTime := Some(now),
        history := st.history + [Entry(now, s, Max(0, c - 1), Dec, None)])
  }

  /** RESET: counts, logs, history and session clock are cleared; the three preferences survive. */
  function ResetStep(st: State): (r: State)
    ensures forall t :: r.counters.total.Get(t) == 0 && r.counters.demographics.Get(t) == []
    ensures r.history == [] && r.sessionStartTime == None && r.lastActivityTime == None
    ensures r.detailedMode == st.detailedMode && r.currentDemographic == st.currentDemographic
    ensures r.defaultDemographicIndex == st.defaultDemographicIndex
  {
    Initial.(detailedMode := st.detailedMode,
             currentDemographic := st.currentDemographic,
             defaultDemographicIndex := st.defaultDemographicIndex)
  }

  /**
   * The reducer: one event applied at clock reading `now`. A load goes
   * through the merge as written, so a stored default index 0 comes back as 1.
   */
  function Step(st: State, e: Event, now: int): (r: State)
    ensures (e.StartSession? || e.Increment? || e.Decrement?) ==> r.lastActivityTime == Some(now)
    ensures (e.StartSession? || e.ToggleDetailedMode? || e.SetCurrentDemographic? || e.SetDefaultDemographicIndex?) ==>
              r.counters == st.counters && r.history == st.history
    ensures e.LoadFromStorage? ==> r.defaultDemographicIndex != 0
  {
    match e
    case StartSession =>
      st.(sessionStartTime := Some(OrNow(st.sessionStartTime, now)), lastActivityTime := Some(now))
    case ToggleDetailedMode => st.(detailedMode := !st.detailedMode)
    case SetCurrentDemographic(tag) => st.(currentDemographic := tag)
    case SetDefaultDemographicIndex(i) => st.(defaultDemographicIndex := i)
    case Increment(s, tag) => IncrementStep(st, s, tag, now)
    case Decrement(s) => DecrementStep(st, s, now)
    case Reset => ResetStep(st)
    case LoadFromStorage(p) => LoadAsWritten(p)
  }
}
