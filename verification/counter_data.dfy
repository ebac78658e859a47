/**
 * The data the counting engine keeps (src/components/CounterApp/counterState.tsx,
 * interfaces and `initialState`), and the invariants stated over it.
 */
module CounterData {
  import opened Wrappers
  import opened Domain

  /** Count per stage (`CounterData`). */
  type Counts = PerStage<int>

  /** Demographic log per stage, oldest tag first. */
  type Logs = PerStage<seq<Tag>>

  /** `DetailedCounterData`: totals and the demographic logs beside them. */
  datatype Counters = Counters(total: Counts, demographics: Logs)

  /** Zero counts and empty logs. */
  const ZeroCounters: Counters := Counters(Uniform(0), Uniform([]))

  /** The `action` field of a history entry. */
  datatype HistoryAction = Inc | Dec

  /** One audit record: when, which stage, the count after the change, and the tag if any. */
  datatype Entry = Entry(timestamp: int, stage: Stage, value: int, action: HistoryAction, demographic: Option<Tag>)

  /** `CounterState`; the two session times are `null` until set. */
  datatype State = State(
    counters: Counters,
    sessionStartTime: Option<int>,
    lastActivityTime: Option<int>,
    detailedMode: bool,
    currentDemographic: Tag,
    defaultDemographicIndex: int,
    history: seq<Entry>)

  /** `initialState`. */
  const Initial: State := State(ZeroCounters, None, None, false, FemaleYoungAdult, 1, [])

  /** JavaScript truthiness of a nullable timestamp: `null` and `0` are both false. */
  predicate Truthy(t: Option<int>) {
    t.Some? && t.value != 0
  }

  /** `t || now` on a nullable timestamp. */
  function OrNow(t: Option<int>, now: int): (r: int)
    ensures Truthy(t) ==> r == t.value
    ensures !Truthy(t) ==> r == now
  {
    if Truthy(t) then t.value else now
  }

  /** Each stage's log holds exactly one tag per counted visitor. */
  predicate LogsMatch(c: Counters) {
    forall s :: |c.demographics.Get(s)| == c.total.Get(s)
  }

  /** Each stage's log holds at most one tag per counted visitor (it may lag after a migration). */
  predicate LogsWithinCounts(c: Counters) {
    forall s :: |c.demographics.Get(s)| <= c.total.Get(s)
  }

  /** No count is negative. */
  predicate NonNegative(c: Counts) {
    forall s :: c.Get(s) >= 0
  }

  /** Counts never grow along the funnel: an earlier stage has at least as many as a later one. */
  predicate FunnelOrdered(c: Counts) {
    forall a, b :: AtOrBefore(a, b) ==> c.Get(a) >= c.Get(b)
  }

  /** In the audit log, exactly the increment entries carry a tag. */
  predicate TagsOnIncrements(h: seq<Entry>) {
    forall i :: 0 <= i < |h| ==> (h[i].action == Inc <==> h[i].demographic.Some?)
  }
}
