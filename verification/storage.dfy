/**
 * The persisted shape of the engine state and the LOAD_FROM_STORAGE merge
 * (src/components/CounterApp/counterState.tsx:204-249, 288-290). The payload
 * is taken as already parsed: JSON text and local storage are not modelled.
 */
module Storage {
  import opened Wrappers
  import opened Domain
  import opened CounterData

  /**
   * The `counters` field as found in storage: the old flat stage-to-count
   * object written before demographic logs existed, or the current
   * `{total, demographics}` object.
   */
  datatype StoredCounters = Legacy(flat: Counts) | Detailed(counters: Counters)

  /** A parsed save; every field may be absent. */
  datatype Payload = Payload(
    counters: Option<StoredCounters>,
    sessionStartTime: Option<int>,
    lastActivityTime: Option<int>,
    detailedMode: Option<bool>,
    currentDemographic: Option<Tag>,
    defaultDemographicIndex: Option<int>,
    history: Option<seq<Entry>>)

  /** A payload with no field at all. */
  const EmptyPayload: Payload := Payload(None, None, None, None, None, None, None)

  /** What a save writes: every field of the state, counters in the current shape. */
  function Save(s: State): (p: Payload)
    ensures p.counters == Some(Detailed(s.counters)) && p.history == Some(s.history)
    ensures p.sessionStartTime == s.sessionStartTime && p.lastActivityTime == s.lastActivityTime
    ensures p.detailedMode == Some(s.detailedMode) && p.currentDemographic == Some(s.currentDemographic)
    ensures p.defaultDemographicIndex == Some(s.defaultDemographicIndex)
  {
    Payload(Some(Detailed(s.counters)), s.sessionStartTime, s.lastActivityTime,
            Some(s.detailedMode), Some(s.currentDemographic),
            Some(s.defaultDemographicIndex), Some(s.history))
  }

  /**
   * The counters a load keeps: a legacy flat object becomes the totals with
   * every log empty, a missing one becomes zeros, a current one is kept.
   */
  function Migrate(c: Option<StoredCounters>): (m: Counters)
    ensures c.None? ==> forall s :: m.total.Get(s) == 0 && m.demographics.Get(s) == []
    ensures c.Some? && c.value.Detailed? ==> m == c.value.counters
    ensures c.Some? && c.value.Legacy? ==> m.total == c.value.flat && forall s :: m.demographics.Get(s) == []
  {
    match c
    case Some(Legacy(flat)) => Counters(flat, Uniform([]))
    case Some(Detailed(cs)) => cs
    case None => ZeroCounters
  }

  /** A migrated legacy save never has more tags than counts, and its logs are all empty. */
  lemma MigrateLegacy(flat: Counts)
    ensures forall s :: Migrate(Some(Legacy(flat))).demographics.Get(s) == []
    ensures Migrate(Some(Legacy(flat))).total == flat
    ensures NonNegative(flat) ==> LogsWithinCounts(Migrate(Some(Legacy(flat))))
    ensures LogsMatch(Migrate(Some(Legacy(flat)))) <==> forall s :: flat.Get(s) == 0
  {
    var m := Migrate(Some(Legacy(flat)));
    if LogsMatch(m) {
      forall s ensures flat.Get(s) == 0 {
        assert |m.demographics.Get(s)| == m.total.Get(s);
      }
    }
  }

  /** The default-index fallback as written: `index || 1`, so a stored 0 also becomes 1. */
  function IndexOrOneAsWritten(i: Option<int>): int {
    if i.Some? && i.value != 0 then i.value else 1
  }

  /** The default-index fallback as intended: 1 only when the field is absent. */
  function IndexOrOne(i: Option<int>): (r: int)
    ensures i.Some? ==> r == i.value
    ensures i.None? ==> r == 1
  {
    i.GetOr(1)
  }

  /** The merge shared by both loads; only the default-index fallback differs between them. */
  function Merge(p: Payload, index: int): State {
    State(Migrate(p.counters), p.sessionStartTime, p.lastActivityTime,
          p.detailedMode.GetOr(false), p.currentDemographic.GetOr(FemaleYoungAdult),
          index, p.history.GetOr([]))
  }

  /** LOAD_FROM_STORAGE exactly as the source writes it. */
  function LoadAsWritten(p: Payload): (s: State)
    ensures s.defaultDemographicIndex != 0
    ensures p.defaultDemographicIndex == Some(0) ==> s.defaultDemographicIndex == 1
    ensures s.(defaultDemographicIndex := Load(p).defaultDemographicIndex) == Load(p)
  {
    Merge(p, IndexOrOneAsWritten(p.defaultDemographicIndex))
  }

  /** A saved state whose default index is 0 does not come back from a reload. */
  lemma LoadAsWrittenLosesIndexZero()
    ensures var s := Initial.(defaultDemographicIndex := 0);
            LoadAsWritten(Save(s)) != s
  {
    var s := Initial.(defaultDemographicIndex := 0);
    assert LoadAsWritten(Save(s)).defaultDemographicIndex == 1;
  }

  /** The as-written load round-trips exactly the states whose default index is not 0. */
  lemma LoadAsWrittenRoundTrip(s: State)
    ensures LoadAsWritten(Save(s)) == s <==> s.defaultDemographicIndex != 0
  {
  }

  /** LOAD_FROM_STORAGE with the index fallback applied only to a missing field. */
  function Load(p: Payload): (s: State)
    ensures s.counters == Migrate(p.counters)
    ensures s.sessionStartTime == p.sessionStartTime && s.lastActivityTime == p.lastActivityTime
    ensures p.detailedMode.Some? ==> s.detailedMode == p.detailedMode.value
    ensures p.detailedMode.None? ==> !s.detailedMode
    ensures p.currentDemographic.Some? ==> s.currentDemographic == p.currentDemographic.value
    ensures p.currentDemographic.None? ==> s.currentDemographic == FemaleYoungAdult
    ensures p.defaultDemographicIndex.Some? ==> s.defaultDemographicIndex == p.defaultDemographicIndex.value
    ensures p.defaultDemographicIndex.None? ==> s.defaultDemographicIndex == 1
    ensures p.history.Some? ==> s.history == p.history.value
    ensures p.history.None? ==> s.history == []
  {
    Merge(p, IndexOrOne(p.defaultDemographicIndex))
  }

  /** Saving and then loading gives back the same state. */
  lemma LoadSaveRoundTrip(s: State)
    ensures Load(Save(s)) == s
  {
  }

  /** A payload with every field missing loads as the initial state. */
  lemma LoadEmptyIsInitial()
    ensures Load(EmptyPayload) == Initial
    ensures LoadAsWritten(EmptyPayload) == Initial
  {
  }

  /** The two loads agree on every payload except one that stores default index 0. */
  lemma LoadsAgreeExceptIndexZero(p: Payload)
    ensures Load(p) == LoadAsWritten(p) <==> p.defaultDemographicIndex != Some(0)
  {
  }
}
