/**
 * The statistics panel's projections of the engine state
 * (src/components/CounterApp/CounterStatistics.tsx:13-91): funnel rates,
 * the interaction total, per-stage demographic tallies and the session
 * duration. Rates are exact rationals; their one-decimal text is not modelled.
 */
module Statistics {
  import opened Wrappers
  import opened Domain
  import opened CounterData
  import opened CounterState

  /** `counters?.total`, or all zeros when the loaded state lacks it. */
  function SafeCounters(total: Option<Counts>): (c: Counts)
    ensures total.None? ==> forall s :: c.Get(s) == 0
    ensures total.Some? ==> c == total.value
  {
    total.GetOr(Uniform(0))
  }

  /** `calculateRate`: the percentage `numerator / denominator * 100`, or 0 for a zero denominator. */
  function Rate(numerator: int, denominator: int): (r: real)
    ensures denominator == 0 ==> r == 0.0
    ensures denominator != 0 ==> r * (denominator as real) == 100.0 * (numerator as real)
  {
    if denominator == 0 then 0.0 else (numerator as real / denominator as real) * 100.0
  }

  /** A share of a non-empty stage lies between 0 and 100 percent. */
  lemma RateBounded(numerator: int, denominator: int)
    requires 0 <= numerator <= denominator
    ensures 0.0 <= Rate(numerator, denominator) <= 100.0
  {
    if denominator != 0 {
      var q := numerator as real / denominator as real;
      assert q * (denominator as real) == numerator as real;
      assert 0.0 <= q <= 1.0;
    }
  }

  /** The (numerator, denominator) stages of the four displayed rates: notice, consult, conversion, overall. */
  const RatePairs: seq<(Stage, Stage)> :=
    [(Noticing, PassingBy), (Consulting, Noticing), (Buying, Consulting), (Buying, PassingBy)]

  /** The four displayed rates, in display order. */
  function Rates(c: Counts): (r: seq<real>)
    ensures r == [Rate(c.noticing, c.passingBy), Rate(c.consulting, c.noticing),
                  Rate(c.buying, c.consulting), Rate(c.buying, c.passingBy)]
  {
    seq(|RatePairs|, i requires 0 <= i < |RatePairs| => Rate(c.Get(RatePairs[i].0), c.Get(RatePairs[i].1)))
  }

  /**
   * Each displayed rate divides a stage by a strictly earlier one, so on
   * counts that are ordered along the funnel every rate is a percentage in
   * [0, 100]; with no passer-by at all, every rate is 0.
   */
  lemma RatesArePercentages(c: Counts)
    requires NonNegative(c) && FunnelOrdered(c)
    ensures forall i :: 0 <= i < 4 ==> Rank(RatePairs[i].1) < Rank(RatePairs[i].0)
    ensures forall i :: 0 <= i < 4 ==> 0.0 <= Rates(c)[i] <= 100.0
    ensures c.Get(PassingBy) == 0 ==> Rates(c) == [0.0, 0.0, 0.0, 0.0]
  {
    var r := Rates(c);
    forall i | 0 <= i < 4 ensures 0.0 <= r[i] <= 100.0 {
      var (n, d) := RatePairs[i];
      assert AtOrBefore(d, n);
      RateBounded(c.Get(n), c.Get(d));
    }
    if c.Get(PassingBy) == 0 {
      assert AtOrBefore(PassingBy, Noticing) && AtOrBefore(PassingBy, Consulting);
    }
  }

  /** The sum of the counts of the listed stages. */
  function SumOver(c: Counts, stages: seq<Stage>): int {
    if stages == [] then 0 else c.Get(stages[0]) + SumOver(c, stages[1..])
  }

  /** `totalInteractions`: the counts of all four stages added up. */
  function TotalInteractions(c: Counts): (n: int)
    ensures n == c.passingBy + c.noticing + c.consulting + c.buying
  {
    assert SumOver(c, [Buying]) == c.buying by {
      assert [Buying][1..] == [];
    }
    assert SumOver(c, [Consulting, Buying]) == c.consulting + c.buying by {
      assert [Consulting, Buying][1..] == [Buying];
    }
    assert SumOver(c, [Noticing, Consulting, Buying]) == c.noticing + c.consulting + c.buying by {
      assert [Noticing, Consulting, Buying][1..] == [Consulting, Buying];
    }
    assert Funnel[1..] == [Noticing, Consulting, Buying];
    SumOver(c, Funnel)
  }

  /** A tap at `s` adds one interaction per cascaded stage. */
  lemma InteractionsAfterIncrement(st: State, s: Stage, tag: Option<Tag>, now: int)
    ensures TotalInteractions(IncrementStep(st, s, tag, now).counters.total) ==
            TotalInteractions(st.counters.total) + Rank(s) + 1
  {
    var a := IncrementStep(st, s, tag, now).counters.total;
    var b := st.counters.total;
    assert a.passingBy == a.Get(PassingBy) == b.passingBy + 1;
    assert a.noticing == a.Get(Noticing) == b.noticing + (if Rank(s) >= 1 then 1 else 0);
    assert a.consulting == a.Get(Consulting) == b.consulting + (if Rank(s) >= 2 then 1 else 0);
    assert a.buying == a.Get(Buying) == b.buying + (if Rank(s) >= 3 then 1 else 0);
  }

  /** A decrement removes one interaction, or none when the stage is already at zero. */
  lemma InteractionsAfterDecrement(st: State, s: Stage, now: int)
    ensures var c := st.counters.total.Get(s);
            TotalInteractions(DecrementStep(st, s, now).counters.total) ==
            TotalInteractions(st.counters.total) - (if c > 0 then 1 else 0)
  {
    var d := DecrementStep(st, s, now).counters.total;
    var b := st.counters.total;
    assert d.Get(PassingBy) == d.passingBy && d.Get(Noticing) == d.noticing;
    assert d.Get(Consulting) == d.consulting && d.Get(Buying) == d.buying;
    assert b.Get(PassingBy) == b.passingBy && b.Get(Noticing) == b.noticing;
    assert b.Get(Consulting) == b.consulting && b.Get(Buying) == b.buying;
  }

  /** How many tags in the log have gender `g` (`filter(...).length`). */
  function CountGender(log: seq<Tag>, g: Gender): (n: nat)
    ensures n <= |log|
  {
    if log == [] then 0
    else CountGender(log[..|log| - 1], g) + (if log[|log| - 1].gender == g then 1 else 0)
  }

  /** How many tags in the log have age group `a`. */
  function CountAge(log: seq<Tag>, a: AgeGroup): (n: nat)
    ensures n <= |log|
  {
    if log == [] then 0
    else CountAge(log[..|log| - 1], a) + (if log[|log| - 1].ageGroup == a then 1 else 0)
  }

  /** Every tag is male or female. */
  lemma {:induction false} GenderSplit(log: seq<Tag>)
    ensures CountGender(log, Male) + CountGender(log, Female) == |log|
  {
    if log != [] {
      GenderSplit(log[..|log| - 1]);
    }
  }

  /** Every tag is in exactly one of the three age groups. */
  lemma {:induction false} AgeSplit(log: seq<Tag>)
    ensures CountAge(log, Young) + CountAge(log, YoungAdult) + CountAge(log, Mature) == |log|
  {
    if log != [] {
      AgeSplit(log[..|log| - 1]);
    }
  }

  /** The tallies shown for one stage. */
  datatype DemographicStats = DemographicStats(
    male: nat, female: nat, young: nat, youngAdult: nat, mature: nat, total: nat)

  /** `getDemographicStats`: nothing for an empty log, otherwise the gender and age tallies. */
  function StatsOf(log: seq<Tag>): (r: Option<DemographicStats>)
    ensures r.None? <==> |log| == 0
    ensures r.Some? ==> r.value.male == CountGender(log, Male) && r.value.female == CountGender(log, Female)
    ensures r.Some? ==> r.value.young == CountAge(log, Young) && r.value.youngAdult == CountAge(log, YoungAdult)
                        && r.value.mature == CountAge(log, Mature)
    ensures r.Some? ==> r.value.total == |log|
                        && r.value.male + r.value.female == |log|
                        && r.value.young + r.value.youngAdult + r.value.mature == |log|
  {
    if |log| == 0 then None
    else
      GenderSplit(log);
      AgeSplit(log);
      Some(DemographicStats(CountGender(log, Male), CountGender(log, Female),
                            CountAge(log, Young), CountAge(log, YoungAdult), CountAge(log, Mature), |log|))
  }

  /** Appending one tag raises exactly its own gender and age tallies by one. */
  lemma CountsAfterAppend(log: seq<Tag>, t: Tag, g: Gender, a: AgeGroup)
    ensures CountGender(log + [t], g) == CountGender(log, g) + (if t.gender == g then 1 else 0)
    ensures CountAge(log + [t], a) == CountAge(log, a) + (if t.ageGroup == a then 1 else 0)
  {
    assert (log + [t])[..|log|] == log;
  }

  /** A tap at `s` raises, at every cascaded stage, the tallies of the recorded tag's gender and age by one. */
  lemma TapRaisesTallies(st: State, s: Stage, tag: Option<Tag>, now: int, t: Stage, g: Gender, a: AgeGroup)
    requires AtOrBefore(t, s)
    ensures var rec := tag.GetOr(st.currentDemographic);
            var before := st.counters.demographics.Get(t);
            var after := Step(st, Increment(s, tag), now).counters.demographics.Get(t);
            && CountGender(after, g) == CountGender(before, g) + (if rec.gender == g then 1 else 0)
            && CountAge(after, a) == CountAge(before, a) + (if rec.ageGroup == a then 1 else 0)
  {
    CountsAfterAppend(st.counters.demographics.Get(t), tag.GetOr(st.currentDemographic), g, a);
  }

  /** `hasDemographicData`: the panel is shown when the passing-by log has any tag. */
  function HasDemographicData(c: Counters): (shown: bool)
    ensures shown <==> |c.demographics.Get(PassingBy)| > 0
    ensures LogsMatch(c) ==> (shown <==> c.total.Get(PassingBy) > 0)
  {
    var stats := StatsOf(c.demographics.Get(PassingBy));
    stats.Some? && stats.value.total > 0
  }

  /** JavaScript's `%` for a positive divisor: the remainder takes the sign of the dividend. */
  function TruncRem(a: int, b: int): (r: int)
    requires b > 0
    ensures a >= 0 ==> r == a % b
    ensures a < 0 ==> -b < r <= 0 && -r == (-a) % b
  {
    if a >= 0 then a % b
    else -((-a) % b)
  }

  /** The three shapes `formatDuration` prints: hours and minutes, minutes and seconds, or seconds. */
  datatype Duration = HoursMinutes(hours: int, minutes: int) | MinutesSeconds(minutes: int, seconds: int) | SecondsOnly(seconds: int)

  /** `formatDuration` on a millisecond count, with floored division and JavaScript's `%`. */
  function FormatDuration(d: int): (r: Duration)
    ensures r.HoursMinutes? <==> d >= 3600000
    ensures r.MinutesSeconds? <==> 60000 <= d < 3600000
    ensures r.SecondsOnly? <==> d < 60000
  {
    var hours := d / 3600000;
    var minutes := TruncRem(d, 3600000) / 60000;
    var seconds := TruncRem(d, 60000) / 1000;
    if hours > 0 then HoursMinutes(hours, minutes)
    else if minutes > 0 then MinutesSeconds(minutes, seconds)
    else SecondsOnly(seconds)
  }

  /**
   * For a non-negative duration the shown parts are whole hours, minutes
   * below 60 and seconds below 60, each cut at the largest unit shown and
   * truncated at the smallest: the duration lies in the interval the shown
   * text names.
   */
  lemma FormatDurationMeaning(d: int)
    requires d >= 0
    ensures d >= 3600000 ==>
              var f := FormatDuration(d);
              f.HoursMinutes? && f.hours >= 1 && 0 <= f.minutes < 60
              && f.hours * 3600000 + f.minutes * 60000 <= d < f.hours * 3600000 + (f.minutes + 1) * 60000
    ensures 60000 <= d < 3600000 ==>
              var f := FormatDuration(d);
              f.MinutesSeconds? && 1 <= f.minutes < 60 && 0 <= f.seconds < 60
              && f.minutes * 60000 + f.seconds * 1000 <= d < f.minutes * 60000 + (f.seconds + 1) * 1000
    ensures d < 60000 ==>
              var f := FormatDuration(d);
              f.SecondsOnly? && 0 <= f.seconds < 60 && f.seconds * 1000 <= d < (f.seconds + 1) * 1000
  {
    var h := d / 3600000;
    var rh := d % 3600000;
    var m := rh / 60000;
    var rm := d % 60000;
    var s := rm / 1000;
    assert d == h * 3600000 + rh && 0 <= rh < 3600000;
    assert rh == m * 60000 + rh % 60000 && 0 <= m < 60;
    assert rh % 60000 == rm by {
      assert d == (h * 60) * 60000 + rh;
    }
    assert rm == s * 1000 + rm % 1000 && 0 <= s < 60;
    if d < 3600000 {
      assert h == 0;
      if d < 60000 {
        assert m == 0;
      }
    }
  }

  /** A negative duration (a clock that went backwards) is shown as seconds only, never positive. */
  lemma FormatNegativeDuration(d: int)
    requires d < 0
    ensures FormatDuration(d).SecondsOnly? && -60 <= FormatDuration(d).seconds <= 0
  {
    assert d / 3600000 < 0;
    assert TruncRem(d, 3600000) / 60000 <= 0;
  }

  /** `sessionDuration`: milliseconds since the session start, or 0 when there is no start time. */
  function SessionDuration(start: Option<int>, now: int): (d: int)
    ensures !Truthy(start) ==> d == 0
    ensures Truthy(start) ==> start.value + d == now
  {
    if Truthy(start) then now - start.value else 0
  }

  /** The session clock tile: a formatted duration once a session started, nothing (the "not started" text) otherwise. */
  function SessionDisplay(start: Option<int>, now: int): (r: Option<Duration>)
    ensures r.Some? <==> Truthy(start)
    ensures Truthy(start) ==> r == Some(FormatDuration(now - start.value))
  {
    if Truthy(start) then Some(FormatDuration(SessionDuration(start, now))) else None
  }

  /** After START_SESSION at a real time `t`, the tile shows the time elapsed since `t` at any later reading. */
  lemma SessionDisplayAfterStart(st: State, t: int, now: int)
    requires t != 0 && !Truthy(st.sessionStartTime)
    ensures SessionDisplay(Step(st, StartSession, t).sessionStartTime, now) == Some(FormatDuration(now - t))
  {
  }
}
