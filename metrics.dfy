/**
 * Per-system timing aggregates (src/game/utils/PerformanceMetrics.ts).
 *
 * For every system name the collector keeps the total, count, minimum,
 * maximum and last of the durations recorded for it. The collector starts
 * disabled and ignores recordings while disabled.
 */
module Metrics {
  import opened Wrappers

  datatype SystemMetrics = SystemMetrics(totalTime: real, callCount: nat, minTime: real, maxTime: real, lastTime: real)

  function Min(a: real, b: real): real { if a <= b then a else b }
  function Max(a: real, b: real): real { if a >= b then a else b }

  /**
   * One recording of `d` into the entry `m`, or into a fresh entry when
   * there is none. A fresh entry starts with total 0, count 0, minimum
   * +infinity and maximum 0, so its first recording leaves the minimum at
   * `d` and the maximum at the larger of 0 and `d`.
   */
  function Recorded(m: Option<SystemMetrics>, d: real): (r: SystemMetrics)
    ensures m.None? ==> r.totalTime == d && r.callCount == 1
    ensures m.Some? ==> r.totalTime == m.value.totalTime + d && r.callCount == m.value.callCount + 1
    ensures r.lastTime == d && r.minTime <= d <= r.maxTime
    ensures m.None? ==> r.minTime == d && r.maxTime >= 0.0
    ensures m.Some? ==> r.minTime <= m.value.minTime && r.maxTime >= m.value.maxTime
  {
    match m
    case None => SystemMetrics(d, 1, d, Max(0.0, d), d)
    case Some(e) => SystemMetrics(e.totalTime + d, e.callCount + 1, Min(e.minTime, d), Max(e.maxTime, d), d)
  }

  /**
   * `c` copies of `x` added up: the product `c * x`, written as a sum so
   * that reasoning about entries stays linear.
   */
  function Times(c: nat, x: real): real {
    if c == 0 then 0.0 else Times(c - 1, x) + x
  }

  lemma {:induction false} TimesIsProduct(c: nat, x: real)
    ensures Times(c, x) == c as real * x
  {
    if c > 0 {
      TimesIsProduct(c - 1, x);
    }
  }

  lemma {:induction false} TimesMono(c: nat, a: real, b: real)
    requires a <= b
    ensures Times(c, a) <= Times(c, b)
  {
    if c > 0 {
      TimesMono(c - 1, a, b);
    }
  }

  /** An entry that has seen at least one recording: its minimum and maximum bracket the last one and the average. */
  ghost predicate EntryValid(m: SystemMetrics) {
    m.callCount >= 1
    && m.minTime <= m.lastTime <= m.maxTime
    && Times(m.callCount, m.minTime) <= m.totalTime <= Times(m.callCount, m.maxTime)
  }

  /** Recording keeps an entry valid, and makes a fresh one valid. */
  lemma RecordedValid(m: Option<SystemMetrics>, d: real)
    requires m.Some? ==> EntryValid(m.value)
    ensures EntryValid(Recorded(m, d))
  {
    if m.Some? {
      var e := m.value;
      var r := Recorded(m, d);
      TimesMono(e.callCount, r.minTime, e.minTime);
      TimesMono(e.callCount, e.maxTime, r.maxTime);
      assert Times(r.callCount, r.minTime) == Times(e.callCount, r.minTime) + r.minTime;
      assert Times(r.callCount, r.maxTime) == Times(e.callCount, r.maxTime) + r.maxTime;
    }
  }

  /** The sum, minimum and maximum of a non-empty series of durations. */
  function SumOf(ds: seq<real>): real {
    if |ds| == 0 then 0.0 else SumOf(ds[..|ds| - 1]) + ds[|ds| - 1]
  }

  function MinOf(ds: seq<real>): real
    requires |ds| > 0
  {
    if |ds| == 1 then ds[0] else Min(MinOf(ds[..|ds| - 1]), ds[|ds| - 1])
  }

  function MaxOf(ds: seq<real>): real
    requires |ds| > 0
  {
    if |ds| == 1 then Max(0.0, ds[0]) else Max(MaxOf(ds[..|ds| - 1]), ds[|ds| - 1])
  }

  /** Recording each duration of a series in turn, into entry `m`. */
  function RecordAll(m: Option<SystemMetrics>, ds: seq<real>): Option<SystemMetrics> {
    if |ds| == 0 then m else Some(Recorded(RecordAll(m, ds[..|ds| - 1]), ds[|ds| - 1]))
  }

  /** Recording a series and then one more duration records the longer series. */
  lemma RecordAllSnoc(m: Option<SystemMetrics>, ds: seq<real>, d: real)
    ensures RecordAll(m, ds + [d]) == Some(Recorded(RecordAll(m, ds), d))
  {
    assert (ds + [d])[..|ds|] == ds;
  }

  /**
   * Starting from no entry, recording a series gives its count, its sum, its
   * minimum, the larger of 0 and its maximum, and its last element.
   */
  lemma {:induction false} RecordAllAggregates(ds: seq<real>)
    requires |ds| > 0
    ensures RecordAll(None, ds)
      == Some(SystemMetrics(SumOf(ds), |ds|, MinOf(ds), MaxOf(ds), ds[|ds| - 1]))
  {
    if |ds| > 1 {
      RecordAllAggregates(ds[..|ds| - 1]);
    } else {
      assert ds[..0] == [];
    }
  }

  class PerformanceMetrics {
    var metrics: map<string, SystemMetrics>
    var enabled: bool

    ghost predicate Valid()
      reads this
    {
      forall n :: n in metrics ==> EntryValid(metrics[n])
    }

    /** A new collector is disabled and has no entries. */
    constructor()
      ensures Valid() && metrics == map[] && !enabled
    {
      metrics := map[];
      enabled := false;
    }

    method SetEnabled(on: bool)
      modifies this
      ensures enabled == on && metrics == old(metrics)
    {
      enabled := on;
    }

    function GetMetrics(name: string): (r: Option<SystemMetrics>)
      reads this
      ensures r.Some? <==> name in metrics
      ensures r.Some? ==> r.value == metrics[name]
    {
      if name in metrics then Some(metrics[name]) else None
    }

    /**
     * `recordTime`: nothing while disabled; otherwise the entry for `name`
     * (created on first use) records `d`, and every other entry stays.
     */
    method RecordTime(name: string, d: real)
      requires Valid()
      modifies this
      ensures Valid() && enabled == old(enabled)
      ensures !enabled ==> metrics == old(metrics)
      ensures enabled ==> metrics == old(metrics)[name := Recorded(old(GetMetrics(name)), d)]
    {
      if !enabled {
        return;
      }
      var current := GetMetrics(name);
      RecordedValid(current, d);
      metrics := metrics[name := Recorded(current, d)];
    }

    /** `getAllMetrics`: a new map with the same names and entries. */
    method GetAllMetrics() returns (all: map<string, SystemMetrics>)
      ensures all.Keys == metrics.Keys
      ensures forall n :: n in all ==> all[n] == metrics[n]
    {
      all := map n | n in metrics :: metrics[n];
    }

    /** `getAverageTime`: total over count for a known name, which lies between its minimum and maximum; 0 otherwise. */
    function GetAverageTime(name: string): (avg: real)
      reads this
      requires Valid()
      ensures name !in metrics ==> avg == 0.0
      ensures name in metrics ==> avg * metrics[name].callCount as real == metrics[name].totalTime
      ensures name in metrics ==> metrics[name].minTime <= avg <= metrics[name].maxTime
    {
      if name in metrics then
        var m := metrics[name];
        AverageBetween(m);
        m.totalTime / m.callCount as real
      else 0.0
    }

    method Reset()
      modifies this
      ensures Valid() && metrics == map[] && enabled == old(enabled)
    {
      metrics := map[];
    }
  }

  lemma AverageBetween(m: SystemMetrics)
    requires EntryValid(m)
    ensures m.minTime <= m.totalTime / m.callCount as real <= m.maxTime
    ensures (m.totalTime / m.callCount as real) * m.callCount as real == m.totalTime
  {
    var c := m.callCount as real;
    var avg := m.totalTime / c;
    assert avg * c == m.totalTime;
    TimesIsProduct(m.callCount, m.minTime);
    TimesIsProduct(m.callCount, m.maxTime);
    if avg < m.minTime {
      assert false;
    }
    if avg > m.maxTime {
      assert false;
    }
  }
}
