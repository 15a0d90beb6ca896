/** Histograms: observations land in their smallest bucket, and rendering accumulates the buckets. */
module Metrics {
  import opened Prelude

  /** How many values are at most `b`. */
  function AtMost(values: seq<real>, b: real): nat {
    if values == [] then 0
    else
      var n := |values| - 1;
      AtMost(values[..n], b) + if values[n] <= b then 1 else 0
  }

  function Sum(values: seq<real>): real {
    if values == [] then 0.0
    else
      var n := |values| - 1;
      Sum(values[..n]) + values[n]
  }

  ghost predicate Increasing(bs: seq<real>) {
    forall i, j :: 0 <= i < j < |bs| ==> bs[i] < bs[j]
  }

  function Insert(bs: seq<real>, b: real): seq<real> {
    if bs == [] then [b]
    else if b < bs[0] then [b] + bs
    else if b == bs[0] then bs
    else [bs[0]] + Insert(bs[1..], b)
  }

  /** The distinct bounds in increasing order. */
  function SortedBounds(bounds: seq<real>): seq<real> {
    if bounds == [] then [] else Insert(SortedBounds(bounds[1..]), bounds[0])
  }

  lemma {:induction false} InsertKeepsOrder(bs: seq<real>, b: real)
    requires Increasing(bs)
    ensures Increasing(Insert(bs, b))
    ensures forall x :: x in Insert(bs, b) <==> x == b || x in bs
    decreases |bs|
  {
    if bs == [] || b <= bs[0] {
    } else {
      var rest := bs[1..];
      InsertKeepsOrder(rest, b);
      var r := Insert(rest, b);
      assert bs == [bs[0]] + rest;
      forall j | 0 <= j < |r| ensures bs[0] < r[j] {
        assert r[j] in r;
      }
    }
  }

  lemma {:induction false} SortedBoundsSorts(bounds: seq<real>)
    ensures Increasing(SortedBounds(bounds))
    ensures forall x :: x in SortedBounds(bounds) <==> x in bounds
  {
    if bounds == [] {
    } else {
      SortedBoundsSorts(bounds[1..]);
      InsertKeepsOrder(SortedBounds(bounds[1..]), bounds[0]);
    }
  }

  /** Cumulative counts never shrink from one bound to the next, nor exceed the total. */
  lemma {:induction false} AtMostMonotone(values: seq<real>, a: real, b: real)
    requires a <= b
    ensures AtMost(values, a) <= AtMost(values, b) <= |values|
  {
    if values == [] {
    } else {
      AtMostMonotone(values[..|values| - 1], a, b);
    }
  }

  /** The count is the number of positions whose value is at most the bound. */
  lemma {:induction false} AtMostCounts(values: seq<real>, b: real)
    ensures AtMost(values, b) == |set i | 0 <= i < |values| && values[i] <= b|
  {
    var at := set i | 0 <= i < |values| && values[i] <= b;
    if values == [] {
      assert at == {};
    } else {
      var n := |values| - 1;
      AtMostCounts(values[..n], b);
      var earlier := set i | 0 <= i < n && values[..n][i] <= b;
      assert at == earlier + if values[n] <= b then {n} else {};
    }
  }

  /** The values at most the bound before position `i`. */
  function Below(buckets: seq<real>, values: seq<real>, i: nat): nat
    requires i <= |buckets|
  {
    if i == 0 then 0 else AtMost(values, buckets[i - 1])
  }

  /** Each bucket counts the values above the previous bound and at most its own; the rest lie above
      every bound. */
  ghost predicate Tallies(buckets: seq<real>, counts: map<real, nat>, inf: nat, values: seq<real>) {
    && (forall i :: 0 <= i < |buckets| ==> buckets[i] in counts)
    && (forall i {:trigger Below(buckets, values, i)} :: 0 <= i < |buckets| ==>
          counts[buckets[i]] == AtMost(values, buckets[i]) - Below(buckets, values, i))
    && inf == |values| - Below(buckets, values, |buckets|)
  }

  function Zeros(bounds: seq<real>): map<real, nat> {
    map b | b in bounds :: 0
  }

  lemma NothingTallied(bounds: seq<real>)
    ensures Increasing(SortedBounds(bounds)) && Tallies(SortedBounds(bounds), Zeros(bounds), 0, [])
  {
    SortedBoundsSorts(bounds);
    var buckets := SortedBounds(bounds);
    hide SortedBounds, Increasing;
    forall i | 0 <= i < |buckets|
      ensures buckets[i] in Zeros(bounds) && Zeros(bounds)[buckets[i]] == 0
    {
      assert buckets[i] in buckets;
    }
  }

  lemma LandsAt(buckets: seq<real>, counts: map<real, nat>, inf: nat, values: seq<real>, v: real, i: nat)
    requires Increasing(buckets) && Tallies(buckets, counts, inf, values) && i < |buckets|
    requires v <= buckets[i] && forall j :: 0 <= j < i ==> buckets[j] < v
    ensures Tallies(buckets, counts[buckets[i] := GetOr(counts, buckets[i], 0) + 1], inf, values + [v])
  {
    BelowAppend(buckets, values, v);
    hide AtMost, Below;
  }

  lemma LandsAbove(buckets: seq<real>, counts: map<real, nat>, inf: nat, values: seq<real>, v: real)
    requires Increasing(buckets) && Tallies(buckets, counts, inf, values)
    requires forall j :: 0 <= j < |buckets| ==> buckets[j] < v
    ensures Tallies(buckets, counts, inf + 1, values + [v])
  {
    BelowAppend(buckets, values, v);
    hide AtMost, Below;
  }

  lemma BelowAppend(buckets: seq<real>, values: seq<real>, v: real)
    ensures forall i :: 0 <= i < |buckets| ==>
      AtMost(values + [v], buckets[i]) == AtMost(values, buckets[i]) + if v <= buckets[i] then 1 else 0
    ensures forall i :: 0 <= i <= |buckets| ==>
      Below(buckets, values + [v], i) == Below(buckets, values, i) + if i > 0 && v <= buckets[i - 1] then 1 else 0
  {
    forall b ensures AtMost(values + [v], b) == AtMost(values, b) + if v <= b then 1 else 0 {
    }
  }

  class HistogramState {
    const buckets: seq<real>
    var bucketCounts: map<real, nat>
    var infCount: nat
    var count: nat
    var total: real
    ghost var observed: seq<real>

    ghost predicate Valid()
      reads this
    {
      && Increasing(buckets) && Tallies(buckets, bucketCounts, infCount, observed)
      && count == |observed| && total == Sum(observed)
    }

    constructor (bounds: seq<real>)
      ensures Valid() && observed == [] && buckets == SortedBounds(bounds)
    {
      hide Tallies, Increasing, SortedBounds, Zeros;
      NothingTallied(bounds);
      buckets := SortedBounds(bounds);
      bucketCounts := Zeros(bounds);
      infCount, count, total, observed := 0, 0, 0.0, [];
    }

    method Observe(value: real)
      requires Valid()
      modifies this
      ensures Valid() && observed == old(observed) + [value]
    {
      hide AtMost, Sum, Tallies;
      SumAppend(observed, value);
      observed := observed + [value];
      count := count + 1;
      total := total + value;
      for i := 0 to |buckets|
        invariant forall j :: 0 <= j < i ==> buckets[j] < value
        invariant bucketCounts == old(bucketCounts) && infCount == old(infCount)
        invariant observed == old(observed) + [value] && count == |observed| && total == Sum(observed)
      {
        if value <= buckets[i] {
          LandsAt(buckets, bucketCounts, infCount, old(observed), value, i);
          bucketCounts := bucketCounts[buckets[i] := GetOr(bucketCounts, buckets[i], 0) + 1];
          return;
        }
      }
      LandsAbove(buckets, bucketCounts, infCount, old(observed), value);
      infCount := infCount + 1;
    }

    /** The exposition lines: every bucket shows the number of values at most its bound, `+Inf` shows
        them all and agrees with the count. */
    method Render() returns (lines: seq<Line>, inf: nat)
      requires Valid()
      ensures |lines| == |buckets| && Cumulative(lines, buckets, observed)
      ensures inf == |observed| == count
    {
      hide AtMost, Sum, Tallies, Below, Increasing;
      TallyTotals(buckets, bucketCounts, infCount, observed);
      var cumulative := 0;
      lines := [];
      for i := 0 to |buckets|
        invariant cumulative == Below(buckets, observed, i) && |lines| == i
        invariant Cumulative(lines, buckets, observed)
      {
        cumulative := cumulative + GetOr(bucketCounts, buckets[i], 0);
        lines := lines + [Line(buckets[i], cumulative)];
      }
      inf := cumulative + infCount;
    }
  }

  /** A rendered line: a bound and the number of values at most that bound. */
  datatype Line = Line(bound: real, shown: nat)

  ghost predicate Cumulative(lines: seq<Line>, buckets: seq<real>, values: seq<real>) {
    |lines| <= |buckets| && forall i :: 0 <= i < |lines| ==> lines[i] == Line(buckets[i], AtMost(values, buckets[i]))
  }

  lemma TallyTotals(buckets: seq<real>, counts: map<real, nat>, inf: nat, values: seq<real>)
    requires Tallies(buckets, counts, inf, values)
    ensures Below(buckets, values, 0) == 0 && Below(buckets, values, |buckets|) + inf == |values|
    ensures forall i :: 0 <= i < |buckets| ==>
      Below(buckets, values, i) + GetOr(counts, buckets[i], 0) == AtMost(values, buckets[i]) == Below(buckets, values, i + 1)
  {
  }

  lemma SumAppend(values: seq<real>, v: real)
    ensures Sum(values + [v]) == Sum(values) + v
  {
    assert (values + [v])[..|values|] == values;
  }

  /** A metric name with its normalised label set. */
  type Key = (string, seq<(string, string)>)

  datatype Observation = Observation(key: Key, value: real, bounds: seq<real>)

  function ValuesOf(log: seq<Observation>, k: Key): seq<real> {
    if log == [] then []
    else
      var n := |log| - 1;
      ValuesOf(log[..n], k) + if log[n].key == k then [log[n].value] else []
  }

  /** The bounds of the first observation under a key decide its buckets for good. */
  function FirstBounds(log: seq<Observation>, k: Key): Option<seq<real>> {
    if log == [] then None
    else if log[0].key == k then Some(log[0].bounds)
    else FirstBounds(log[1..], k)
  }

  lemma {:induction false} FirstBoundsAppend(log: seq<Observation>, o: Observation, k: Key)
    ensures FirstBounds(log + [o], k) ==
              if FirstBounds(log, k).Some? then FirstBounds(log, k)
              else if o.key == k then Some(o.bounds) else None
    decreases |log|
  {
    if log == [] {
      assert (log + [o])[1..] == [];
    } else {
      assert (log + [o])[1..] == log[1..] + [o];
      FirstBoundsAppend(log[1..], o, k);
    }
  }

  lemma ValuesOfAppend(log: seq<Observation>, o: Observation, k: Key)
    ensures ValuesOf(log + [o], k) == ValuesOf(log, k) + if o.key == k then [o.value] else []
  {
    assert (log + [o])[..|log|] == log;
  }

  class Provider {
    var histograms: map<Key, HistogramState>
    ghost var log: seq<Observation>

    /** Every key owns one histogram, which holds exactly the values observed under that key. */
    ghost predicate Valid()
      reads this, histograms.Values
    {
      && (forall k, l :: k in histograms && l in histograms && k != l ==> histograms[k] != histograms[l])
      && (forall k :: k in histograms <==> FirstBounds(log, k).Some?)
      && (forall k :: k in histograms ==>
            && histograms[k].Valid() && histograms[k].observed == ValuesOf(log, k)
            && histograms[k].buckets == SortedBounds(FirstBounds(log, k).value))
    }

    constructor ()
      ensures Valid() && log == []
    {
      histograms, log := map[], [];
    }

    method ObserveHistogram(key: Key, value: real, bounds: seq<real>)
      requires Valid()
      modifies this, histograms.Values
      ensures Valid() && log == old(log) + [Observation(key, value, bounds)]
      ensures fresh(histograms.Values - old(histograms.Values))
    {
      hide AtMost, SortedBounds, ValuesOf, FirstBounds, HistogramState.Valid;
      ghost var o := Observation(key, value, bounds);
      forall k
        ensures ValuesOf(log + [o], k) == ValuesOf(log, k) + if o.key == k then [value] else []
        ensures FirstBounds(log + [o], k) ==
                  if FirstBounds(log, k).Some? then FirstBounds(log, k) else if key == k then Some(bounds) else None
      {
        ValuesOfAppend(log, o, k);
        FirstBoundsAppend(log, o, k);
      }
      if key !in histograms {
        NoValues(log, key);
        var histogram := new HistogramState(bounds);
        histograms := histograms[key := histogram];
      }
      histograms[key].Observe(value);
      log := log + [o];
    }

    /** Rendered counts speak about the observations made, not about stored counters. */
    method RenderHistogram(key: Key) returns (lines: seq<Line>, inf: nat)
      requires Valid() && key in histograms
      ensures FirstBounds(log, key).Some?
      ensures var bounds := SortedBounds(FirstBounds(log, key).value);
              |lines| == |bounds| && Cumulative(lines, bounds, ValuesOf(log, key))
      ensures inf == |ValuesOf(log, key)|
    {
      lines, inf := histograms[key].Render();
    }
  }

  lemma {:induction false} NoValues(log: seq<Observation>, k: Key)
    requires FirstBounds(log, k).None?
    ensures ValuesOf(log, k) == []
    decreases |log|
  {
    if log == [] {
    } else {
      var n := |log| - 1;
      assert log == log[..n] + [log[n]];
      FirstBoundsAppend(log[..n], log[n], k);
      NoValues(log[..n], k);
    }
  }
}
