/** What the stranded dictionary says about the leftover array it is built from. */
module Stranded {
  import opened Prelude
  import opened Snapshots
  import opened Simulation

  function Lookup(m: map<string, int>, key: string): int {
    if key in m then m[key] else 0
  }

  /** With distinct stop ids the dictionary is the leftover array, restricted to positive counts. */
  lemma {:induction false} StrandedMapEntries(stops: seq<StopState>, waiting: seq<int>, n: nat)
    requires n <= |stops| == |waiting| && DistinctStopIds(stops)
    ensures forall i :: 0 <= i < n ==> Lookup(StrandedMap(stops, waiting, n), stops[i].stopId) == Max(waiting[i], 0)
    ensures forall id :: id in StrandedMap(stops, waiting, n) ==>
              exists i :: 0 <= i < n && stops[i].stopId == id && waiting[i] > 0
  {
    if n > 0 {
      StrandedMapEntries(stops, waiting, n - 1);
      var before, after := StrandedMap(stops, waiting, n - 1), StrandedMap(stops, waiting, n);
      assert stops[n - 1].stopId !in before;
      forall i | 0 <= i < n ensures Lookup(after, stops[i].stopId) == Max(waiting[i], 0) {
        assert i < n - 1 ==> Lookup(after, stops[i].stopId) == Lookup(before, stops[i].stopId);
      }
    }
  }

  ghost predicate KnownStop(id: string, stops: seq<StopState>) {
    exists i :: 0 <= i < |stops| && stops[i].stopId == id
  }

  lemma {:induction false} StrandedArePositive(stops: seq<StopState>, waiting: seq<int>, n: nat)
    requires n <= |stops| == |waiting|
    ensures forall id :: id in StrandedMap(stops, waiting, n) ==>
              StrandedMap(stops, waiting, n)[id] > 0 && KnownStop(id, stops)
  {
    if n > 0 {
      StrandedArePositive(stops, waiting, n - 1);
    }
  }

  /** The dictionary reports every stop's leftover. */
  ghost predicate Reports(stops: seq<StopState>, waiting: seq<int>)
    requires |stops| == |waiting|
  {
    forall i :: 0 <= i < |stops| ==> Lookup(StrandedMap(stops, waiting, |stops|), stops[i].stopId) == waiting[i]
  }

  ghost predicate AllNonNegative(s: seq<int>) {
    forall i :: 0 <= i < |s| ==> s[i] >= 0
  }

  /** The dictionary is faithful for every possible leftover exactly when no stop id repeats. */
  lemma ReportsIffDistinct(stops: seq<StopState>)
    ensures (forall waiting :: |waiting| == |stops| && AllNonNegative(waiting) ==> Reports(stops, waiting))
            <==> DistinctStopIds(stops)
  {
    if DistinctStopIds(stops) {
      forall waiting: seq<int> | |waiting| == |stops| && AllNonNegative(waiting) ensures Reports(stops, waiting) {
        StrandedMapEntries(stops, waiting, |stops|);
      }
    } else {
      var i, j :| 0 <= i < j < |stops| && stops[i].stopId == stops[j].stopId;
      var waiting := seq(|stops|, k => if k == i then 1 else 0);
      assert waiting[i] == 1 && waiting[j] == 0;
      assert !Reports(stops, waiting);
    }
  }

  /** The sum of a dictionary's values. */
  ghost function SumValues(m: map<string, int>): int {
    if m == map[] then 0
    else
      var key :| key in m;
      m[key] + SumValues(m - {key})
  }

  lemma {:induction false} SumValuesRemove(m: map<string, int>, key: string)
    requires key in m
    ensures SumValues(m) == m[key] + SumValues(m - {key})
  {
    var picked :| picked in m && SumValues(m) == m[picked] + SumValues(m - {picked});
    if picked != key {
      SumValuesRemove(m - {picked}, key);
      SumValuesRemove(m - {key}, picked);
      assert m - {picked} - {key} == m - {key} - {picked};
    }
  }

  function SumPositive(waiting: seq<int>, n: nat): int
    requires n <= |waiting|
  {
    if n == 0 then 0 else SumPositive(waiting, n - 1) + Max(waiting[n - 1], 0)
  }

  lemma SumValuesAdd(m: map<string, int>, key: string, n: int)
    requires key !in m
    ensures SumValues(m[key := n]) == SumValues(m) + n
  {
    SumValuesRemove(m[key := n], key);
    assert m[key := n] - {key} == m;
  }

  /** The total stranded is the total left over. */
  lemma {:induction false} SumOfStranded(stops: seq<StopState>, waiting: seq<int>, n: nat)
    requires n <= |stops| == |waiting| && DistinctStopIds(stops)
    ensures SumValues(StrandedMap(stops, waiting, n)) == SumPositive(waiting, n)
  {
    if n > 0 {
      SumOfStranded(stops, waiting, n - 1);
      StrandedMapEntries(stops, waiting, n - 1);
      if waiting[n - 1] > 0 {
        assert stops[n - 1].stopId !in StrandedMap(stops, waiting, n - 1);
        SumValuesAdd(StrandedMap(stops, waiting, n - 1), stops[n - 1].stopId, waiting[n - 1]);
      }
    }
  }
}
