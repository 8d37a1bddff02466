/** A busier route: n more people waiting, wherever they wait, strand at most n more, and never fewer. */
module Pressure {
  import opened Prelude
  import opened Snapshots
  import opened Simulation
  import opened Stranded
  import opened Laws
  import opened Relief

  function TotalBoarded(legs: seq<Leg>): int {
    if legs == [] then 0 else legs[0].boarded + TotalBoarded(legs[1..])
  }

  function Sum(s: seq<int>, n: nat): int
    requires n <= |s|
  {
    if n == 0 then 0 else Sum(s, n - 1) + s[n - 1]
  }

  /**
   With more waiting at every stop and no lighter a load, a vehicle boards no fewer in all, except for
   those it is already ahead by.
   */
  lemma {:induction false} BoardsNoFewer(fewer: seq<int>, more: seq<int>, capacity: int, lighter: int, heavier: int,
                                         rule: AlightingRule, i: nat)
    requires Gentle(rule) && Below(fewer, more) && lighter <= heavier
    ensures TotalBoarded(Legs(fewer, capacity, lighter, rule, i))
            <= TotalBoarded(Legs(more, capacity, heavier, rule, i)) + (heavier - lighter)
    decreases |more| - i
  {
    if i + 1 < |more| {
      var a, b := LegAt(fewer[i], capacity, lighter, rule), LegAt(more[i], capacity, heavier, rule);
      LegHeavier(fewer[i], more[i], capacity, lighter, heavier, rule);
      BoardsNoFewer(fewer, more, capacity, a.load, b.load, rule, i + 1);
      BoardedOfFirst(a, Legs(fewer, capacity, a.load, rule, i + 1));
      BoardedOfFirst(b, Legs(more, capacity, b.load, rule, i + 1));
    }
  }

  /** One stop: the heavier load stays the heavier, by no more than it was plus the extra who board. */
  lemma LegHeavier(fewer: int, more: int, capacity: int, lighter: int, heavier: int, rule: AlightingRule)
    requires Gentle(rule) && fewer <= more && lighter <= heavier
    ensures var a, b := LegAt(fewer, capacity, lighter, rule), LegAt(more, capacity, heavier, rule);
            0 <= b.load - a.load <= heavier - lighter + b.boarded - a.boarded
  {
    assert 0 <= (heavier - rule(heavier)) - (lighter - rule(lighter)) <= heavier - lighter;
  }

  lemma BoardedOfFirst(leg: Leg, rest: seq<Leg>)
    ensures TotalBoarded([leg] + rest) == leg.boarded + TotalBoarded(rest)
  {
    assert ([leg] + rest)[1..] == rest;
  }

  /** Those who board are missing from those left waiting. */
  lemma {:induction false} SumAfterLegs(waiting: seq<int>, start: nat, legs: seq<Leg>, n: nat)
    requires n <= |waiting|
    ensures Sum(AfterLegs(waiting, start, legs), n) == Sum(waiting, n) - BoardedBefore(legs, start, n)
  {
    if n > 0 {
      SumAfterLegs(waiting, start, legs, n - 1);
    }
  }

  /** How many board at the first n stops. */
  function BoardedBefore(legs: seq<Leg>, start: nat, n: nat): int {
    if n == 0 then 0 else BoardedBefore(legs, start, n - 1) + BoardedOn(legs, start, n - 1)
  }

  lemma {:induction false} BoardedBeforeRest(leg: Leg, rest: seq<Leg>, start: nat, n: nat)
    ensures BoardedBefore([leg] + rest, start, n) == BoardedBefore(rest, start + 1, n) + if n > start then leg.boarded else 0
  {
    if n > 0 {
      BoardedBeforeRest(leg, rest, start, n - 1);
      BoardedOnFirst(leg, rest, start, n - 1);
      assert n - 1 == start ==> BoardedOn(rest, start + 1, n - 1) == 0;
    }
  }

  lemma {:induction false} BoardedInAll(legs: seq<Leg>, start: nat, n: nat)
    requires start + |legs| <= n
    ensures BoardedBefore(legs, start, n) == TotalBoarded(legs)
    decreases |legs|
  {
    if legs == [] {
      NobodyBoards(start, n);
    } else {
      BoardedInAll(legs[1..], start + 1, n);
      BoardedBeforeRest(legs[0], legs[1..], start, n);
      assert legs == [legs[0]] + legs[1..];
    }
  }

  lemma {:induction false} NobodyBoards(start: nat, n: nat)
    ensures BoardedBefore([], start, n) == 0
  {
    if n > 0 {
      NobodyBoards(start, n - 1);
    }
  }

  lemma SumAfterVehicle(stops: seq<StopState>, waiting: seq<int>, v: VehicleSnapshot, rule: AlightingRule)
    requires |waiting| == |stops|
    ensures Sum(WaitingAfter(stops, waiting, v, rule), |stops|)
            == Sum(waiting, |stops|) - TotalBoarded(LegsOf(stops, waiting, v, rule))
  {
    var start, legs := EntryStop(stops, v).GetOr(0), LegsOf(stops, waiting, v, rule);
    if EntryStop(stops, v).Some? {
      LegsLength(waiting, v.capacity, v.passengerCount, rule, start);
    }
    SumAfterLegs(waiting, start, legs, |stops|);
    BoardedInAll(legs, start, |stops|);
  }

  lemma HelpsItself(v: VehicleSnapshot)
    ensures Helps(v, v)
  {
  }

  lemma VehiclePressure(stops': seq<StopState>, stops: seq<StopState>, fewer: seq<int>, more: seq<int>,
                        v: VehicleSnapshot, rule: AlightingRule)
    requires Gentle(rule) && SameRoute(stops', stops) && |more| == |stops|
    requires Below(fewer, more) && AllNonNegative(more)
    ensures Below(WaitingAfter(stops', fewer, v, rule), WaitingAfter(stops, more, v, rule))
    ensures Sum(WaitingAfter(stops, more, v, rule), |stops|) - Sum(WaitingAfter(stops', fewer, v, rule), |stops|)
            <= Sum(more, |stops|) - Sum(fewer, |stops|)
  {
    HelpsItself(v);
    VehicleRelief(stops', stops, fewer, more, v, v, rule, rule);
    SumAfterVehicle(stops', fewer, v, rule);
    SumAfterVehicle(stops, more, v, rule);
    SameStopIndex(stops', stops, v.currentStopSequence);
    if EntryStop(stops, v).Some? {
      BoardsNoFewer(fewer, more, v.capacity, v.passengerCount, v.passengerCount, rule, EntryStop(stops, v).value);
    }
  }

  lemma {:induction false} FleetPressure(stops': seq<StopState>, stops: seq<StopState>, fewer: seq<int>, more: seq<int>,
                                         vehicles: seq<VehicleSnapshot>, rule: AlightingRule)
    requires Gentle(rule) && SameRoute(stops', stops) && |more| == |stops|
    requires Below(fewer, more) && AllNonNegative(more)
    ensures Below(LeftBy(stops', fewer, vehicles, rule), LeftBy(stops, more, vehicles, rule))
    ensures Sum(LeftBy(stops, more, vehicles, rule), |stops|) - Sum(LeftBy(stops', fewer, vehicles, rule), |stops|)
            <= Sum(more, |stops|) - Sum(fewer, |stops|)
    decreases |vehicles|
  {
    if vehicles != [] {
      VehiclePressure(stops', stops, fewer, more, vehicles[0], rule);
      WaitingStaysNonNegative(stops, more, vehicles[0], rule);
      FleetPressure(stops', stops, WaitingAfter(stops', fewer, vehicles[0], rule),
                    WaitingAfter(stops, more, vehicles[0], rule), vehicles[1..], rule);
    }
  }

  lemma {:induction false} SumIsPositive(s: seq<int>, n: nat)
    requires n <= |s| && AllNonNegative(s)
    ensures Sum(s, n) == SumPositive(s, n)
  {
    if n > 0 {
      SumIsPositive(s, n - 1);
    }
  }

  lemma {:induction false} SumOfWaiting(stops: seq<StopState>, n: nat)
    requires n <= |stops|
    ensures Sum(InitialWaiting(stops), n) == SumWaiting(stops, n)
  {
    if n > 0 {
      SumOfWaiting(stops, n - 1);
    }
  }

  lemma {:induction false} SumWaitingMonotone(stops: seq<StopState>, busier: seq<StopState>, n: nat)
    requires n <= |stops| == |busier| && forall i :: 0 <= i < n ==> Waiting(stops[i]) <= Waiting(busier[i])
    ensures SumWaiting(stops, n) <= SumWaiting(busier, n)
  {
    if n > 0 {
      SumWaitingMonotone(stops, busier, n - 1);
    }
  }

  /** The total stranded by a prediction is the sum of who is left over. */
  lemma TotalStranded(snapshot: RouteSnapshot, fraction: real)
    requires DistinctStopIds(snapshot.stops) && NonNegativeWaiting(snapshot.stops) && |snapshot.stops| > 1
    ensures SumValues(Predict(snapshot, fraction).strandedAtStops) == Sum(LeftOver(snapshot, fraction), |snapshot.stops|)
  {
    var stops := snapshot.stops;
    LeftOverNonNegative(stops, InitialWaiting(stops), FrontToBack(snapshot.vehicles), ByFraction(fraction));
    SumOfStranded(stops, LeftOver(snapshot, fraction), |stops|);
    SumIsPositive(LeftOver(snapshot, fraction), |stops|);
  }

  /**
   The same fleet on the same route with more people waiting strands at least as many at every stop, and in
   total at most as many more as there are more waiting.
   */
  lemma MoreWaitingStrandsNoMoreThanThose(busier: RouteSnapshot, snapshot: RouteSnapshot, fraction: real)
    requires 0.0 <= fraction <= 1.0 && SameRoute(snapshot.stops, busier.stops) && busier.vehicles == snapshot.vehicles
    requires DistinctStopIds(snapshot.stops) && NonNegativeWaiting(snapshot.stops)
    requires forall i :: 0 <= i < |snapshot.stops| ==> Waiting(snapshot.stops[i]) <= Waiting(busier.stops[i])
    ensures var n := SumWaiting(busier.stops, |busier.stops|) - SumWaiting(snapshot.stops, |snapshot.stops|);
            var r', r := Predict(busier, fraction), Predict(snapshot, fraction);
            && StrandsNoMore(r, r')
            && SumValues(r'.strandedAtStops) <= SumValues(r.strandedAtStops) + n
  {
    RelievesItself(snapshot.vehicles);
    EasingStrandsNoMore(snapshot, busier, fraction, fraction);
    if |snapshot.stops| > 1 {
      ByFractionIsGentle(fraction);
      FleetPressure(snapshot.stops, busier.stops, InitialWaiting(snapshot.stops), InitialWaiting(busier.stops),
                    FrontToBack(snapshot.vehicles), ByFraction(fraction));
      SumOfWaiting(snapshot.stops, |snapshot.stops|);
      SumOfWaiting(busier.stops, |busier.stops|);
      TotalStranded(snapshot, fraction);
      TotalStranded(busier, fraction);
    } else {
      SumWaitingMonotone(snapshot.stops, busier.stops, |snapshot.stops|);
    }
  }
}
