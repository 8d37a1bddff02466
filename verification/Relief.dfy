/**
 More service never strands more people. Two runs are compared step by step: the better one
 has less waiting at every stop and, vehicle by vehicle, no less room.
 */
module Relief {
  import opened Prelude
  import opened Rounding
  import opened Ordering
  import opened Snapshots
  import opened Simulation
  import opened Stranded

  // One stop

  /** More passengers on board leave more on board after alighting, by no more than the difference. */
  ghost predicate Gentle(rule: AlightingRule) {
    forall l, m :: l <= m ==> 0 <= (m - rule(m)) - (l - rule(l)) <= m - l
  }

  lemma ByFractionIsGentle(fraction: real)
    requires 0.0 <= fraction <= 1.0
    ensures Gentle(ByFraction(fraction))
  {
    var rule := ByFraction(fraction);
    forall l, m | l <= m ensures 0 <= (m - rule(m)) - (l - rule(l)) <= m - l {
      ShareRange(l, fraction);
      ShareRange(m, fraction);
      ShareSlope(l, m, fraction);
    }
  }

  /** At every load at least as many leave. */
  ghost predicate Quicker(rule': AlightingRule, rule: AlightingRule) {
    forall l :: rule'(l) >= rule(l)
  }

  lemma QuickerAt(fraction': real, fraction: real, l: int)
    requires 0.0 <= fraction <= fraction' <= 1.0
    ensures ByFraction(fraction')(l) >= ByFraction(fraction)(l)
  {
    ShareRange(l, fraction);
    ShareRange(l, fraction');
    if l >= 0 {
      ShareOfLarger(l, fraction, fraction');
    }
  }

  /** A larger fraction lets at least as many passengers off. */
  lemma LargerFractionIsQuicker(fraction': real, fraction: real)
    requires 0.0 <= fraction <= fraction' <= 1.0
    ensures Quicker(ByFraction(fraction'), ByFraction(fraction))
  {
    forall l ensures ByFraction(fraction')(l) >= ByFraction(fraction)(l) {
      QuickerAt(fraction', fraction, l);
    }
  }

  /**
   Less waiting, more capacity, and a load ahead by no more than the extra capacity: after the
   stop there is less waiting still, and the load is still ahead by no more than that.
   */
  lemma LegRelief(w': int, w: int, capacity': int, capacity: int, load': int, load: int,
                  rule': AlightingRule, rule: AlightingRule)
    requires Gentle(rule) && Quicker(rule', rule)
    requires w' <= w && capacity <= capacity' && load' - load <= capacity' - capacity
    ensures var (leg', leg) := (LegAt(w', capacity', load', rule'), LegAt(w, capacity, load, rule));
            w' - leg'.boarded <= w - leg.boarded && leg'.load - leg.load <= capacity' - capacity
  {
    assert rule'(load') >= rule(load');
    assert load' <= load ==> load' - rule(load') <= load - rule(load);
    assert load <= load' ==> (load' - rule(load')) - (load - rule(load)) <= load' - load;
  }

  /** Boarding along a walk that begins at stop i: at that stop the first leg, later the rest. */
  lemma BoardedOnFirst(leg: Leg, rest: seq<Leg>, i: nat, k: nat)
    ensures BoardedOn([leg] + rest, i, k) == if k == i then leg.boarded else BoardedOn(rest, i + 1, k)
  {
  }

  lemma {:induction false} LegsRelief(waiting': seq<int>, waiting: seq<int>, capacity': int, capacity: int,
                                      load': int, load: int, rule': AlightingRule, rule: AlightingRule, i: nat, k: nat)
    requires Gentle(rule) && Quicker(rule', rule) && Below(waiting', waiting) && k < |waiting|
    requires capacity <= capacity' && load' - load <= capacity' - capacity
    ensures var (legs', legs) := (Legs(waiting', capacity', load', rule', i), Legs(waiting, capacity, load, rule, i));
            waiting'[k] - BoardedOn(legs', i, k) <= waiting[k] - BoardedOn(legs, i, k)
    decreases |waiting| - i
  {
    if i + 1 < |waiting| {
      var leg', leg := LegAt(waiting'[i], capacity', load', rule'), LegAt(waiting[i], capacity, load, rule);
      LegRelief(waiting'[i], waiting[i], capacity', capacity, load', load, rule', rule);
      LegsRelief(waiting', waiting, capacity', capacity, leg'.load, leg.load, rule', rule, i + 1, k);
      BoardedOnFirst(leg', Legs(waiting', capacity', leg'.load, rule', i + 1), i, k);
      BoardedOnFirst(leg, Legs(waiting, capacity, leg.load, rule, i + 1), i, k);
    }
  }

  /** A vehicle takes on at most those who wait, so it never leaves more behind nor fewer than nobody. */
  lemma {:induction false} LegsTakeFrom(waiting: seq<int>, capacity: int, load: int, rule: AlightingRule, i: nat, k: nat)
    requires k < |waiting|
    ensures var b := BoardedOn(Legs(waiting, capacity, load, rule, i), i, k);
            waiting[k] - b <= Max(waiting[k], 0) && (waiting[k] >= 0 ==> 0 <= b <= waiting[k])
    decreases |waiting| - i
  {
    if i + 1 < |waiting| {
      var leg := LegAt(waiting[i], capacity, load, rule);
      LegsTakeFrom(waiting, capacity, leg.load, rule, i + 1, k);
      var rest := Legs(waiting, capacity, leg.load, rule, i + 1);
      BoardedOnFirst(leg, rest, i, k);
    }
  }

  // One vehicle

  ghost predicate Below(a: seq<int>, b: seq<int>) {
    |a| == |b| && forall i :: 0 <= i < |a| ==> a[i] <= b[i]
  }

  ghost predicate SameRoute(stops': seq<StopState>, stops: seq<StopState>) {
    && |stops'| == |stops|
    && forall i :: 0 <= i < |stops| ==>
         stops'[i].stopId == stops[i].stopId && stops'[i].sequence == stops[i].sequence
  }

  lemma {:induction false} SameStopIndex(stops': seq<StopState>, stops: seq<StopState>, sequence: int)
    requires SameRoute(stops', stops)
    ensures StopIndex(stops', sequence) == StopIndex(stops, sequence)
  {
    if stops != [] {
      SameStopIndex(stops'[..|stops| - 1], stops[..|stops| - 1], sequence);
    }
  }

  /** The same vehicle with at least as much room left: bigger, emptier, or both. */
  ghost predicate Helps(v': VehicleSnapshot, v: VehicleSnapshot) {
    && v'.vehicleId == v.vehicleId && v'.currentStopSequence == v.currentStopSequence
    && v.capacity <= v'.capacity && v'.passengerCount - v.passengerCount <= v'.capacity - v.capacity
  }

  lemma ExtraVehicleRelief(stops: seq<StopState>, waiting': seq<int>, waiting: seq<int>, v: VehicleSnapshot, rule: AlightingRule)
    requires Below(waiting', waiting) && AllNonNegative(waiting)
    ensures Below(WaitingAfter(stops, waiting', v, rule), waiting)
  {
    if EntryStop(stops, v).Some? {
      forall k | 0 <= k < |waiting| {
        LegsTakeFrom(waiting', v.capacity, v.passengerCount, rule, EntryStop(stops, v).value, k);
      }
    }
  }

  lemma WaitingStaysNonNegative(stops: seq<StopState>, waiting: seq<int>, v: VehicleSnapshot, rule: AlightingRule)
    requires AllNonNegative(waiting)
    ensures AllNonNegative(WaitingAfter(stops, waiting, v, rule))
  {
    if EntryStop(stops, v).Some? {
      forall k | 0 <= k < |waiting| {
        LegsTakeFrom(waiting, v.capacity, v.passengerCount, rule, EntryStop(stops, v).value, k);
      }
    }
  }

  lemma VehicleRelief(stops': seq<StopState>, stops: seq<StopState>, waiting': seq<int>, waiting: seq<int>,
                      v': VehicleSnapshot, v: VehicleSnapshot, rule': AlightingRule, rule: AlightingRule)
    requires Gentle(rule) && Quicker(rule', rule) && SameRoute(stops', stops) && Helps(v', v)
    requires Below(waiting', waiting) && AllNonNegative(waiting)
    ensures Below(WaitingAfter(stops', waiting', v', rule'), WaitingAfter(stops, waiting, v, rule))
  {
    SameStopIndex(stops', stops, v.currentStopSequence);
    if EntryStop(stops, v).Some? {
      forall k | 0 <= k < |waiting| {
        LegsRelief(waiting', waiting, v'.capacity, v.capacity, v'.passengerCount, v.passengerCount, rule', rule,
                   EntryStop(stops, v).value, k);
      }
    } else {
      ExtraVehicleRelief(stops', waiting', waiting, v', rule');
    }
  }

  // The whole fleet

  /** better is worse with some vehicles improved and others added, at any positions. */
  ghost predicate Relieves(better: seq<VehicleSnapshot>, worse: seq<VehicleSnapshot>) {
    || worse == []
    || (better != [] && Helps(better[0], worse[0]) && Relieves(better[1..], worse[1..]))
    || (better != [] && Relieves(better[1..], worse))
  }

  lemma {:induction false} FleetRelief(stops': seq<StopState>, stops: seq<StopState>, waiting': seq<int>, waiting: seq<int>,
                                       better: seq<VehicleSnapshot>, worse: seq<VehicleSnapshot>,
                                       rule': AlightingRule, rule: AlightingRule)
    requires Gentle(rule) && Quicker(rule', rule) && SameRoute(stops', stops) && |waiting| == |stops|
    requires Below(waiting', waiting) && AllNonNegative(waiting)
    requires Relieves(better, worse)
    ensures Below(LeftBy(stops', waiting', better, rule'), LeftBy(stops, waiting, worse, rule))
    decreases |better|, |worse|
  {
    if better == [] {
    } else if worse != [] && Helps(better[0], worse[0]) && Relieves(better[1..], worse[1..]) {
      VehicleRelief(stops', stops, waiting', waiting, better[0], worse[0], rule', rule);
      WaitingStaysNonNegative(stops, waiting, worse[0], rule);
      FleetRelief(stops', stops, WaitingAfter(stops', waiting', better[0], rule'),
                  WaitingAfter(stops, waiting, worse[0], rule), better[1..], worse[1..], rule', rule);
    } else {
      ExtraVehicleRelief(stops', waiting', waiting, better[0], rule');
      FleetRelief(stops', stops, WaitingAfter(stops', waiting', better[0], rule'), waiting, better[1..], worse, rule', rule);
    }
  }

  lemma {:induction false} LeftNeverGrows(stops: seq<StopState>, waiting: seq<int>, vehicles: seq<VehicleSnapshot>, rule: AlightingRule)
    requires |waiting| == |stops| && AllNonNegative(waiting)
    ensures Below(LeftBy(stops, waiting, vehicles, rule), waiting)
    decreases |vehicles|
  {
    if vehicles != [] {
      ExtraVehicleRelief(stops, waiting, waiting, vehicles[0], rule);
      WaitingStaysNonNegative(stops, waiting, vehicles[0], rule);
      LeftNeverGrows(stops, WaitingAfter(stops, waiting, vehicles[0], rule), vehicles[1..], rule);
    }
  }

  // Sorting keeps the comparison

  lemma {:induction false} RelievesFirstKey(better: seq<VehicleSnapshot>, worse: seq<VehicleSnapshot>)
    requires SortedBy(AheadOrEqual, better) && Relieves(better, worse) && worse != []
    ensures better != [] && AheadOrEqual(better[0], worse[0])
  {
    StringLeTotal(better[0].vehicleId, better[0].vehicleId);
    if !(Helps(better[0], worse[0]) && Relieves(better[1..], worse[1..])) {
      RelievesFirstKey(better[1..], worse);
      AheadOrEqualTotal();
      assert AheadOrEqual(better[0], better[1]);
    }
  }

  lemma {:induction false} InsertExtraRelieves(v: VehicleSnapshot, better: seq<VehicleSnapshot>, worse: seq<VehicleSnapshot>)
    requires Relieves(better, worse)
    ensures Relieves(Insert(AheadOrEqual, v, better), worse)
  {
    if better == [] || AheadOrEqual(v, better[0]) {
      assert ([v] + better)[1..] == better;
    } else {
      var rest := Insert(AheadOrEqual, v, better[1..]);
      assert ([better[0]] + rest)[1..] == rest;
      if worse != [] {
        if Helps(better[0], worse[0]) && Relieves(better[1..], worse[1..]) {
          InsertExtraRelieves(v, better[1..], worse[1..]);
        } else {
          InsertExtraRelieves(v, better[1..], worse);
        }
      }
    }
  }

  lemma {:induction false} InsertHelperRelieves(v': VehicleSnapshot, v: VehicleSnapshot,
                                                better: seq<VehicleSnapshot>, worse: seq<VehicleSnapshot>)
    requires SortedBy(AheadOrEqual, better) && Relieves(better, worse) && Helps(v', v)
    ensures Relieves(Insert(AheadOrEqual, v', better), Insert(AheadOrEqual, v, worse))
  {
    var better', worse' := Insert(AheadOrEqual, v', better), Insert(AheadOrEqual, v, worse);
    if better == [] || AheadOrEqual(v', better[0]) {
      assert better'[1..] == better;
      if worse != [] {
        RelievesFirstKey(better, worse);
        AheadOrEqualTotal();
        assert AheadOrEqual(v', worse[0]);
      }
      assert worse'[0] == v && worse'[1..] == worse;
    } else {
      assert better'[0] == better[0] && better'[1..] == Insert(AheadOrEqual, v', better[1..]);
      if worse != [] && Helps(better[0], worse[0]) && Relieves(better[1..], worse[1..]) {
        InsertHelperRelieves(v', v, better[1..], worse[1..]);
        assert worse'[0] == worse[0] && worse'[1..] == Insert(AheadOrEqual, v, worse[1..]);
      } else {
        InsertHelperRelieves(v', v, better[1..], worse);
      }
    }
  }

  /** Sorting front to back preserves the improvement, wherever in the snapshot it was made. */
  lemma {:induction false} FrontToBackRelieves(better: seq<VehicleSnapshot>, worse: seq<VehicleSnapshot>)
    requires Relieves(better, worse)
    ensures Relieves(FrontToBack(better), FrontToBack(worse))
    decreases |better|, |worse|
  {
    if better == [] || worse == [] {
    } else if Helps(better[0], worse[0]) && Relieves(better[1..], worse[1..]) {
      FrontToBackRelieves(better[1..], worse[1..]);
      AheadOrEqualTotal();
      SortSorted(AheadOrEqual, better[1..]);
      InsertHelperRelieves(better[0], worse[0], FrontToBack(better[1..]), FrontToBack(worse[1..]));
    } else {
      FrontToBackRelieves(better[1..], worse);
      InsertExtraRelieves(better[0], FrontToBack(better[1..]), FrontToBack(worse));
    }
  }

  // Whole predictions

  /** Same route, nobody extra waiting anywhere, and a fleet that is only improved or enlarged. */
  ghost predicate Eases(snapshot': RouteSnapshot, snapshot: RouteSnapshot) {
    && SameRoute(snapshot'.stops, snapshot.stops)
    && (forall i :: 0 <= i < |snapshot.stops| ==> Waiting(snapshot'.stops[i]) <= Waiting(snapshot.stops[i]))
    && Relieves(snapshot'.vehicles, snapshot.vehicles)
  }

  ghost predicate StrandsNoMore(r': RoutePredictionResult, r: RoutePredictionResult) {
    && (forall id :: StrandedAt(r', id) <= StrandedAt(r, id))
    && SumValues(r'.strandedAtStops) <= SumValues(r.strandedAtStops)
  }

  lemma {:induction false} SumPositiveMonotone(a: seq<int>, b: seq<int>, n: nat)
    requires Below(a, b) && n <= |a|
    ensures SumPositive(a, n) <= SumPositive(b, n)
  {
    if n > 0 {
      SumPositiveMonotone(a, b, n - 1);
    }
  }

  lemma StrandedRelief(stops': seq<StopState>, stops: seq<StopState>, waiting': seq<int>, waiting: seq<int>, id: string)
    requires SameRoute(stops', stops) && DistinctStopIds(stops) && |waiting| == |stops| && Below(waiting', waiting)
    ensures Lookup(StrandedMap(stops', waiting', |stops|), id) <= Lookup(StrandedMap(stops, waiting, |stops|), id)
  {
    StrandedMapEntries(stops', waiting', |stops|);
    StrandedMapEntries(stops, waiting, |stops|);
    if id in StrandedMap(stops', waiting', |stops|) {
      var i :| 0 <= i < |stops| && stops'[i].stopId == id && waiting'[i] > 0;
      assert stops[i].stopId == id;
    } else if id in StrandedMap(stops, waiting, |stops|) {
      var i :| 0 <= i < |stops| && stops[i].stopId == id && waiting[i] > 0;
    }
  }

  /**
   Easing a snapshot in any combination of ways, with the same alighting fraction or a larger one, between
   0 and 1, never increases the number stranded at any stop, nor the total.
   */
  lemma EasingStrandsNoMore(snapshot': RouteSnapshot, snapshot: RouteSnapshot, fraction': real, fraction: real)
    requires 0.0 <= fraction <= fraction' <= 1.0
    requires DistinctStopIds(snapshot.stops) && NonNegativeWaiting(snapshot.stops)
    requires Eases(snapshot', snapshot)
    ensures StrandsNoMore(Predict(snapshot', fraction'), Predict(snapshot, fraction))
  {
    var stops', stops := snapshot'.stops, snapshot.stops;
    var w', w := LeftOver(snapshot', fraction'), LeftOver(snapshot, fraction);
    if |stops| > 1 {
      ByFractionIsGentle(fraction);
      LargerFractionIsQuicker(fraction', fraction);
      FrontToBackRelieves(snapshot'.vehicles, snapshot.vehicles);
      FleetRelief(stops', stops, InitialWaiting(stops'), InitialWaiting(stops),
                  FrontToBack(snapshot'.vehicles), FrontToBack(snapshot.vehicles), ByFraction(fraction'), ByFraction(fraction));
      forall id ensures StrandedAt(Predict(snapshot', fraction'), id) <= StrandedAt(Predict(snapshot, fraction), id) {
        StrandedRelief(stops', stops, w', w, id);
      }
      SumOfStranded(stops', w', |stops|);
      SumOfStranded(stops, w, |stops|);
      SumPositiveMonotone(w', w, |stops|);
    }
  }

  lemma {:induction false} RelievesItself(vehicles: seq<VehicleSnapshot>)
    ensures Relieves(vehicles, vehicles)
  {
    if vehicles != [] {
      RelievesItself(vehicles[1..]);
    }
  }

  lemma {:induction false} RelievesAfterPrefix(prefix: seq<VehicleSnapshot>, better: seq<VehicleSnapshot>, worse: seq<VehicleSnapshot>)
    requires Relieves(better, worse)
    ensures Relieves(prefix + better, prefix + worse)
  {
    if prefix == [] {
      assert prefix + better == better && prefix + worse == worse;
    } else {
      RelievesAfterPrefix(prefix[1..], better, worse);
      assert (prefix + better)[1..] == prefix[1..] + better && (prefix + worse)[1..] == prefix[1..] + worse;
    }
  }

  /** One more vehicle, anywhere in the snapshot. */
  lemma AddingVehicleStrandsNoMore(snapshot: RouteSnapshot, k: nat, v: VehicleSnapshot, fraction: real)
    requires 0.0 <= fraction <= 1.0 && k <= |snapshot.vehicles|
    requires DistinctStopIds(snapshot.stops) && NonNegativeWaiting(snapshot.stops)
    ensures var vehicles' := snapshot.vehicles[..k] + [v] + snapshot.vehicles[k..];
            StrandsNoMore(Predict(snapshot.(vehicles := vehicles'), fraction), Predict(snapshot, fraction))
  {
    var ahead, behind := snapshot.vehicles[..k], snapshot.vehicles[k..];
    RelievesItself(behind);
    assert ([v] + behind)[1..] == behind;
    RelievesAfterPrefix(ahead, [v] + behind, behind);
    CutAt(snapshot.vehicles, k);
    AppendAssociative(ahead, [v], behind);
    EasingStrandsNoMore(snapshot.(vehicles := ahead + [v] + behind), snapshot, fraction, fraction);
  }

  /** One vehicle made bigger or emptier, and any stops made quieter. */
  lemma ImprovingVehicleStrandsNoMore(snapshot: RouteSnapshot, k: nat, v': VehicleSnapshot, stops': seq<StopState>, fraction: real)
    requires 0.0 <= fraction <= 1.0 && k < |snapshot.vehicles| && Helps(v', snapshot.vehicles[k])
    requires DistinctStopIds(snapshot.stops) && NonNegativeWaiting(snapshot.stops)
    requires SameRoute(stops', snapshot.stops)
    requires forall i :: 0 <= i < |stops'| ==> Waiting(stops'[i]) <= Waiting(snapshot.stops[i])
    ensures StrandsNoMore(Predict(snapshot.(vehicles := snapshot.vehicles[k := v'], stops := stops'), fraction),
                          Predict(snapshot, fraction))
  {
    var vehicles := snapshot.vehicles;
    RelievesItself(vehicles[k + 1..]);
    assert ([v'] + vehicles[k + 1..])[1..] == vehicles[k + 1..];
    ReplaceAt(vehicles, k, v');
    RelievesAfterPrefix(vehicles[..k], [v'] + vehicles[k + 1..], vehicles[k..]);
    CutAt(vehicles, k);
    EasingStrandsNoMore(snapshot.(vehicles := vehicles[k := v'], stops := stops'), snapshot, fraction, fraction);
  }

  /** A larger alighting fraction. */
  lemma LargerFractionStrandsNoMore(snapshot: RouteSnapshot, fraction': real, fraction: real)
    requires 0.0 <= fraction <= fraction' <= 1.0
    requires DistinctStopIds(snapshot.stops) && NonNegativeWaiting(snapshot.stops)
    ensures StrandsNoMore(Predict(snapshot, fraction'), Predict(snapshot, fraction))
  {
    RelievesItself(snapshot.vehicles);
    EasingStrandsNoMore(snapshot, snapshot, fraction', fraction);
  }
}
