/** Splitting the crowd at a stop among the routes that serve it, by inverse arrival time. */
module CrowdShares {
  import opened Prelude
  import opened Rounding
  import opened Ordering

  datatype RouteKey = RouteKey(routeId: string, directionId: int)

  /** One row of the arrival query: the soonest arrival of a route at a stop, in seconds from midnight. */
  datatype EtaRow = EtaRow(stopId: string, key: RouteKey, arrival: int)

  /** An entry of a dictionary keyed by route, in insertion order. */
  datatype Eta = Eta(key: RouteKey, seconds: int)

  const MIN_ETA: int := 30

  // The split

  function Weight(seconds: int): (w: real)
    ensures w > 0.0
  {
    1.0 / Max(seconds, MIN_ETA) as real
  }

  function Find(etas: seq<Eta>, key: RouteKey): Option<int> {
    if etas == [] then None
    else if etas[|etas| - 1].key == key then Some(etas[|etas| - 1].seconds)
    else Find(etas[..|etas| - 1], key)
  }

  function SumWeights(etas: seq<Eta>): real {
    if etas == [] then 0.0 else SumWeights(etas[..|etas| - 1]) + Weight(etas[|etas| - 1].seconds)
  }

  /** proportional_split with its default floor. */
  function ProportionalSplit(etas: seq<Eta>, target: RouteKey): real {
    if Find(etas, target).None? then 1.0
    else
      var total := SumWeights(etas);
      if total == 0.0 then 1.0 else Weight(Find(etas, target).value) / total
  }

  // Shares at a stop

  function Replace(etas: seq<Eta>, e: Eta): (r: seq<Eta>)
    ensures |r| == |etas| && forall k :: 0 <= k < |etas| ==> r[k] == if etas[k].key == e.key then e else etas[k]
  {
    if etas == [] then []
    else [if etas[0].key == e.key then e else etas[0]] + Replace(etas[1..], e)
  }

  /** Sets a dictionary entry: in place if the key is there, at the end otherwise. */
  function Put(etas: seq<Eta>, e: Eta): seq<Eta> {
    if Find(etas, e.key).Some? then Replace(etas, e) else etas + [e]
  }

  function EntriesAt(rows: seq<EtaRow>, stopId: string): seq<Eta> {
    if rows == [] then []
    else
      var before, r := EntriesAt(rows[..|rows| - 1], stopId), rows[|rows| - 1];
      if r.stopId == stopId then Put(before, Eta(r.key, r.arrival)) else before
  }

  /** Seconds until arrival, taking an arrival more than half a day ahead as one of the day before. */
  function RelativeEta(arrival: int, now: int): int {
    var eta := arrival - now;
    if eta > 43200 then eta - 86400 else eta
  }

  /** The entries still to arrive, relative to now. */
  function Live(entries: seq<Eta>, now: int): seq<Eta> {
    if entries == [] then []
    else
      var e := entries[|entries| - 1];
      var eta := RelativeEta(e.seconds, now);
      Live(entries[..|entries| - 1], now) + if eta <= 0 then [] else [Eta(e.key, eta)]
  }

  function ShareAt(rows: seq<EtaRow>, stopId: string, target: RouteKey, now: int): real {
    var live := Live(EntriesAt(rows, stopId), now);
    if live == [] || Find(live, target).None? || |live| == 1 then 1.0 else ProportionalSplit(live, target)
  }

  /** What a route's snapshot shows at a stop. */
  function ApplyShare(rawCount: Option<int>, share: real): Option<int> {
    match rawCount
    case None => None
    case Some(n) => Some(Share(n, share))
  }

  // As they run

  method ProportionalSplitLoop(etas: seq<Eta>, target: RouteKey) returns (share: real)
    ensures share == ProportionalSplit(etas, target)
  {
    var weights: seq<real>, targetWeight: Option<real> := [], None;
    for n := 0 to |etas|
      invariant |weights| == n && forall k :: 0 <= k < n ==> weights[k] == Weight(etas[k].seconds)
      invariant targetWeight == match Find(etas[..n], target) case None => None case Some(eta) => Some(Weight(eta))
    {
      assert etas[..n + 1][..n] == etas[..n];
      weights := weights + [Weight(etas[n].seconds)];
      if etas[n].key == target {
        targetWeight := Some(weights[n]);
      }
    }
    FullSlices(etas);
    if targetWeight.None? {
      return 1.0;
    }
    var total := 0.0;
    for n := 0 to |weights|
      invariant total == SumWeights(etas[..n])
    {
      assert etas[..n + 1][..n] == etas[..n];
      total := total + weights[n];
    }
    if total == 0.0 {
      return 1.0;
    }
    return targetWeight.value / total;
  }

  /** Groups the query rows into a dictionary of dictionaries. */
  method GroupRows(rows: seq<EtaRow>) returns (raw: map<string, seq<Eta>>)
    ensures forall stopId :: stopId in raw <==> EntriesAt(rows, stopId) != []
    ensures forall stopId :: stopId in raw ==> raw[stopId] == EntriesAt(rows, stopId)
  {
    raw := map[];
    for n := 0 to |rows|
      invariant forall stopId :: stopId in raw <==> EntriesAt(rows[..n], stopId) != []
      invariant forall stopId :: stopId in raw ==> raw[stopId] == EntriesAt(rows[..n], stopId)
    {
      var r := rows[n];
      assert rows[..n + 1][..n] == rows[..n];
      var entries := if r.stopId in raw then raw[r.stopId] else [];
      raw := raw[r.stopId := Put(entries, Eta(r.key, r.arrival))];
    }
    FullSlices(rows);
  }

  method LiveEtas(entries: seq<Eta>, now: int) returns (live: seq<Eta>)
    ensures live == Live(entries, now)
  {
    live := [];
    for n := 0 to |entries|
      invariant live == Live(entries[..n], now)
    {
      assert entries[..n + 1][..n] == entries[..n];
      var eta := entries[n].seconds - now;
      if eta > 43200 {
        eta := eta - 86400;
      }
      if eta <= 0 {
        continue;
      }
      live := live + [Eta(entries[n].key, eta)];
    }
    FullSlices(entries);
  }

  /** This route's share of the crowd at each of its stops. */
  method ComputeCrowdShares(rows: seq<EtaRow>, stopIds: seq<string>, target: RouteKey, now: int)
    returns (shares: map<string, real>)
    ensures forall stopId :: stopId in shares <==> stopId in stopIds
    ensures forall stopId :: stopId in stopIds ==> shares[stopId] == ShareAt(rows, stopId, target, now)
  {
    shares := map[];
    var raw := GroupRows(rows);
    for n := 0 to |stopIds|
      invariant forall stopId :: stopId in shares <==> stopId in stopIds[..n]
      invariant forall stopId :: stopId in shares ==> shares[stopId] == ShareAt(rows, stopId, target, now)
    {
      var stopId := stopIds[n];
      if stopId !in raw {
        shares := shares[stopId := 1.0];
        continue;
      }
      var live := LiveEtas(raw[stopId], now);
      if live == [] || Find(live, target).None? || |live| == 1 {
        shares := shares[stopId := 1.0];
        continue;
      }
      var share := ProportionalSplitLoop(live, target);
      shares := shares[stopId := share];
    }
  }

  // Sums over rows

  function SumOf(f: EtaRow -> real, rows: seq<EtaRow>): real {
    if rows == [] then 0.0 else SumOf(f, rows[..|rows| - 1]) + f(rows[|rows| - 1])
  }

  lemma {:induction false} SumOfAppend(f: EtaRow -> real, a: seq<EtaRow>, b: seq<EtaRow>)
    ensures SumOf(f, a + b) == SumOf(f, a) + SumOf(f, b)
  {
    if b == [] {
      assert a + b == a;
    } else {
      assert (a + b)[..|a + b| - 1] == a + b[..|b| - 1];
      SumOfAppend(f, a, b[..|b| - 1]);
    }
  }

  lemma SumOfOneMore(f: EtaRow -> real, rows: seq<EtaRow>, r: EtaRow)
    ensures SumOf(f, rows + [r]) == SumOf(f, rows) + f(r)
  {
    assert (rows + [r])[..|rows|] == rows;
  }

  lemma SplitAt(rows: seq<EtaRow>, k: nat)
    requires k < |rows|
    ensures rows == (rows[..k] + [rows[k]]) + rows[k + 1..]
  {
  }

  lemma SumOfMiddle(f: EtaRow -> real, a: seq<EtaRow>, r: EtaRow, b: seq<EtaRow>)
    ensures SumOf(f, (a + [r]) + b) == SumOf(f, a + b) + f(r)
  {
    SumOfAppend(f, a + [r], b);
    SumOfOneMore(f, a, r);
    SumOfAppend(f, a, b);
  }

  lemma SumOfWithout(f: EtaRow -> real, rows: seq<EtaRow>, k: nat)
    requires k < |rows|
    ensures SumOf(f, rows) == SumOf(f, rows[..k] + rows[k + 1..]) + f(rows[k])
  {
    SplitAt(rows, k);
    SumOfMiddle(f, rows[..k], rows[k], rows[k + 1..]);
  }

  /** A sum does not depend on the order of the rows. */
  lemma {:induction false} SumOfPermutes(f: EtaRow -> real, a: seq<EtaRow>, b: seq<EtaRow>)
    requires multiset(a) == multiset(b)
    ensures SumOf(f, a) == SumOf(f, b)
    decreases |a|
  {
    SameMembers(a, b);
    if a != [] {
      var last := |a| - 1;
      assert a[last] in b;
      var k :| 0 <= k < |b| && b[k] == a[last];
      SumOfWithout(f, a, last);
      SumOfWithout(f, b, k);
      MultisetWithout(a, last);
      MultisetWithout(b, k);
      SumOfPermutes(f, a[..last] + a[last + 1..], b[..k] + b[k + 1..]);
    }
  }

  // One stop, seen from every route's own call

  /** The query returns at most one row for a route at a stop. */
  ghost predicate UniqueKeys(rows: seq<EtaRow>) {
    forall i, j :: 0 <= i < j < |rows| ==> rows[i].key != rows[j].key
  }

  function AtStop(rows: seq<EtaRow>, stopId: string): seq<EtaRow> {
    if rows == [] then []
    else AtStop(rows[..|rows| - 1], stopId) + if rows[|rows| - 1].stopId == stopId then [rows[|rows| - 1]] else []
  }

  predicate IsLive(r: EtaRow, now: int) {
    RelativeEta(r.arrival, now) > 0
  }

  function LiveRoutes(rows: seq<EtaRow>, now: int): nat {
    if rows == [] then 0
    else LiveRoutes(rows[..|rows| - 1], now) + if IsLive(rows[|rows| - 1], now) then 1 else 0
  }

  function LiveWeight(now: int): EtaRow -> real {
    (r: EtaRow) => if IsLive(r, now) then Weight(RelativeEta(r.arrival, now)) else 0.0
  }

  function EtasOf(rows: seq<EtaRow>): (etas: seq<Eta>)
    ensures |etas| == |rows|
    ensures forall k :: 0 <= k < |rows| ==> etas[k] == Eta(rows[k].key, rows[k].arrival)
  {
    if rows == [] then [] else EtasOf(rows[..|rows| - 1]) + [Eta(rows[|rows| - 1].key, rows[|rows| - 1].arrival)]
  }

  lemma {:induction false} FindNothing(etas: seq<Eta>, key: RouteKey)
    requires forall k :: 0 <= k < |etas| ==> etas[k].key != key
    ensures Find(etas, key).None?
  {
    if etas != [] {
      FindNothing(etas[..|etas| - 1], key);
    }
  }

  lemma LastKeyIsNew(rows: seq<EtaRow>, r: EtaRow)
    requires UniqueKeys(rows + [r])
    ensures UniqueKeys(rows) && forall k :: 0 <= k < |rows| ==> rows[k].key != r.key
  {
    assert forall i :: 0 <= i < |rows| ==> rows[i] == (rows + [r])[i];
    assert (rows + [r])[|rows|] == r;
  }

  lemma EtasOneMore(rows: seq<EtaRow>, r: EtaRow)
    ensures EtasOf(rows + [r]) == EtasOf(rows) + [Eta(r.key, r.arrival)]
  {
  }

  lemma {:induction false} EntriesAreRows(rows: seq<EtaRow>, stopId: string)
    requires UniqueKeys(AtStop(rows, stopId))
    ensures EntriesAt(rows, stopId) == EtasOf(AtStop(rows, stopId))
  {
    if rows != [] {
      var fewer, r := rows[..|rows| - 1], rows[|rows| - 1];
      var here := AtStop(fewer, stopId);
      if r.stopId == stopId {
        LastKeyIsNew(here, r);
        EntriesAreRows(fewer, stopId);
        FindNothing(EtasOf(here), r.key);
        EtasOneMore(here, r);
      } else {
        assert AtStop(rows, stopId) == here;
        EntriesAreRows(fewer, stopId);
      }
    }
  }

  lemma LiveOneMore(rows: seq<EtaRow>, now: int)
    requires rows != []
    ensures var before, last := Live(EtasOf(rows[..|rows| - 1]), now), rows[|rows| - 1];
            Live(EtasOf(rows), now)
            == if IsLive(last, now) then before + [Eta(last.key, RelativeEta(last.arrival, now))] else before
  {
    assert EtasOf(rows)[..|rows| - 1] == EtasOf(rows[..|rows| - 1]);
  }

  lemma WeightsOneMore(etas: seq<Eta>, e: Eta)
    ensures SumWeights(etas + [e]) == SumWeights(etas) + Weight(e.seconds)
    ensures forall key :: Find(etas + [e], key) == if e.key == key then Some(e.seconds) else Find(etas, key)
  {
    assert (etas + [e])[..|etas|] == etas;
  }

  /** The live entries weigh what the live rows weigh. */
  lemma {:induction false} LiveWeighs(rows: seq<EtaRow>, now: int)
    ensures SumWeights(Live(EtasOf(rows), now)) == SumOf(LiveWeight(now), rows)
  {
    if rows != [] {
      var last := rows[|rows| - 1];
      LiveWeighs(rows[..|rows| - 1], now);
      LiveOneMore(rows, now);
      WeightsOneMore(Live(EtasOf(rows[..|rows| - 1]), now), Eta(last.key, RelativeEta(last.arrival, now)));
    }
  }

  /** A live row is found among the live entries under its key. */
  lemma {:induction false} LiveFinds(rows: seq<EtaRow>, now: int, k: nat)
    requires UniqueKeys(rows) && k < |rows| && IsLive(rows[k], now)
    ensures Find(Live(EtasOf(rows), now), rows[k].key) == Some(RelativeEta(rows[k].arrival, now))
  {
    var last := rows[|rows| - 1];
    LiveOneMore(rows, now);
    WeightsOneMore(Live(EtasOf(rows[..|rows| - 1]), now), Eta(last.key, RelativeEta(last.arrival, now)));
    if k < |rows| - 1 {
      LiveFinds(rows[..|rows| - 1], now, k);
    }
  }

  lemma {:induction false} FoundWeighs(etas: seq<Eta>, key: RouteKey)
    requires Find(etas, key).Some?
    ensures SumWeights(etas) >= Weight(Find(etas, key).value)
    ensures |etas| == 1 ==> SumWeights(etas) == Weight(Find(etas, key).value)
  {
    if etas[|etas| - 1].key != key {
      FoundWeighs(etas[..|etas| - 1], key);
    } else {
      WeightsNonNegative(etas[..|etas| - 1]);
    }
  }

  lemma {:induction false} WeightsNonNegative(etas: seq<Eta>)
    ensures SumWeights(etas) >= 0.0
  {
    if etas != [] {
      WeightsNonNegative(etas[..|etas| - 1]);
    }
  }

  lemma SelfQuotient(w: real)
    requires w > 0.0
    ensures w / w == 1.0
  {
  }

  /** The share of a live route is its part of the live weight, whether it competes or not. */
  lemma ShareFormula(rows: seq<EtaRow>, stopId: string, now: int, k: nat)
    requires var here := AtStop(rows, stopId);
             UniqueKeys(here) && k < |here| && IsLive(here[k], now)
    ensures var here := AtStop(rows, stopId);
            var weight, total := LiveWeight(now)(here[k]), SumOf(LiveWeight(now), here);
            0.0 < weight <= total && ShareAt(rows, stopId, here[k].key, now) == weight / total
  {
    var here := AtStop(rows, stopId);
    EntriesAreRows(rows, stopId);
    LiveWeighs(here, now);
    LiveFinds(here, now, k);
    var live := Live(EtasOf(here), now);
    FoundWeighs(live, here[k].key);
    if |live| == 1 {
      SelfQuotient(SumWeights(live));
    }
  }

  // All routes at one stop

  lemma UniqueKeysPermute(a: seq<EtaRow>, b: seq<EtaRow>)
    requires UniqueKeys(a) && multiset(b) == multiset(a)
    ensures UniqueKeys(b)
  {
    DistinctByPermutes((r: EtaRow) => r.key, a, b);
  }

  /** Every route makes its own call; all of them see the same rows for the stop, in any order. */
  ghost predicate SameRowsAt(rowsFor: RouteKey -> seq<EtaRow>, stopId: string, base: seq<EtaRow>) {
    forall key :: multiset(AtStop(rowsFor(key), stopId)) == multiset(base)
  }

  /** The share that a live route computes in its own call, and nothing for the others. */
  function OwnShare(rowsFor: RouteKey -> seq<EtaRow>, stopId: string, now: int): EtaRow -> real {
    (r: EtaRow) => if IsLive(r, now) then ShareAt(rowsFor(r.key), stopId, r.key, now) else 0.0
  }

  lemma OwnShareFormula(rowsFor: RouteKey -> seq<EtaRow>, stopId: string, now: int, base: seq<EtaRow>, r: EtaRow)
    requires UniqueKeys(base) && SameRowsAt(rowsFor, stopId, base) && r in base && IsLive(r, now)
    ensures var total := SumOf(LiveWeight(now), base);
            0.0 < LiveWeight(now)(r) <= total && OwnShare(rowsFor, stopId, now)(r) == LiveWeight(now)(r) / total
  {
    var here := AtStop(rowsFor(r.key), stopId);
    assert multiset(here) == multiset(base);
    UniqueKeysPermute(base, here);
    SameMembers(base, here);
    var k :| 0 <= k < |here| && here[k] == r;
    ShareFormula(rowsFor(r.key), stopId, now, k);
    SumOfPermutes(LiveWeight(now), here, base);
  }

  lemma QuotientSum(a: real, b: real, t: real)
    requires t > 0.0
    ensures (a + b) / t == a / t + b / t
  {
  }

  lemma {:induction false} SumOfScaled(f: EtaRow -> real, g: EtaRow -> real, t: real, rows: seq<EtaRow>)
    requires t > 0.0 && forall r :: r in rows ==> f(r) == g(r) / t
    ensures SumOf(f, rows) == SumOf(g, rows) / t
  {
    if rows != [] {
      SumOfScaled(f, g, t, rows[..|rows| - 1]);
      assert rows[|rows| - 1] in rows;
      QuotientSum(SumOf(g, rows[..|rows| - 1]), g(rows[|rows| - 1]), t);
    }
  }

  lemma OwnShareScaled(rowsFor: RouteKey -> seq<EtaRow>, stopId: string, now: int, base: seq<EtaRow>, r: EtaRow, total: real)
    requires UniqueKeys(base) && SameRowsAt(rowsFor, stopId, base) && r in base
    requires total > 0.0 && total == SumOf(LiveWeight(now), base)
    ensures OwnShare(rowsFor, stopId, now)(r) == LiveWeight(now)(r) / total
  {
    if IsLive(r, now) {
      OwnShareFormula(rowsFor, stopId, now, base, r);
    } else {
      assert 0.0 / total == 0.0;
    }
  }

  /** The shares that the live routes at a stop compute in their separate calls add up to exactly one. */
  lemma SharesAddToOne(rowsFor: RouteKey -> seq<EtaRow>, stopId: string, now: int, base: seq<EtaRow>)
    requires UniqueKeys(base) && SameRowsAt(rowsFor, stopId, base)
    requires exists r :: r in base && IsLive(r, now)
    ensures SumOf(OwnShare(rowsFor, stopId, now), base) == 1.0
  {
    var own, weight := OwnShare(rowsFor, stopId, now), LiveWeight(now);
    var total := SumOf(weight, base);
    var live :| live in base && IsLive(live, now);
    OwnShareFormula(rowsFor, stopId, now, base, live);
    forall r | r in base ensures own(r) == weight(r) / total {
      OwnShareScaled(rowsFor, stopId, now, base, r, total);
    }
    SumOfScaled(own, weight, total, base);
    SelfQuotient(total);
  }

  // Routes without a live arrival

  lemma {:induction false} LiveMisses(rows: seq<EtaRow>, now: int, key: RouteKey)
    requires forall r :: r in rows && r.key == key ==> !IsLive(r, now)
    ensures Find(Live(EtasOf(rows), now), key).None?
  {
    if rows != [] {
      var last := rows[|rows| - 1];
      assert last in rows;
      LiveOneMore(rows, now);
      WeightsOneMore(Live(EtasOf(rows[..|rows| - 1]), now), Eta(last.key, RelativeEta(last.arrival, now)));
      LiveMisses(rows[..|rows| - 1], now, key);
    }
  }

  /** A route with no live arrival at the stop is not split at all: it is shown the whole crowd. */
  lemma NotLiveTakesAll(rows: seq<EtaRow>, stopId: string, now: int, key: RouteKey)
    requires UniqueKeys(AtStop(rows, stopId))
    requires forall r :: r in AtStop(rows, stopId) && r.key == key ==> !IsLive(r, now)
    ensures ShareAt(rows, stopId, key, now) == 1.0
  {
    EntriesAreRows(rows, stopId);
    LiveMisses(AtStop(rows, stopId), now, key);
  }

  /** The share that a route computes in its own call, whether it has a row at the stop or not. */
  function ShareOf(rowsFor: RouteKey -> seq<EtaRow>, stopId: string, now: int): RouteKey -> real {
    (key: RouteKey) => ShareAt(rowsFor(key), stopId, key, now)
  }

  function SumOver(f: RouteKey -> real, keys: seq<RouteKey>): real {
    if keys == [] then 0.0 else SumOver(f, keys[..|keys| - 1]) + f(keys[|keys| - 1])
  }

  /** The route has a live row among these. */
  predicate HasLive(rows: seq<EtaRow>, key: RouteKey, now: int) {
    exists r :: r in rows && r.key == key && IsLive(r, now)
  }

  /** How many of the routes have no live row: their arrival has passed, or the feed has none at all. */
  function NotLive(rows: seq<EtaRow>, keys: seq<RouteKey>, now: int): nat {
    if keys == [] then 0
    else NotLive(rows, keys[..|keys| - 1], now) + if HasLive(rows, keys[|keys| - 1], now) then 0 else 1
  }

  // A sum over rows is a sum over keys

  /** What the rows with this key add up to. */
  function SumWithKey(f: EtaRow -> real, rows: seq<EtaRow>): RouteKey -> real {
    (key: RouteKey) => SumOf(OfKey(f, key), rows)
  }

  function OfKey(f: EtaRow -> real, key: RouteKey): EtaRow -> real {
    (r: EtaRow) => if r.key == key then f(r) else 0.0
  }

  lemma {:induction false} SumOfNothing(f: EtaRow -> real, rows: seq<EtaRow>)
    requires forall r :: r in rows ==> f(r) == 0.0
    ensures SumOf(f, rows) == 0.0
  {
    if rows != [] {
      assert rows[|rows| - 1] in rows;
      SumOfNothing(f, rows[..|rows| - 1]);
    }
  }

  lemma {:induction false} SumOfOnlyOne(f: EtaRow -> real, rows: seq<EtaRow>, k: nat)
    requires k < |rows| && forall j :: 0 <= j < |rows| && j != k ==> f(rows[j]) == 0.0
    ensures SumOf(f, rows) == f(rows[k])
  {
    var fewer := rows[..|rows| - 1];
    if k == |rows| - 1 {
      forall r | r in fewer ensures f(r) == 0.0 {
        var j :| 0 <= j < |fewer| && fewer[j] == r;
        assert rows[j] == r;
      }
      SumOfNothing(f, fewer);
    } else {
      SumOfOnlyOne(f, fewer, k);
    }
  }

  /** Adding one row raises the sum at its key alone. */
  lemma {:induction false} SumOverRaised(f: RouteKey -> real, g: RouteKey -> real, key: RouteKey, x: real, keys: seq<RouteKey>)
    requires forall k :: g(k) == f(k) + if k == key then x else 0.0
    requires NoDuplicates(keys)
    ensures SumOver(g, keys) == SumOver(f, keys) + if key in keys then x else 0.0
  {
    if keys != [] {
      SumOverRaised(f, g, key, x, keys[..|keys| - 1]);
      TakeOneMore(keys, |keys| - 1);
      FullSlices(keys);
    }
  }

  lemma {:induction false} SumOverNothing(f: RouteKey -> real, keys: seq<RouteKey>)
    requires forall k :: f(k) == 0.0
    ensures SumOver(f, keys) == 0.0
  {
    if keys != [] {
      SumOverNothing(f, keys[..|keys| - 1]);
    }
  }

  lemma {:induction false} SumByKeys(f: EtaRow -> real, rows: seq<EtaRow>, keys: seq<RouteKey>)
    requires NoDuplicates(keys) && forall r :: r in rows ==> r.key in keys
    ensures SumOver(SumWithKey(f, rows), keys) == SumOf(f, rows)
  {
    if rows == [] {
      SumOverNothing(SumWithKey(f, rows), keys);
    } else {
      var fewer, r := rows[..|rows| - 1], rows[|rows| - 1];
      assert r in rows;
      SumByKeys(f, fewer, keys);
      SumOverRaised(SumWithKey(f, fewer), SumWithKey(f, rows), r.key, f(r), keys);
    }
  }

  /** A route's share is what its live row is given, or the whole if it has none. */
  lemma ShareOfIs(rowsFor: RouteKey -> seq<EtaRow>, stopId: string, now: int, base: seq<EtaRow>, key: RouteKey)
    requires UniqueKeys(base) && SameRowsAt(rowsFor, stopId, base)
    ensures ShareOf(rowsFor, stopId, now)(key)
            == SumWithKey(OwnShare(rowsFor, stopId, now), base)(key) + if HasLive(base, key, now) then 0.0 else 1.0
  {
    var own := OwnShare(rowsFor, stopId, now);
    if HasLive(base, key, now) {
      var r :| r in base && r.key == key && IsLive(r, now);
      var k :| 0 <= k < |base| && base[k] == r;
      SumOfOnlyOne(OfKey(own, key), base, k);
    } else {
      var here := AtStop(rowsFor(key), stopId);
      assert multiset(here) == multiset(base);
      UniqueKeysPermute(base, here);
      SameMembers(base, here);
      NotLiveTakesAll(rowsFor(key), stopId, now, key);
      SumOfNothing(OfKey(own, key), base);
    }
  }

  lemma {:induction false} SumOverSplit(f: RouteKey -> real, g: RouteKey -> real, base: seq<EtaRow>, now: int, keys: seq<RouteKey>)
    requires forall key :: f(key) == g(key) + if HasLive(base, key, now) then 0.0 else 1.0
    ensures SumOver(f, keys) == SumOver(g, keys) + NotLive(base, keys, now) as real
  {
    if keys != [] {
      SumOverSplit(f, g, base, now, keys[..|keys| - 1]);
    }
  }

  lemma {:induction false} CountNotLive(base: seq<EtaRow>, keys: seq<RouteKey>, now: int)
    ensures NotLive(base, keys, now) <= |keys|
    ensures NotLive(base, keys, now) == 0 <==> forall key :: key in keys ==> HasLive(base, key, now)
    ensures NotLive(base, keys, now) == |keys| <==> forall key :: key in keys ==> !HasLive(base, key, now)
  {
    if keys != [] {
      var fewer := keys[..|keys| - 1];
      CountNotLive(base, fewer, now);
      TakeOneMore(keys, |keys| - 1);
      FullSlices(keys);
      assert forall key :: key in keys <==> key in fewer || key == keys[|keys| - 1];
    }
  }

  /**
   Over all routes that call at the stop, each one without a live row counts the whole crowd once more, and
   the live ones share it. So the shares add up to one exactly when every route has a live row, or there is
   only one route.
   */
  lemma AllSharesTotal(rowsFor: RouteKey -> seq<EtaRow>, stopId: string, now: int, base: seq<EtaRow>, keys: seq<RouteKey>)
    requires UniqueKeys(base) && SameRowsAt(rowsFor, stopId, base)
    requires NoDuplicates(keys) && forall r :: r in base ==> r.key in keys
    ensures var total := SumOver(ShareOf(rowsFor, stopId, now), keys);
            && total == (NotLive(base, keys, now) + if exists r :: r in base && IsLive(r, now) then 1 else 0) as real
            && (total == 1.0 <==> keys != [] && ((forall key :: key in keys ==> HasLive(base, key, now)) || |keys| == 1))
  {
    var own := OwnShare(rowsFor, stopId, now);
    forall key
      ensures ShareOf(rowsFor, stopId, now)(key) == SumWithKey(own, base)(key) + if HasLive(base, key, now) then 0.0 else 1.0
    {
      ShareOfIs(rowsFor, stopId, now, base, key);
    }
    SumOverSplit(ShareOf(rowsFor, stopId, now), SumWithKey(own, base), base, now, keys);
    SumByKeys(own, base, keys);
    CountNotLive(base, keys, now);
    if exists r :: r in base && IsLive(r, now) {
      SharesAddToOne(rowsFor, stopId, now, base);
      var r :| r in base && IsLive(r, now);
      assert HasLive(base, r.key, now);
    } else {
      SumOfNothing(own, base);
    }
  }

  // Order of the shares

  lemma QuotientOrder(a: real, b: real, t: real)
    requires 0.0 < a <= t && 0.0 < b <= t
    ensures 0.0 < a / t <= 1.0 && (a / t >= b / t <==> a >= b)
  {
    assert a / t * t == a && b / t * t == b;
  }

  lemma Reciprocal(x: real)
    requires x > 0.0
    ensures 1.0 / x > 0.0 && 1.0 / x * x == 1.0
  {
  }

  lemma Products(p: real, q: real, x: real, y: real)
    requires 0.0 < p <= q && 0.0 < x < y
    ensures p * x < q * y
  {
    ProductNonNegative(q - p, x);
    ProductNonNegative(q, y - x);
    assert (q - p) * x == q * x - p * x;
    assert q * (y - x) == q * y - q * x;
  }

  lemma ReciprocalOrder(x: real, y: real)
    requires x > 0.0 && y > 0.0
    ensures x < y ==> 1.0 / y < 1.0 / x
  {
    Reciprocal(x);
    Reciprocal(y);
    if x < y && 1.0 / x <= 1.0 / y {
      Products(1.0 / x, 1.0 / y, x, y);
    }
  }

  lemma WeightOrder(a: int, b: int)
    ensures Weight(a) >= Weight(b) <==> Max(a, MIN_ETA) <= Max(b, MIN_ETA)
  {
    ReciprocalOrder(Max(a, MIN_ETA) as real, Max(b, MIN_ETA) as real);
    ReciprocalOrder(Max(b, MIN_ETA) as real, Max(a, MIN_ETA) as real);
  }

  function TimesSeconds(share: real, seconds: int): real {
    share * Max(seconds, MIN_ETA) as real
  }

  lemma PartTimesSeconds(share: real, seconds: int, total: real)
    requires total > 0.0 && share == Weight(seconds) / total
    ensures TimesSeconds(share, seconds) == 1.0 / total
  {
    var m := Max(seconds, MIN_ETA) as real;
    assert Weight(seconds) * m == 1.0;
  }

  lemma ShareTimesSeconds(rowsFor: RouteKey -> seq<EtaRow>, stopId: string, now: int, base: seq<EtaRow>, r: EtaRow, total: real)
    requires UniqueKeys(base) && SameRowsAt(rowsFor, stopId, base) && r in base && IsLive(r, now)
    requires total == SumOf(LiveWeight(now), base)
    ensures total > 0.0
    ensures TimesSeconds(OwnShare(rowsFor, stopId, now)(r), RelativeEta(r.arrival, now)) == 1.0 / total
  {
    OwnShareFormula(rowsFor, stopId, now, base, r);
    PartTimesSeconds(OwnShare(rowsFor, stopId, now)(r), RelativeEta(r.arrival, now), total);
  }

  /** Shares are inversely proportional to arrival times, raised to the floor of 30 seconds. */
  lemma InverselyProportional(rowsFor: RouteKey -> seq<EtaRow>, stopId: string, now: int, base: seq<EtaRow>, a: EtaRow, b: EtaRow)
    requires UniqueKeys(base) && SameRowsAt(rowsFor, stopId, base)
    requires a in base && b in base && IsLive(a, now) && IsLive(b, now)
    ensures var own := OwnShare(rowsFor, stopId, now);
            TimesSeconds(own(a), RelativeEta(a.arrival, now)) == TimesSeconds(own(b), RelativeEta(b.arrival, now))
  {
    var total := SumOf(LiveWeight(now), base);
    ShareTimesSeconds(rowsFor, stopId, now, base, a, total);
    ShareTimesSeconds(rowsFor, stopId, now, base, b, total);
  }

  /**
   Every live route gets a positive share of at most one, and one share is at least another exactly when
   its arrival, raised to the floor of 30 seconds, is no later: a later arrival never gets a larger share.
   */
  lemma EarlierGetsMore(rowsFor: RouteKey -> seq<EtaRow>, stopId: string, now: int, base: seq<EtaRow>, a: EtaRow, b: EtaRow)
    requires UniqueKeys(base) && SameRowsAt(rowsFor, stopId, base)
    requires a in base && b in base && IsLive(a, now) && IsLive(b, now)
    ensures var own := OwnShare(rowsFor, stopId, now);
            && 0.0 < own(a) <= 1.0
            && (own(a) >= own(b) <==>
                Max(RelativeEta(a.arrival, now), MIN_ETA) <= Max(RelativeEta(b.arrival, now), MIN_ETA))
  {
    OwnShareFormula(rowsFor, stopId, now, base, a);
    OwnShareFormula(rowsFor, stopId, now, base, b);
    QuotientOrder(LiveWeight(now)(a), LiveWeight(now)(b), SumOf(LiveWeight(now), base));
    WeightOrder(RelativeEta(a.arrival, now), RelativeEta(b.arrival, now));
  }

  // What the arrivals say, on the clock

  /**
   The arrival, a time of day, is e seconds after now: as it stands if it is within half a day, and on the
   day before if it lies further ahead, so that a bus just before midnight is not taken for tomorrow's.
   */
  ghost predicate ArrivesIn(arrival: int, now: int, e: int) {
    && e > 0
    && ((arrival - now <= 43200 && e == arrival - now) || (arrival - now > 43200 && e == arrival - now - 86400))
  }

  /** A row counts exactly when its bus arrives within half a day, or past midnight by its own clock. */
  lemma LiveExactlyWhen(r: EtaRow, now: int)
    ensures IsLive(r, now) <==> 0 < r.arrival - now <= 43200 || r.arrival - now > 86400
    ensures forall e :: ArrivesIn(r.arrival, now, e) <==> IsLive(r, now) && e == RelativeEta(r.arrival, now)
  {
  }

  /** The rows that count for a stop are the query's rows for it, each as often as it was returned. */
  lemma {:induction false} AtStopKeeps(rows: seq<EtaRow>, stopId: string, r: EtaRow)
    ensures multiset(AtStop(rows, stopId))[r] == if r.stopId == stopId then multiset(rows)[r] else 0
  {
    if rows != [] {
      AtStopKeeps(rows[..|rows| - 1], stopId, r);
      TakeOneMore(rows, |rows| - 1);
      FullSlices(rows);
    }
  }

  /** One route's own call, for a bus that arrives in so many seconds, which count as 30 if they are fewer. */
  lemma ShareOnTheClock(rowsFor: RouteKey -> seq<EtaRow>, stopId: string, now: int, r: EtaRow, until: int, seconds: int)
    requires ArrivesIn(r.arrival, now, until) && seconds == if until < 30 then 30 else until
    ensures IsLive(r, now) && seconds == Max(RelativeEta(r.arrival, now), MIN_ETA)
    ensures var share := ShareAt(rowsFor(r.key), stopId, r.key, now);
            && share == OwnShare(rowsFor, stopId, now)(r)
            && share * seconds as real == TimesSeconds(OwnShare(rowsFor, stopId, now)(r), RelativeEta(r.arrival, now))
  {
  }

  /**
   Two routes that both still arrive at a stop, in their separate calls: each share is positive and at most
   one, the sooner arrival never gets less, arrivals within 30 seconds count as 30 and get the same, and
   shares are inversely proportional to the seconds until arrival.
   */
  lemma SharesByArrival(rowsFor: RouteKey -> seq<EtaRow>, stopId: string, now: int, base: seq<EtaRow>,
                        a: EtaRow, b: EtaRow, untilA: int, untilB: int, secondsA: int, secondsB: int)
    requires UniqueKeys(base) && SameRowsAt(rowsFor, stopId, base) && a in base && b in base
    requires ArrivesIn(a.arrival, now, untilA) && secondsA == if untilA < 30 then 30 else untilA
    requires ArrivesIn(b.arrival, now, untilB) && secondsB == if untilB < 30 then 30 else untilB
    ensures var shareA, shareB := ShareAt(rowsFor(a.key), stopId, a.key, now), ShareAt(rowsFor(b.key), stopId, b.key, now);
            && 0.0 < shareA <= 1.0
            && (shareA >= shareB <==> secondsA <= secondsB)
            && shareA * secondsA as real == shareB * secondsB as real
  {
    ShareOnTheClock(rowsFor, stopId, now, a, untilA, secondsA);
    ShareOnTheClock(rowsFor, stopId, now, b, untilB, secondsB);
    EarlierGetsMore(rowsFor, stopId, now, base, a, b);
    InverselyProportional(rowsFor, stopId, now, base, a, b);
  }

  /** A route whose every row at the stop has gone by, or that has none, is shown the whole crowd. */
  lemma GoneTakesAll(rowsFor: RouteKey -> seq<EtaRow>, stopId: string, now: int, base: seq<EtaRow>, key: RouteKey)
    requires UniqueKeys(base) && SameRowsAt(rowsFor, stopId, base)
    requires forall r :: r in base && r.key == key ==> r.arrival <= now || now + 43200 < r.arrival <= now + 86400
    ensures ShareAt(rowsFor(key), stopId, key, now) == 1.0
  {
    var here := AtStop(rowsFor(key), stopId);
    assert multiset(here) == multiset(base);
    UniqueKeysPermute(base, here);
    SameMembers(base, here);
    forall r | r in here && r.key == key ensures !IsLive(r, now) {
      LiveExactlyWhen(r, now);
    }
    NotLiveTakesAll(rowsFor(key), stopId, now, key);
  }

  // Repeated rows

  lemma {:induction false} FindReplaced(etas: seq<Eta>, e: Eta, key: RouteKey)
    ensures Find(Replace(etas, e), key) == if Find(etas, key).Some? && key == e.key then Some(e.seconds) else Find(etas, key)
  {
    if etas != [] {
      var n := |etas| - 1;
      assert Replace(etas, e)[..n] == Replace(etas[..n], e);
      FindReplaced(etas[..n], e, key);
    }
  }

  lemma FindPut(etas: seq<Eta>, e: Eta, key: RouteKey)
    ensures Find(Put(etas, e), key) == if key == e.key then Some(e.seconds) else Find(etas, key)
  {
    if Find(etas, e.key).Some? {
      FindReplaced(etas, e, key);
    } else {
      WeightsOneMore(etas, e);
    }
  }

  /** No row of the route for the stop from index k on. */
  ghost predicate NoneFrom(rows: seq<EtaRow>, stopId: string, key: RouteKey, k: nat) {
    forall j :: k <= j < |rows| ==> !(rows[j].stopId == stopId && rows[j].key == key)
  }

  /** The last row of a route at a stop is the one that counts, however often the query repeats it. */
  lemma {:induction false} LastRowCounts(rows: seq<EtaRow>, stopId: string, key: RouteKey, k: nat)
    requires k < |rows| && rows[k].stopId == stopId && rows[k].key == key && NoneFrom(rows, stopId, key, k + 1)
    ensures Find(EntriesAt(rows, stopId), key) == Some(rows[k].arrival)
  {
    var fewer, r := rows[..|rows| - 1], rows[|rows| - 1];
    if r.stopId == stopId {
      FindPut(EntriesAt(fewer, stopId), Eta(r.key, r.arrival), key);
    }
    if k < |fewer| {
      LastRowCounts(fewer, stopId, key, k);
    }
  }

  lemma {:induction false} NoRowNoEntry(rows: seq<EtaRow>, stopId: string, key: RouteKey)
    requires NoneFrom(rows, stopId, key, 0)
    ensures Find(EntriesAt(rows, stopId), key).None?
  {
    if rows != [] {
      var fewer, r := rows[..|rows| - 1], rows[|rows| - 1];
      NoRowNoEntry(fewer, stopId, key);
      if r.stopId == stopId {
        FindPut(EntriesAt(fewer, stopId), Eta(r.key, r.arrival), key);
      }
    }
  }

  // Rounded counts

  /** The count a live route's snapshot shows for the stop, and nothing for the others. */
  function OwnCount(rowsFor: RouteKey -> seq<EtaRow>, stopId: string, now: int, raw: int): EtaRow -> int {
    LiveCount(raw, OwnShare(rowsFor, stopId, now), now)
  }

  function LiveCount(raw: int, own: EtaRow -> real, now: int): EtaRow -> int {
    (r: EtaRow) => if IsLive(r, now) then Share(raw, own(r)) else 0
  }

  function SumCounts(f: EtaRow -> int, rows: seq<EtaRow>): int {
    if rows == [] then 0 else SumCounts(f, rows[..|rows| - 1]) + f(rows[|rows| - 1])
  }

  ghost predicate WithinHalves(x: real, n: int, halves: nat) {
    x - halves as real / 2.0 <= n as real <= x + halves as real / 2.0
  }

  lemma ShareNearProduct(n: int, fraction: real)
    ensures WithinHalves(n as real * fraction, Share(n, fraction), 1)
  {
    NearestEvenUnique(n as real * fraction, Share(n, fraction));
  }

  lemma Distributes(n: real, a: real, b: real)
    ensures n * (a + b) == n * a + n * b
  {
  }

  /** The product that is rounded for a row. */
  function Times(n: real, f: EtaRow -> real): EtaRow -> real {
    (r: EtaRow) => n * f(r)
  }

  lemma {:induction false} SumOfTimes(n: real, f: EtaRow -> real, rows: seq<EtaRow>)
    ensures SumOf(Times(n, f), rows) == n * SumOf(f, rows)
  {
    if rows == [] {
      assert n * 0.0 == 0.0;
    } else {
      SumOfTimes(n, f, rows[..|rows| - 1]);
      Distributes(n, SumOf(f, rows[..|rows| - 1]), f(rows[|rows| - 1]));
    }
  }

  lemma SumCountsOneMore(f: EtaRow -> int, rows: seq<EtaRow>, r: EtaRow)
    ensures SumCounts(f, rows + [r]) == SumCounts(f, rows) + f(r)
  {
    assert (rows + [r])[..|rows|] == rows;
  }

  lemma LiveRoutesOneMore(rows: seq<EtaRow>, r: EtaRow, now: int)
    ensures LiveRoutes(rows + [r], now) == LiveRoutes(rows, now) + if IsLive(r, now) then 1 else 0
  {
    assert (rows + [r])[..|rows|] == rows;
  }

  /** Integers that are each within half of a live row's number, and 0 for the others. */
  ghost predicate EachWithinHalf(f: EtaRow -> real, counts: EtaRow -> int, now: int) {
    forall r :: if IsLive(r, now) then WithinHalves(f(r), counts(r), 1) else f(r) == 0.0 && counts(r) == 0
  }

  lemma {:induction false} CountsNearSum(f: EtaRow -> real, counts: EtaRow -> int, now: int, rows: seq<EtaRow>)
    requires EachWithinHalf(f, counts, now)
    ensures WithinHalves(SumOf(f, rows), SumCounts(counts, rows), LiveRoutes(rows, now))
  {
    if rows != [] {
      var fewer, r := rows[..|rows| - 1], rows[|rows| - 1];
      CountsNearSum(f, counts, now, fewer);
      TakeOneMore(rows, |rows| - 1);
      FullSlices(rows);
      SumOfOneMore(f, fewer, r);
      SumCountsOneMore(counts, fewer, r);
      LiveRoutesOneMore(fewer, r, now);
    }
  }

  lemma CountNearProduct(n: int, share: real, count: int, live: bool)
    requires if live then count == Share(n, share) else count == 0 && share == 0.0
    ensures if live then WithinHalves(n as real * share, count, 1) else n as real * share == 0.0
  {
    if live {
      ShareNearProduct(n, share);
    }
  }

  lemma CountsNearShares(raw: int, own: EtaRow -> real, now: int)
    requires forall r :: !IsLive(r, now) ==> own(r) == 0.0
    ensures EachWithinHalf(Times(raw as real, own), LiveCount(raw, own, now), now)
  {
    var products, counts := Times(raw as real, own), LiveCount(raw, own, now);
    forall r: EtaRow
      ensures if IsLive(r, now) then WithinHalves(products(r), counts(r), 1) else products(r) == 0.0 && counts(r) == 0
    {
      CountNearProduct(raw, own(r), counts(r), IsLive(r, now));
    }
  }

  lemma UnitShares(raw: int, own: EtaRow -> real, now: int, rows: seq<EtaRow>)
    requires (forall r :: !IsLive(r, now) ==> own(r) == 0.0) && SumOf(own, rows) == 1.0
    ensures WithinHalves(raw as real, SumCounts(LiveCount(raw, own, now), rows), LiveRoutes(rows, now))
  {
    CountsNearShares(raw, own, now);
    CountsNearSum(Times(raw as real, own), LiveCount(raw, own, now), now, rows);
    SumOfTimes(raw as real, own, rows);
    assert raw as real * 1.0 == raw as real;
  }

  /**
   The rounded counts of the live routes add up to the raw count to within half a passenger per live
   route, and no route is shown more than the raw count or less than nobody.
   */
  lemma RoundedCountsAddUp(rowsFor: RouteKey -> seq<EtaRow>, stopId: string, now: int, base: seq<EtaRow>, raw: nat)
    requires UniqueKeys(base) && SameRowsAt(rowsFor, stopId, base)
    requires exists r :: r in base && IsLive(r, now)
    ensures WithinHalves(raw as real, SumCounts(OwnCount(rowsFor, stopId, now, raw), base), LiveRoutes(base, now))
    ensures forall r :: r in base ==> 0 <= OwnCount(rowsFor, stopId, now, raw)(r) <= raw
  {
    SharesAddToOne(rowsFor, stopId, now, base);
    UnitShares(raw, OwnShare(rowsFor, stopId, now), now, base);
    forall r | r in base ensures 0 <= OwnCount(rowsFor, stopId, now, raw)(r) <= raw {
      CountInRange(rowsFor, stopId, now, base, raw, r);
    }
  }

  lemma CountInRange(rowsFor: RouteKey -> seq<EtaRow>, stopId: string, now: int, base: seq<EtaRow>, raw: nat, r: EtaRow)
    requires UniqueKeys(base) && SameRowsAt(rowsFor, stopId, base) && r in base
    ensures 0 <= OwnCount(rowsFor, stopId, now, raw)(r) <= raw
  {
    if IsLive(r, now) {
      EarlierGetsMore(rowsFor, stopId, now, base, r, r);
      ShareRange(raw, OwnShare(rowsFor, stopId, now)(r));
    }
  }
}
