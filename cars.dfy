/** Catalog entries and the seat/range filter that selects the candidates. */
module Cars {

  /** One catalog entry. `kind` is the car's `type` ("electric", "hybrid",
      "suv", ...); `range` is in kilometres. */
  datatype Car = Car(name: string, kind: string, range: real, seats: int)

  /** The filter predicate: enough seats and enough range, both bounds inclusive. */
  predicate Suitable(car: Car, minSeats: int, totalDistance: real) {
    car.seats >= minSeats && car.range >= totalDistance
  }

  /** The cars of `catalog` that pass the filter, in catalog order. */
  function Candidates(catalog: seq<Car>, minSeats: int, totalDistance: real): (r: seq<Car>)
    ensures |r| <= |catalog|
  {
    if catalog == [] then []
    else
      var rest := Candidates(catalog[1..], minSeats, totalDistance);
      if Suitable(catalog[0], minSeats, totalDistance) then [catalog[0]] + rest else rest
  }

  /** A car is a candidate iff it is in the catalog and passes the filter. */
  lemma {:induction false} CandidatesMembers(catalog: seq<Car>, minSeats: int, totalDistance: real, c: Car)
    ensures c in Candidates(catalog, minSeats, totalDistance) <==> c in catalog && Suitable(c, minSeats, totalDistance)
  {
    if catalog != [] {
      CandidatesMembers(catalog[1..], minSeats, totalDistance, c);
      assert c in catalog <==> c == catalog[0] || c in catalog[1..];
    }
  }

  /** `idx` lists positions below `n` in strictly increasing order. */
  ghost predicate IncreasingIndices(idx: seq<int>, n: int) {
    (forall k :: 0 <= k < |idx| ==> 0 <= idx[k] < n) &&
    (forall k, l :: 0 <= k < l < |idx| ==> idx[k] < idx[l])
  }

  /** The catalog positions of the candidates, in increasing order, counted
      from `base`. */
  ghost function Positions(catalog: seq<Car>, minSeats: int, totalDistance: real, base: int): (idx: seq<int>)
    ensures |idx| == |Candidates(catalog, minSeats, totalDistance)|
  {
    if catalog == [] then []
    else
      var rest := Positions(catalog[1..], minSeats, totalDistance, base + 1);
      if Suitable(catalog[0], minSeats, totalDistance) then [base] + rest else rest
  }

  lemma {:induction false} PositionsBounds(catalog: seq<Car>, minSeats: int, totalDistance: real, base: int)
    ensures forall k :: 0 <= k < |Positions(catalog, minSeats, totalDistance, base)| ==>
      base <= Positions(catalog, minSeats, totalDistance, base)[k] < base + |catalog|
    ensures forall k, l :: 0 <= k < l < |Positions(catalog, minSeats, totalDistance, base)| ==>
      Positions(catalog, minSeats, totalDistance, base)[k] < Positions(catalog, minSeats, totalDistance, base)[l]
  {
    if catalog != [] {
      PositionsBounds(catalog[1..], minSeats, totalDistance, base + 1);
    }
  }

  lemma {:induction false} PositionsPick(catalog: seq<Car>, minSeats: int, totalDistance: real, base: int, k: int)
    requires 0 <= k < |Positions(catalog, minSeats, totalDistance, base)|
    ensures 0 <= Positions(catalog, minSeats, totalDistance, base)[k] - base < |catalog|
    ensures Candidates(catalog, minSeats, totalDistance)[k] == catalog[Positions(catalog, minSeats, totalDistance, base)[k] - base]
  {
    var rest := Positions(catalog[1..], minSeats, totalDistance, base + 1);
    PositionsBounds(catalog, minSeats, totalDistance, base);
    if Suitable(catalog[0], minSeats, totalDistance) {
      if k > 0 { PositionsPick(catalog[1..], minSeats, totalDistance, base + 1, k - 1); }
    } else {
      PositionsPick(catalog[1..], minSeats, totalDistance, base + 1, k);
    }
  }

  lemma {:induction false} PositionsComplete(catalog: seq<Car>, minSeats: int, totalDistance: real, base: int, i: int)
    requires 0 <= i < |catalog|
    ensures i + base in Positions(catalog, minSeats, totalDistance, base) <==> Suitable(catalog[i], minSeats, totalDistance)
  {
    var rest := Positions(catalog[1..], minSeats, totalDistance, base + 1);
    PositionsBounds(catalog[1..], minSeats, totalDistance, base + 1);
    assert base !in rest;
    if i > 0 {
      PositionsComplete(catalog[1..], minSeats, totalDistance, base + 1, i - 1);
      assert catalog[1..][i - 1] == catalog[i];
    }
  }

  /** The candidates are exactly the suitable catalog entries, taken at increasing
      catalog positions: a subsequence of the catalog that misses no suitable entry. */
  lemma CandidatesKeepCatalogOrder(catalog: seq<Car>, minSeats: int, totalDistance: real)
    returns (idx: seq<int>)
    ensures |idx| == |Candidates(catalog, minSeats, totalDistance)|
    ensures IncreasingIndices(idx, |catalog|)
    ensures forall k :: 0 <= k < |idx| ==> Candidates(catalog, minSeats, totalDistance)[k] == catalog[idx[k]]
    ensures forall i :: 0 <= i < |catalog| ==> (i in idx <==> Suitable(catalog[i], minSeats, totalDistance))
  {
    idx := Positions(catalog, minSeats, totalDistance, 0);
    PositionsBounds(catalog, minSeats, totalDistance, 0);
    forall k | 0 <= k < |idx| ensures Candidates(catalog, minSeats, totalDistance)[k] == catalog[idx[k]] {
      PositionsPick(catalog, minSeats, totalDistance, 0, k);
    }
    forall i | 0 <= i < |catalog| ensures i in idx <==> Suitable(catalog[i], minSeats, totalDistance) {
      PositionsComplete(catalog, minSeats, totalDistance, 0, i);
    }
  }

  /** Raising `minSeats` or `totalDistance` only narrows the candidate list:
      filtering the wider list again by the stricter bounds gives the narrower
      list, which is therefore never longer. */
  lemma {:induction false} CandidatesNarrow(catalog: seq<Car>, m1: int, t1: real, m2: int, t2: real)
    requires m1 <= m2 && t1 <= t2
    ensures Candidates(Candidates(catalog, m1, t1), m2, t2) == Candidates(catalog, m2, t2)
    ensures |Candidates(catalog, m2, t2)| <= |Candidates(catalog, m1, t1)|
  {
    if catalog != [] {
      CandidatesNarrow(catalog[1..], m1, t1, m2, t2);
      var wide := Candidates(catalog[1..], m1, t1);
      if Suitable(catalog[0], m1, t1) {
        assert ([catalog[0]] + wide)[1..] == wide;
      }
    }
  }
}
