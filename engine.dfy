/** The recommendation engine: from three points and the user's preferences to
    a primary car, a runner-up, a price estimate, a carbon rating and a summary,
    or one of two failures. `Recommend` is the definition; `RecommendVehicles`
    computes the same result, ranking the candidates in an array in place. */
module Engine {
  import opened Cars
  import opened Ranking
  import opened Report

  datatype Option<T> = None | Some(value: T)

  /** A coordinate pair in decimal degrees. */
  datatype Point = Point(lat: real, lng: real)

  datatype Habits = Habits(hasKids: bool, trunkPreference: bool)

  /** A request; a point the caller did not supply is `None`. */
  datatype Input = Input(house: Option<Point>, workplace: Option<Point>, holiday: Option<Point>,
                         minSeats: int, habits: Habits)

  datatype PriceBreakdown = PriceBreakdown(primary: real, runnerUp: real)

  datatype Recommendation = Recommendation(primary: Car, runnerUp: Car, summary: string,
                                           priceBreakdown: PriceBreakdown, carbonRating: int)

  datatype Failure = InsufficientLocationData | NoSuitableVehicle

  datatype Result<T> = Ok(value: T) | Err(error: Failure)

  /** What the engine takes from its host and does not model: the great-circle
      distance in kilometres between two points, `toFixed(2)` and the default
      rendering of a number as text. */
  datatype Host = Host(distance: (Point, Point) -> real, toFixed2: real -> string, show: real -> string)

  /** The text each failure carries to the user. */
  function Message(f: Failure): string {
    match f
    case InsufficientLocationData => "Not enough location data to provide a recommendation."
    case NoSuitableVehicle =>
      "Not enough data to provide a reliable suggestion based on your region or requirements."
  }

  predicate HasAllPoints(input: Input) {
    input.house.Some? && input.workplace.Some? && input.holiday.Some?
  }

  /** Distance from the house to the workplace. */
  function CommuteDistance(input: Input, host: Host): real
    requires HasAllPoints(input)
  {
    host.distance(input.house.value, input.workplace.value)
  }

  /** Distance from the house (not the workplace) to the holiday destination. */
  function HolidayDistance(input: Input, host: Host): real
    requires HasAllPoints(input)
  {
    host.distance(input.house.value, input.holiday.value)
  }

  /** The range a car must cover: commute and holiday trip together. */
  function TotalDistance(input: Input, host: Host): real
    requires HasAllPoints(input)
  {
    CommuteDistance(input, host) + HolidayDistance(input, host)
  }

  /** The candidates for a request with all three points. */
  function CandidatesFor(catalog: seq<Car>, input: Input, host: Host): seq<Car>
    requires HasAllPoints(input)
  {
    Candidates(catalog, input.minSeats, TotalDistance(input, host))
  }

  /** The second ranked car, or the first when it is the only one. */
  function RunnerUpOf(ranked: seq<Car>): (c: Car)
    requires ranked != []
    ensures c in ranked
    ensures |ranked| == 1 ==> c == ranked[0]
  {
    if |ranked| > 1 then ranked[1] else ranked[0]
  }

  function Recommend(catalog: seq<Car>, input: Input, host: Host): Result<Recommendation>
  {
    if !HasAllPoints(input) then Err(InsufficientLocationData)
    else
      var commute := CommuteDistance(input, host);
      var holiday := HolidayDistance(input, host);
      var total := commute + holiday;
      var candidates := Candidates(catalog, input.minSeats, total);
      if |candidates| == 0 then Err(NoSuitableVehicle)
      else
        RankedPermutes(candidates);
        var ranked := Ranked(candidates);
        var primary := ranked[0];
        var runnerUp := RunnerUpOf(ranked);
        Ok(Recommendation(
             primary, runnerUp,
             Summary(commute, holiday, total, primary, input.minSeats, runnerUp,
                     input.habits.hasKids, input.habits.trunkPreference, host.toFixed2, host.show),
             PriceBreakdown(PrimaryCost(total), RunnerUpCost(total)),
             CarbonRating(primary.kind)))
  }

  /** The engine as the program runs it: validate, measure, filter, sort the
      candidates in place, then derive the figures. */
  method RecommendVehicles(catalog: seq<Car>, input: Input, host: Host) returns (result: Result<Recommendation>)
    ensures result == Recommend(catalog, input, host)
  {
    if input.house.None? || input.workplace.None? || input.holiday.None? {
      return Err(InsufficientLocationData);
    }
    var commute := host.distance(input.house.value, input.workplace.value);
    var holiday := host.distance(input.house.value, input.holiday.value);
    var total := commute + holiday;
    var suitable := Candidates(catalog, input.minSeats, total);
    if |suitable| == 0 {
      return Err(NoSuitableVehicle);
    }
    var cars := new Car[|suitable|](i requires 0 <= i < |suitable| => suitable[i]);
    assert cars[..] == suitable;
    SortByRange(cars);
    var primary := cars[0];
    var runnerUp := if cars.Length > 1 then cars[1] else cars[0];
    var summary := Summary(commute, holiday, total, primary, input.minSeats, runnerUp,
                           input.habits.hasKids, input.habits.trunkPreference, host.toFixed2, host.show);
    result := Ok(Recommendation(primary, runnerUp, summary,
                                PriceBreakdown(PrimaryCost(total), RunnerUpCost(total)),
                                CarbonRating(primary.kind)));
  }

  /** A missing point is reported as insufficient location data, and only then;
      the result then does not depend on the host, so no distance is taken. */
  lemma MissingPointFails(catalog: seq<Car>, input: Input, host: Host, other: Host)
    ensures Recommend(catalog, input, host) == Err(InsufficientLocationData) <==> !HasAllPoints(input)
    ensures !HasAllPoints(input) ==> Recommend(catalog, input, host) == Recommend(catalog, input, other)
  {
  }

  /** With all points given, the request fails for want of a vehicle exactly
      when no catalog entry passes the filter, and succeeds otherwise. */
  lemma NoCandidateFails(catalog: seq<Car>, input: Input, host: Host)
    requires HasAllPoints(input)
    ensures Recommend(catalog, input, host) == Err(NoSuitableVehicle) <==> CandidatesFor(catalog, input, host) == []
    ensures Recommend(catalog, input, host).Ok? <==> CandidatesFor(catalog, input, host) != []
  {
  }

  /** A seat requirement no catalog entry meets leaves the request without a vehicle. */
  lemma TooManySeatsFails(catalog: seq<Car>, input: Input, host: Host)
    requires HasAllPoints(input)
    requires forall c :: c in catalog ==> c.seats < input.minSeats
    ensures Recommend(catalog, input, host) == Err(NoSuitableVehicle)
  {
    var cands := CandidatesFor(catalog, input, host);
    if cands != [] {
      CandidatesMembers(catalog, input.minSeats, TotalDistance(input, host), cands[0]);
    }
  }

  /** On success both cars are candidates, hence catalog entries with enough
      seats and range; the primary car has the longest range of all candidates. */
  lemma SuccessPicksCandidates(catalog: seq<Car>, input: Input, host: Host)
    requires Recommend(catalog, input, host).Ok?
    ensures HasAllPoints(input)
    ensures var rec, cands := Recommend(catalog, input, host).value, CandidatesFor(catalog, input, host);
      && rec.primary in cands && rec.runnerUp in cands
      && rec.primary in catalog && rec.runnerUp in catalog
      && rec.primary.seats >= input.minSeats && rec.primary.range >= TotalDistance(input, host)
      && rec.runnerUp.seats >= input.minSeats && rec.runnerUp.range >= TotalDistance(input, host)
      && rec.primary.range >= rec.runnerUp.range
      && (forall c :: c in cands ==> c.range <= rec.primary.range)
  {
    var rec, cands := Recommend(catalog, input, host).value, CandidatesFor(catalog, input, host);
    var total := TotalDistance(input, host);
    var ranked := Ranked(cands);
    RankedPermutes(cands);
    RankedDescending(cands);
    assert rec.primary == ranked[0] && rec.runnerUp in ranked;
    assert rec.primary in multiset(ranked) && rec.runnerUp in multiset(ranked);
    CandidatesMembers(catalog, input.minSeats, total, rec.primary);
    CandidatesMembers(catalog, input.minSeats, total, rec.runnerUp);
    var k := RankedHead(cands);
    forall c | c in cands ensures c.range <= rec.primary.range {
      var j :| 0 <= j < |cands| && cands[j] == c;
    }
  }

  /** The primary car is the first candidate, in catalog order, among those of
      the longest range: ties are broken by catalog order. */
  lemma SuccessPrimaryIsEarliestLongest(catalog: seq<Car>, input: Input, host: Host) returns (k: int)
    requires Recommend(catalog, input, host).Ok?
    ensures HasAllPoints(input)
    ensures var rec, cands := Recommend(catalog, input, host).value, CandidatesFor(catalog, input, host);
      && 0 <= k < |cands| && cands[k] == rec.primary
      && (forall j :: 0 <= j < |cands| ==> cands[j].range <= rec.primary.range)
      && (forall j :: 0 <= j < k ==> cands[j].range < rec.primary.range)
  {
    k := RankedHead(CandidatesFor(catalog, input, host));
  }

  /** The runner-up is the second-ranked candidate, falling back to the primary
      car when it is the only candidate; with two or more candidates it has the
      longest range once one copy of the primary car is set aside. */
  lemma SuccessRunnerUp(catalog: seq<Car>, input: Input, host: Host)
    requires Recommend(catalog, input, host).Ok?
    ensures HasAllPoints(input)
    ensures var rec, cands := Recommend(catalog, input, host).value, CandidatesFor(catalog, input, host);
      && (|cands| == 1 ==> rec.runnerUp == rec.primary)
      && (|cands| >= 2 ==>
            && |Ranked(cands)| == |cands|
            && rec.runnerUp == Ranked(cands)[1]
            && forall c :: c in multiset(cands) - multiset{rec.primary} ==> c.range <= rec.runnerUp.range)
  {
    var cands := CandidatesFor(catalog, input, host);
    RankedPermutes(cands);
    if |cands| >= 2 {
      RankedSecond(cands);
    }
  }

  /** `s` lists no car twice. */
  ghost predicate NoDuplicates(s: seq<Car>) {
    forall i, j :: 0 <= i < j < |s| ==> s[i] != s[j]
  }

  lemma {:induction false} NoDuplicatesCount(s: seq<Car>, x: Car)
    requires NoDuplicates(s)
    ensures multiset(s)[x] <= 1
  {
    if s != [] {
      assert s == [s[0]] + s[1..];
      assert NoDuplicates(s[1..]) by {
        forall i, j | 0 <= i < j < |s[1..]| ensures s[1..][i] != s[1..][j] {
          assert s[1..][i] == s[i + 1] && s[1..][j] == s[j + 1];
        }
      }
      NoDuplicatesCount(s[1..], x);
      if s[0] == x {
        forall i | 0 <= i < |s[1..]| ensures s[1..][i] != x {
          assert s[1..][i] == s[i + 1];
        }
        assert x !in s[1..];
      }
    }
  }

  lemma {:induction false} CandidatesSubmultiset(catalog: seq<Car>, minSeats: int, totalDistance: real)
    ensures multiset(Candidates(catalog, minSeats, totalDistance)) <= multiset(catalog)
  {
    if catalog != [] {
      CandidatesSubmultiset(catalog[1..], minSeats, totalDistance);
      assert catalog == [catalog[0]] + catalog[1..];
    }
  }

  /** When the catalog lists every car once, the runner-up is the primary car
      exactly when there is a single candidate. */
  lemma SuccessRunnerUpDistinct(catalog: seq<Car>, input: Input, host: Host)
    requires Recommend(catalog, input, host).Ok?
    requires NoDuplicates(catalog)
    ensures HasAllPoints(input)
    ensures var rec := Recommend(catalog, input, host).value;
      rec.runnerUp == rec.primary <==> |CandidatesFor(catalog, input, host)| == 1
  {
    var rec, cands := Recommend(catalog, input, host).value, CandidatesFor(catalog, input, host);
    var ranked := Ranked(cands);
    RankedPermutes(cands);
    if |cands| >= 2 && ranked[0] == ranked[1] {
      var x := ranked[0];
      assert ranked == [x, x] + ranked[2..];
      assert multiset(ranked)[x] >= 2;
      CandidatesSubmultiset(catalog, input.minSeats, TotalDistance(input, host));
      NoDuplicatesCount(catalog, x);
      assert false;
    }
  }

  /** On success the primary price is the distance-based cost and the runner-up
      price is that cost with the 10% markup, never below it for a non-negative
      distance; the rating follows the primary car's type and lies in 1..5; the
      summary is built from the request's distances, cars and preferences. */
  lemma SuccessFigures(catalog: seq<Car>, input: Input, host: Host)
    requires Recommend(catalog, input, host).Ok?
    ensures HasAllPoints(input)
    ensures var rec, total := Recommend(catalog, input, host).value, TotalDistance(input, host);
      && rec.priceBreakdown.primary == total * CostFactor
      && rec.priceBreakdown.runnerUp == rec.priceBreakdown.primary * RunnerUpMarkup
      && (total >= 0.0 ==> rec.priceBreakdown.runnerUp >= rec.priceBreakdown.primary)
      && 1 <= rec.carbonRating <= 5
      && rec.carbonRating == CarbonRating(rec.primary.kind)
      && rec.summary == Summary(CommuteDistance(input, host), HolidayDistance(input, host), total,
                                rec.primary, input.minSeats, rec.runnerUp,
                                input.habits.hasKids, input.habits.trunkPreference, host.toFixed2, host.show)
  {
  }

  /** A worked request: house to workplace 13.8 km, house to holiday 559.2 km,
      at least five seats. The sedan lacks range and the coupe lacks seats; the
      estate has the longest range, and of the two 700 km cars behind it the one
      listed first, the hatch, is the runner-up. */
  lemma TieBreakExample(fixed2: real -> string, show: real -> string)
    ensures var host := Host((p: Point, q: Point) => if q == Point(37.8044, -122.2712) then 13.8 else 559.2, fixed2, show);
            var catalog := [Car("Sedan", "petrol", 500.0, 5), Car("Coupe", "electric", 700.0, 4),
                            Car("Hatch", "hybrid", 700.0, 5), Car("Van", "suv", 700.0, 7),
                            Car("Estate", "electric", 800.0, 5)];
            var input := Input(Some(Point(37.7749, -122.4194)), Some(Point(37.8044, -122.2712)),
                               Some(Point(34.0522, -118.2437)), 5, Habits(true, true));
            var r := Recommend(catalog, input, host);
            && r.Ok?
            && r.value.primary == catalog[4] && r.value.runnerUp == catalog[2]
            && r.value.carbonRating == 5
            && r.value.priceBreakdown == PriceBreakdown(114.6, 126.06)
  {
    var catalog := [Car("Sedan", "petrol", 500.0, 5), Car("Coupe", "electric", 700.0, 4),
                    Car("Hatch", "hybrid", 700.0, 5), Car("Van", "suv", 700.0, 7),
                    Car("Estate", "electric", 800.0, 5)];
    var input := Input(Some(Point(37.7749, -122.4194)), Some(Point(37.8044, -122.2712)),
                       Some(Point(34.0522, -118.2437)), 5, Habits(true, true));
    var host := Host((p: Point, q: Point) => if q == Point(37.8044, -122.2712) then 13.8 else 559.2, fixed2, show);
    assert TotalDistance(input, host) == 573.0;
    var cands := [catalog[2], catalog[3], catalog[4]];
    var m, total := input.minSeats, TotalDistance(input, host);
    assert catalog[4..][1..] == [];
    assert Candidates(catalog[4..], m, total) == [catalog[4]];
    assert catalog[3..][1..] == catalog[4..];
    assert Candidates(catalog[3..], m, total) == [catalog[3], catalog[4]];
    assert catalog[2..][1..] == catalog[3..];
    assert Candidates(catalog[2..], m, total) == cands;
    assert catalog[1..][1..] == catalog[2..];
    assert Candidates(catalog[1..], m, total) == cands;
    assert CandidatesFor(catalog, input, host) == cands;
    assert cands[..2] == [catalog[2], catalog[3]] && cands[..1] == [catalog[2]];
    assert Ranked(cands[..1]) == [catalog[2]];
    assert Ranked(cands[..2]) == [catalog[2], catalog[3]];
    assert Insert([], catalog[4]) == [catalog[4]];
    assert Insert([catalog[2]], catalog[4]) == [catalog[4], catalog[2]];
    assert Insert([catalog[2], catalog[3]], catalog[4]) == [catalog[4], catalog[2], catalog[3]];
    assert Ranked(cands) == [catalog[4], catalog[2], catalog[3]];
  }
}
