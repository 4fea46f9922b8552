# Vehicle recommendation engine, modelled in Dafny

This project models the recommendation engine `recommendVehicles` of the
vehicle recommender (`src/utils/recommendVehicles.ts`). The engine takes three
points (house, workplace, holiday destination), a minimum seat count and two
preference flags (children, trunk space). Its steps:

1. It refuses a request with a missing point.
2. It sums the house→workplace and house→holiday distances.
3. It keeps the catalog cars with enough seats and enough range.
4. It fails when no car is left.
5. It sorts the survivors by range, longest first. The sort is stable.
6. It picks the first survivor as the primary car and the second as the
   runner-up. With a single survivor, the primary car is also the runner-up.
7. It prices both cars from the total distance.
8. It rates the primary car's type for carbon.
9. It writes a summary paragraph.

Modules, one per part of the engine:

- `Cars` (`cars.dfy`): the catalog entry `Car` and the seat/range filter
  `Candidates`.
- `Ranking` (`ranking.dfy`): `Ranked` is the reference definition of the stable
  descending sort. `SortByRange` sorts an `array<Car>` in place, as the program
  sorts its candidate array, and is proved to yield exactly `Ranked` of its
  input.
- `Report` (`report.dfy`): the costs, the carbon rating and the summary text.
- `Engine` (`engine.dfy`): the request and result types, the two failures and
  `Recommend`, the whole computation as a function returning `Ok` or `Err`.
  `RecommendVehicles` is the same computation written as the program runs it
  (validate, measure, filter, copy to an array, sort in place, derive), and is
  proved equal to `Recommend`. The lemmas beside them state what a caller gets.

The thrown errors become `Err(InsufficientLocationData)` and
`Err(NoSuitableVehicle)`. `Message` keeps the two error texts.

## Model

| member | source | states |
|---|---|---|
| Cars.Suitable | src/utils/recommendVehicles.ts:55 | defines the filter predicate: `seats >= minSeats` and `range >= totalDistance`, both inclusive; its meaning for the candidate list is stated by `Cars.CandidatesMembers` |
| Cars.Candidates | src/utils/recommendVehicles.ts:54-56 | the filter never yields more cars than the catalog holds |
| Cars.CandidatesMembers | src/utils/recommendVehicles.ts:54-56 | a car is a candidate iff it is in the catalog, has `seats >= minSeats` and has `range >= totalDistance` (both bounds inclusive) |
| Cars.CandidatesKeepCatalogOrder | src/utils/recommendVehicles.ts:54-56 | the candidates are the catalog entries at strictly increasing positions, and a catalog position is among them iff its entry passes the filter: the candidates form the subsequence of suitable entries, in catalog order |
| Cars.CandidatesNarrow | src/utils/recommendVehicles.ts:54-56 | raising `minSeats` or the total distance never adds a candidate: re-filtering the wider list by the stricter bounds gives the narrower list, which is never longer |
| Ranking.Insert | src/utils/recommendVehicles.ts:64 | defines one step of the stable sort: the car goes just after the last car whose range is at least its own; `Ranking.SinkLast` performs it in place |
| Ranking.Ranked | src/utils/recommendVehicles.ts:64 | defines the order `sort((a, b) => b.range - a.range)` produces, as repeated `Insert`; its properties are the `Ranking.Ranked*` lemmas |
| Ranking.RankedPermutes | src/utils/recommendVehicles.ts:64 | ranking is a permutation of the candidates (same length, same multiset) |
| Ranking.RankedDescending | src/utils/recommendVehicles.ts:64 | the ranked list is non-increasing in range |
| Ranking.RankedStable | src/utils/recommendVehicles.ts:64 | for every range value, the cars of that range keep their input order (ties follow catalog order) |
| Ranking.RankedUnique | src/utils/recommendVehicles.ts:64 | any list that is non-increasing in range and keeps, for every range value, the input's cars in the input's order equals `Ranked` of the input: it is the only stable descending sort |
| Ranking.RankedHead | src/utils/recommendVehicles.ts:64-66 | the head of the ranking has the longest range of the input, and no earlier input car has that range |
| Ranking.RankedSecond | src/utils/recommendVehicles.ts:64-67 | with two or more cars, the second of the ranking has the longest range once one copy of the head is set aside |
| Ranking.SinkLast | src/utils/recommendVehicles.ts:64 | one insertion step: the array prefix up to `i` becomes `Insert` of the sorted prefix and `a[i]`, and the rest of the array is unchanged |
| Ranking.SortByRange | src/utils/recommendVehicles.ts:64 | sorting the array in place leaves exactly `Ranked` of its old contents |
| Report.PrimaryCost | src/utils/recommendVehicles.ts:69-70 | the primary price, `totalDistance * 0.2`, is never negative for a non-negative distance; its value in a recommendation is stated by `Engine.SuccessFigures` |
| Report.RunnerUpCost | src/utils/recommendVehicles.ts:69-71 | the runner-up price is the primary price times 1.1, at least the primary price for a non-negative distance, and above it for a positive distance |
| Report.CarbonRating | src/utils/recommendVehicles.ts:73-80 | the rating lies in 1..5; it is 5 iff the type is "electric", 3 iff "hybrid", 1 iff neither |
| Report.KidsPhrase | src/utils/recommendVehicles.ts:95 | defines the phrase for the children flag: "family-friendly features" when set, "a compact design" otherwise |
| Report.TrunkPhrase | src/utils/recommendVehicles.ts:97 | defines the phrase for the trunk flag: "ample trunk space" when set, "a sportier look" otherwise |
| Report.SummaryParts | src/utils/recommendVehicles.ts:82-98 | defines the template's nineteen pieces in order: the ten fixed texts alternating with the rendered values and the two phrases |
| Report.Summary | src/utils/recommendVehicles.ts:82-98 | defines the summary as the concatenation of `SummaryParts`; what it contains is stated by `Report.SummaryMentions` |
| Report.SummaryMentions | src/utils/recommendVehicles.ts:82-98 | the summary contains the three rendered distances, the primary car's name and rendered range, the rendered seat requirement, the runner-up's name, and the phrase chosen by each flag |
| Report.SummaryRevealsPreferences | src/utils/recommendVehicles.ts:94-98 | two summaries built from the same figures are equal only if both flags agree: each flag selects exactly one of its two phrases |
| Engine.Message | src/utils/recommendVehicles.ts:30 | defines the text each failure carries: the location-data message (line 30) and the no-suitable-vehicle message (lines 59-61) |
| Engine.HasAllPoints | src/utils/recommendVehicles.ts:29 | defines the location check: house, workplace and holiday point are all present |
| Engine.CommuteDistance | src/utils/recommendVehicles.ts:50 | defines the commute as the host distance from the house to the workplace |
| Engine.HolidayDistance | src/utils/recommendVehicles.ts:51 | defines the holiday trip as the host distance from the house (not the workplace) to the holiday point |
| Engine.TotalDistance | src/utils/recommendVehicles.ts:52 | defines the range a car needs as the commute plus the holiday trip |
| Engine.Recommend | src/utils/recommendVehicles.ts:26-110 | defines the whole computation as a function: location check, distance sum, filter, stable ranking, primary and runner-up, prices, rating and summary, with `Err(InsufficientLocationData)` and `Err(NoSuitableVehicle)` for the two thrown errors; what it promises is stated by the `Engine.*Fails` and `Engine.Success*` lemmas |
| Engine.RunnerUpOf | src/utils/recommendVehicles.ts:67 | the runner-up is one of the ranked cars, and is the first when it is the only one |
| Engine.RecommendVehicles | src/utils/recommendVehicles.ts:26-110 | the imperative engine, which sorts an array in place, returns exactly `Recommend` of its inputs |
| Engine.MissingPointFails | src/utils/recommendVehicles.ts:29-31 | the result is `Err(InsufficientLocationData)` iff a point is missing; in that case the result does not depend on the host, so no distance is taken |
| Engine.NoCandidateFails | src/utils/recommendVehicles.ts:58-62 | with all points present, the result is `Err(NoSuitableVehicle)` iff the candidate list is empty, and `Ok` iff it is not |
| Engine.TooManySeatsFails | src/utils/recommendVehicles.ts:54-62 | a seat requirement above every catalog entry's seats gives `Err(NoSuitableVehicle)` |
| Engine.SuccessPicksCandidates | src/utils/recommendVehicles.ts:50-67 | on success both cars are candidates and catalog entries, each with `seats >= minSeats` and `range >= commute + holiday`; the primary car's range is at least the runner-up's and every candidate's |
| Engine.SuccessPrimaryIsEarliestLongest | src/utils/recommendVehicles.ts:64-66 | on success the primary car is the candidate, in catalog order, that comes first among those of the longest range |
| Engine.SuccessRunnerUp | src/utils/recommendVehicles.ts:66-67 | with one candidate the runner-up is the primary car; with two or more it is the second-ranked car and has the longest range once the primary car is set aside |
| Engine.SuccessRunnerUpDistinct | src/utils/recommendVehicles.ts:66-67 | for a catalog that lists no car twice, the runner-up equals the primary car iff there is exactly one candidate |
| Engine.SuccessFigures | src/utils/recommendVehicles.ts:50-108 | on success the primary price is `totalDistance * 0.2` and the runner-up price is that times 1.1 (not below it for a non-negative distance); the rating is the primary type's rating, in 1..5; the summary is built from the commute, holiday and total distances, the two cars, `minSeats` and the two flags |
| Engine.TieBreakExample | src/utils/recommendVehicles.ts:50-80 | a worked request: 13.8 + 559.2 km and five seats give the 800 km car as primary, the first-listed of two 700 km cars as runner-up, rating 5, and prices 114.6 and 126.06 |

## Left out

- The haversine distance (src/utils/recommendVehicles.ts:33-48) uses IEEE floating point and `sin`, `cos`, `atan2` and `sqrt`. It is the `distance` field of the `Host` parameter, a total function from two points to a real. Symmetry and `d(A, A) = 0` are therefore neither assumed nor proved.
- `toFixed(2)` and the default number-to-text conversion in the summary are the `toFixed2` and `show` fields of `Host`. The summary is exact given those two functions.
- Floating point: distances, ranges and prices are exact reals. `0.2` and `1.1` are exact here, so computed prices can differ from the program's in the last binary digits. NaN and infinite values are not modelled.
- Malformed points: the location check at src/utils/recommendVehicles.ts:29 rejects only absent points (`!input.house`), so a point is an `Option<Point>`, and the model follows that check. A present point whose coordinates are not finite numbers (NaN, or a value that turns into NaN) passes the check. In the program it makes `dLat`/`dLng`, `a` and `c` NaN (lines 39-47), so `totalDistance` is NaN (line 52). Then `car.range >= totalDistance` is false for every car (line 55), and the call fails with the no-suitable-vehicle error (lines 58-61) rather than the location error. The model cannot show this path, because NaN is not modelled.
- Car identity: the program's catalog entries are distinct objects, but the model compares cars by value.
- SuccessRunnerUp: without a duplicate-free catalog, it states only "one candidate implies runner-up equals primary", because two equal entries by value would also be equal. SuccessRunnerUpDistinct states the full iff for a catalog that lists no car twice.
- The catalog contents (`src/data/cars`) are not part of this model; the catalog is a parameter `seq<Car>`. The car's `type` field is called `kind`, because `type` is a Dafny keyword.
- `minSeats` is an integer. The page passes a parsed integer, falling back to 1.
- The page and map components (src/app/page.tsx, src/components/Map.tsx, src/app/layout.tsx) are UI state, map rendering, click capture and network calls. They are not part of this model.
