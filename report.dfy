/** The derived figures of a recommendation: the price estimate, the carbon
    rating of the primary car and the summary paragraph. */
module Report {
  import opened Cars

  /** Currency units per kilometre. */
  const CostFactor: real := 0.2
  /** The runner-up is priced 10% above the primary car. */
  const RunnerUpMarkup: real := 1.1

  /** The primary price; never negative for a real trip. */
  function PrimaryCost(totalDistance: real): (cost: real)
    ensures totalDistance >= 0.0 ==> 0.0 <= cost
  {
    totalDistance * CostFactor
  }

  /** The runner-up price is the primary price with the markup, whichever car the
      runner-up is, so it never undercuts the primary price for a real trip. */
  function RunnerUpCost(totalDistance: real): (cost: real)
    ensures cost == PrimaryCost(totalDistance) * RunnerUpMarkup
    ensures totalDistance >= 0.0 ==> cost >= PrimaryCost(totalDistance)
    ensures totalDistance > 0.0 ==> cost > PrimaryCost(totalDistance)
  {
    totalDistance * CostFactor * RunnerUpMarkup
  }

  /** Carbon rating of a car type, 5 for the least combustion-dependent. */
  function CarbonRating(kind: string): (rating: int)
    ensures 1 <= rating <= 5
    ensures rating == 5 <==> kind == "electric"
    ensures rating == 3 <==> kind == "hybrid"
    ensures rating == 1 <==> kind != "electric" && kind != "hybrid"
  {
    if kind == "electric" then 5
    else if kind == "hybrid" then 3
    else if kind == "suv" then 1
    else 1
  }

  const FamilyFriendly: string := "family-friendly features"
  const CompactDesign: string := "a compact design"
  const AmpleTrunk: string := "ample trunk space"
  const SportierLook: string := "a sportier look"

  function KidsPhrase(hasKids: bool): string {
    if hasKids then FamilyFriendly else CompactDesign
  }

  function TrunkPhrase(trunkPreference: bool): string {
    if trunkPreference then AmpleTrunk else SportierLook
  }

  /** The concatenation of `parts`. */
  function Join(parts: seq<string>): string {
    if parts == [] then [] else parts[0] + Join(parts[1..])
  }

  /** `t` occurs in `s` as a contiguous piece. */
  ghost predicate Contains(s: string, t: string) {
    exists i, j :: 0 <= i <= j <= |s| && s[i..j] == t
  }

  // The fixed wording of the summary paragraph, piece by piece.
  const CommuteLead: string := "Based on your input, your daily commute is approximately "
  const HolidayLead: string := " km, and your holiday trip is around "
  const TotalLead: string := " km—totaling "
  const PrimaryLead: string := " km. We recommend the "
  const RangeLead: string := " as your primary option because it offers a range of "
  const SeatsLead: string := " km and meets your seating requirement of "
  const RunnerUpLead: string := " seats. Its design is well-suited for both daily commutes and longer trips. As a runner-up, we suggest the "
  const PreferencesLead: string := ". Considering your preferences for "
  const TrunkLead: string := " and "
  const Closing: string := ", this recommendation is tailored to your needs."

  /** The pieces of the summary paragraph. `fixed2` renders a distance with two
      decimals and `show` renders a number as the host prints it. */
  function SummaryParts(commute: real, holiday: real, total: real, primary: Car, minSeats: int,
                        runnerUp: Car, hasKids: bool, trunkPreference: bool,
                        fixed2: real -> string, show: real -> string): seq<string>
  {
    [ CommuteLead, fixed2(commute),
      HolidayLead, fixed2(holiday),
      TotalLead, fixed2(total),
      PrimaryLead, primary.name,
      RangeLead, show(primary.range),
      SeatsLead, show(minSeats as real),
      RunnerUpLead, runnerUp.name,
      PreferencesLead, KidsPhrase(hasKids),
      TrunkLead, TrunkPhrase(trunkPreference),
      Closing ]
  }

  function Summary(commute: real, holiday: real, total: real, primary: Car, minSeats: int,
                   runnerUp: Car, hasKids: bool, trunkPreference: bool,
                   fixed2: real -> string, show: real -> string): string
  {
    Join(SummaryParts(commute, holiday, total, primary, minSeats, runnerUp, hasKids, trunkPreference, fixed2, show))
  }

  lemma {:induction false} JoinSplit(parts: seq<string>, k: int)
    requires 0 <= k < |parts|
    ensures Join(parts) == Join(parts[..k]) + parts[k] + Join(parts[k + 1..])
  {
    if k == 0 {
      assert parts[..k] == [];
    } else {
      JoinSplit(parts[1..], k - 1);
      assert parts[1..][..k - 1] == parts[1..k];
      assert parts[1..][k - 1 + 1..] == parts[k + 1..];
      assert parts[..k] == [parts[0]] + parts[1..k];
      assert Join(parts[..k]) == parts[0] + Join(parts[1..k]) by {
        assert parts[..k][1..] == parts[1..k];
      }
    }
  }

  lemma JoinContains(parts: seq<string>, k: int)
    requires 0 <= k < |parts|
    ensures Contains(Join(parts), parts[k])
  {
    JoinSplit(parts, k);
    var pre := Join(parts[..k]);
    var s := Join(parts);
    assert s[|pre|..|pre| + |parts[k]|] == parts[k];
  }

  /** The summary reports the three distances, the primary car's name, range and
      the requested seat count, the runner-up's name, and the phrase chosen by
      each preference flag. */
  lemma SummaryMentions(commute: real, holiday: real, total: real, primary: Car, minSeats: int,
                        runnerUp: Car, hasKids: bool, trunkPreference: bool,
                        fixed2: real -> string, show: real -> string)
    ensures var s := Summary(commute, holiday, total, primary, minSeats, runnerUp, hasKids, trunkPreference, fixed2, show);
      Contains(s, fixed2(commute)) && Contains(s, fixed2(holiday)) && Contains(s, fixed2(total)) &&
      Contains(s, primary.name) && Contains(s, show(primary.range)) && Contains(s, show(minSeats as real)) &&
      Contains(s, runnerUp.name) &&
      Contains(s, KidsPhrase(hasKids)) && Contains(s, TrunkPhrase(trunkPreference))
  {
    var parts := SummaryParts(commute, holiday, total, primary, minSeats, runnerUp, hasKids, trunkPreference, fixed2, show);
    JoinContains(parts, 1);
    JoinContains(parts, 3);
    JoinContains(parts, 5);
    JoinContains(parts, 7);
    JoinContains(parts, 9);
    JoinContains(parts, 11);
    JoinContains(parts, 13);
    JoinContains(parts, 15);
    JoinContains(parts, 17);
  }

  /** Each flag picks exactly one of its two phrases: two summaries built from
      the same figures are equal only if both flags agree. */
  lemma SummaryRevealsPreferences(commute: real, holiday: real, total: real, primary: Car, minSeats: int,
                                  runnerUp: Car, fixed2: real -> string, show: real -> string,
                                  kids1: bool, trunk1: bool, kids2: bool, trunk2: bool)
    requires Summary(commute, holiday, total, primary, minSeats, runnerUp, kids1, trunk1, fixed2, show)
          == Summary(commute, holiday, total, primary, minSeats, runnerUp, kids2, trunk2, fixed2, show)
    ensures kids1 == kids2 && trunk1 == trunk2
  {
    var p1 := SummaryParts(commute, holiday, total, primary, minSeats, runnerUp, kids1, trunk1, fixed2, show);
    var p2 := SummaryParts(commute, holiday, total, primary, minSeats, runnerUp, kids2, trunk2, fixed2, show);
    var s := Join(p1);
    assert FamilyFriendly[0] != CompactDesign[0] && AmpleTrunk[1] != SportierLook[1];
    JoinSplit(p1, 15);
    JoinSplit(p2, 15);
    assert p1[..15] == p2[..15];
    var pre := Join(p1[..15]);
    assert s[|pre|] == p1[15][0] && s[|pre|] == p2[15][0];
    JoinSplit(p1, 17);
    JoinSplit(p2, 17);
    assert p1[..17] == p2[..17];
    var pre' := Join(p1[..17]);
    assert s[|pre'| + 1] == p1[17][1] && s[|pre'| + 1] == p2[17][1];
  }
}
