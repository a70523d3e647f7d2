/** The deterministic tier grades as many human findings `full` as any legal way of crediting could. */
module MatchMaximum {
  import opened Prelude
  import opened Sorting
  import opened Grading
  import opened CreditAssignment
  import opened MatchCase

  // ---------------------------------------------------------------------------------
  // What may be credited
  // ---------------------------------------------------------------------------------

  /** A place of a finding, by the index of the finding. */
  type PlaceOf = (nat, Spot)

  /** A way to credit labels, by index, at places of findings that they may be credited at, no more than
      two labels a place. */
  ghost predicate LegalCredit(m: Matcher, expected: seq<Human>, tolerance: int, findings: seq<Finding>,
                              pick: map<nat, PlaceOf>)
  {
    && (forall i :: i in pick ==> LegalPick(m, expected, tolerance, findings, i, pick[i]))
    && (forall place: PlaceOf :: |LabelsAt(pick, place)| <= 2)
  }

  ghost predicate LegalPick(m: Matcher, expected: seq<Human>, tolerance: int, findings: seq<Finding>,
                            i: nat, place: PlaceOf)
  {
    && i < |expected| && expected[i].mustMatch != "" && place.0 < |findings|
    && MayCredit(m, expected[i], tolerance, findings[place.0], place.1)
  }

  ghost function LabelsAt(pick: map<nat, PlaceOf>, place: PlaceOf): set<nat> {
    set i | i in pick && pick[i] == place
  }

  // ---------------------------------------------------------------------------------
  // ... as credit units
  // ---------------------------------------------------------------------------------

  /** Some way of crediting graded humans at candidate units, under the cap. */
  ghost predicate CandidateCredit(m: Matcher, humans: seq<Human>, tolerance: int, findings: seq<Finding>,
                                  pick: map<nat, nat>)
  {
    && (forall i :: i in pick ==>
          && i < |humans| && pick[i] < |Units(findings)|
          && Candidate(m, humans[i], tolerance, UnitContent(findings, Units(findings)[pick[i]])))
    && (forall u :: |CreditedAt(pick, u)| <= MAX_CREDITS_PER_FINDING)
  }

  ghost function FullIndices(grades: seq<Grade>): set<nat> {
    set i: nat | 0 <= i < |grades| && grades[i].value == Full
  }

  lemma LegalIsFeasible(m: Matcher, humans: seq<Human>, tolerance: int, findings: seq<Finding>, pick: map<nat, nat>)
    requires CandidateCredit(m, humans, tolerance, findings, pick)
    ensures Feasible(Preferences(m, humans, tolerance, findings), TryOrder(humans), pick)
  {
    TryOrderMembers(humans);
    forall i | i in pick
      ensures i in TryOrder(humans) && pick[i] in Preferences(m, humans, tolerance, findings)[i]
    {
      EntryMembers(m, humans[i], tolerance, findings, pick[i]);
    }
  }

  lemma CreditIsLegal(m: Matcher, humans: seq<Human>, tolerance: int, findings: seq<Finding>)
    ensures CandidateCredit(m, humans, tolerance, findings, Credit(m, humans, tolerance, findings))
  {
    var credit := Credit(m, humans, tolerance, findings);
    PreferencesFit(m, humans, tolerance, findings);
    CreditFits(m, humans, tolerance, findings);
    PlacementIsMaximumMatching(Preferences(m, humans, tolerance, findings), |Units(findings)|, TryOrder(humans));
    forall i | i in credit
      ensures Candidate(m, humans[i], tolerance, UnitContent(findings, Units(findings)[credit[i]]))
    {
      EntryMembers(m, humans[i], tolerance, findings, credit[i]);
    }
  }

  lemma FullAreCredited(m: Matcher, expected: seq<Human>, tolerance: int, findings: seq<Finding>)
    ensures FullIndices(MatchGrades(m, expected, tolerance, findings))
         == Credit(m, Graded(expected), tolerance, findings).Keys
  {
    CreditFits(m, Graded(expected), tolerance, findings);
  }

  ghost function PlaceOfUnit(u: Unit): PlaceOf {
    (u.ref, (u.file, u.line))
  }

  ghost function UnitAt(findings: seq<Finding>, place: PlaceOf): (p: nat)
    requires place.0 < |findings| && findings[place.0].dropReason.None? && IsPlace(findings[place.0], place.1)
    ensures p < |Units(findings)| && PlaceOfUnit(Units(findings)[p]) == place
  {
    assert exists p: nat :: p < |Units(findings)| && PlaceOfUnit(Units(findings)[p]) == place by {
      var p := PlacesAreUnits(findings, place.0, place.1);
      assert PlaceOfUnit(Units(findings)[p]) == place;
    }
    var p: nat :| p < |Units(findings)| && PlaceOfUnit(Units(findings)[p]) == place;
    p
  }

  /** The place of a label among those with a test. */
  ghost function IndexIn(at: seq<nat>, i: nat): (k: nat)
    requires i in at
    ensures k < |at| && at[k] == i
  {
    var k: nat :| k < |at| && at[k] == i; k
  }

  /** The labels with a test, by their places among all labels. */
  ghost predicate Places(expected: seq<Human>, at: seq<nat>) {
    && TestedAt(expected, at) && |at| == |Graded(expected)|
    && forall k :: 0 <= k < |at| ==> at[k] in at && Graded(expected)[k] == expected[at[k]]
  }

  /** `pick` credits labels at places as `chosen` credits them, by their places in `at`, at units. */
  ghost predicate SamePicks(units: seq<Unit>, at: seq<nat>, pick: map<nat, PlaceOf>, chosen: map<nat, nat>) {
    && (forall j, k :: 0 <= j < k < |at| ==> at[j] != at[k])
    && (forall i :: i in pick ==> i in at)
    && (forall k :: k in chosen ==> k < |at| && chosen[k] < |units|)
    && (forall k: nat :: k < |at| ==> (k in chosen <==> at[k] in pick))
    && (forall k :: k in chosen ==> PlaceOfUnit(units[chosen[k]]) == pick[at[k]])
  }

  lemma SameSize(units: seq<Unit>, at: seq<nat>, pick: map<nat, PlaceOf>, chosen: map<nat, nat>)
    requires SamePicks(units, at, pick, chosen)
    ensures |pick| == |chosen|
  {
    var to, from := map i | i in pick :: IndexIn(at, i), map k | k in chosen :: at[k];
    InjectiveInto(pick.Keys, to, chosen.Keys);
    InjectiveInto(chosen.Keys, from, pick.Keys);
    assert |pick| == |pick.Keys| && |chosen| == |chosen.Keys|;
  }

  lemma UnitUnderCap(units: seq<Unit>, at: seq<nat>, pick: map<nat, PlaceOf>, chosen: map<nat, nat>, u: nat)
    requires SamePicks(units, at, pick, chosen) && forall place: PlaceOf :: |LabelsAt(pick, place)| <= 2
    ensures |CreditedAt(chosen, u)| <= 2
  {
    var here := CreditedAt(chosen, u);
    if k :| k in here {
      InjectiveInto(here, map k | k in here :: at[k], LabelsAt(pick, PlaceOfUnit(units[u])));
    } else {
      assert here == {};
    }
  }

  /** No two units are one place. */
  ghost predicate Apart(units: seq<Unit>) {
    forall p, q :: 0 <= p < q < |units| ==> PlaceOfUnit(units[p]) != PlaceOfUnit(units[q])
  }

  lemma PlaceUnderCap(units: seq<Unit>, at: seq<nat>, pick: map<nat, PlaceOf>, chosen: map<nat, nat>, place: PlaceOf)
    requires SamePicks(units, at, pick, chosen) && forall u :: |CreditedAt(chosen, u)| <= 2
    requires Apart(units)
    ensures |LabelsAt(pick, place)| <= 2
  {
    var here := LabelsAt(pick, place);
    if i :| i in here {
      var u := chosen[IndexIn(at, i)];
      var to := map j | j in here :: IndexIn(at, j);
      forall j | j in here ensures to[j] in CreditedAt(chosen, u) {
        assert PlaceOfUnit(units[chosen[to[j]]]) == place == PlaceOfUnit(units[u]);
      }
      InjectiveInto(here, to, CreditedAt(chosen, u));
    } else {
      assert here == {};
    }
  }

  /** Legal picks of places, as picks of candidate units. */
  lemma PicksAsUnits(m: Matcher, expected: seq<Human>, tolerance: int, findings: seq<Finding>,
                     pick: map<nat, PlaceOf>, at: seq<nat>) returns (chosen: map<nat, nat>)
    requires LegalCredit(m, expected, tolerance, findings, pick) && Places(expected, at)
    ensures CandidateCredit(m, Graded(expected), tolerance, findings, chosen) && |pick| == |chosen|
  {
    forall i | i in pick ensures i in at && LegalPick(m, expected, tolerance, findings, i, pick[i]) {
    }
    chosen := map k: nat | k < |at| && at[k] in pick :: UnitAt(findings, pick[at[k]]);
    assert SamePicks(Units(findings), at, pick, chosen);
    SameSize(Units(findings), at, pick, chosen);
    forall k | k in chosen
      ensures Candidate(m, Graded(expected)[k], tolerance, UnitContent(findings, Units(findings)[chosen[k]]))
    {
      CandidateMayCredit(m, Graded(expected)[k], tolerance, findings, chosen[k]);
    }
    forall u: nat ensures |CreditedAt(chosen, u)| <= MAX_CREDITS_PER_FINDING {
      UnitUnderCap(Units(findings), at, pick, chosen, u);
    }
  }

  /** No legal way of crediting the labels gives more full grades than the deterministic tier. */
  lemma MatchIsMaximum(m: Matcher, expected: seq<Human>, tolerance: int, findings: seq<Finding>,
                       pick: map<nat, PlaceOf>)
    requires LegalCredit(m, expected, tolerance, findings, pick)
    ensures |pick| <= |FullIndices(MatchGrades(m, expected, tolerance, findings))|
  {
    var humans := Graded(expected);
    var at := GradedAt(expected);
    var chosen := PicksAsUnits(m, expected, tolerance, findings, pick, at);
    LegalIsFeasible(m, humans, tolerance, findings, chosen);
    PreferencesFit(m, humans, tolerance, findings);
    PlacementIsMaximumMatching(Preferences(m, humans, tolerance, findings), |Units(findings)|, TryOrder(humans));
    FullAreCredited(m, expected, tolerance, findings);
    assert |Credit(m, humans, tolerance, findings)| == |Credit(m, humans, tolerance, findings).Keys|;
  }

  // ---------------------------------------------------------------------------------
  // The grades are such a way
  // ---------------------------------------------------------------------------------

  /** The grades read as a way of crediting the labels. */
  ghost predicate ReadsAs(grades: seq<Grade>, at: seq<nat>, pick: map<nat, PlaceOf>) {
    && |grades| == |at|
    && forall k :: 0 <= k < |at| ==>
         && (grades[k].value == Full <==> at[k] in pick)
         && (at[k] in pick ==> grades[k].aiRef == Some(pick[at[k]].0) && grades[k].aiLine == pick[at[k]].1.1)
  }

  ghost function PicksOf(units: seq<Unit>, at: seq<nat>, chosen: map<nat, nat>): map<nat, PlaceOf>
    requires forall k :: k in chosen ==> chosen[k] < |units|
  {
    map i | i in at && IndexIn(at, i) in chosen :: PlaceOfUnit(units[chosen[IndexIn(at, i)]])
  }

  lemma PicksOfAreSame(units: seq<Unit>, at: seq<nat>, chosen: map<nat, nat>)
    requires forall k :: k in chosen ==> k < |at| && chosen[k] < |units|
    requires forall j, k :: 0 <= j < k < |at| ==> at[j] != at[k]
    ensures SamePicks(units, at, PicksOf(units, at, chosen), chosen)
  {
    forall k: nat | k < |at| ensures IndexIn(at, at[k]) == k {
      assert at[k] in at;
    }
  }

  lemma UnitsApart(findings: seq<Finding>)
    ensures Apart(Units(findings))
  {
    forall p: nat, q: nat | p < q < |Units(findings)|
      ensures PlaceOfUnit(Units(findings)[p]) != PlaceOfUnit(Units(findings)[q])
    {
      UnitsAreDistinct(findings, p, q);
    }
  }

  /** The grades of the deterministic tier are a legal way of crediting the labels, with as many labels as
      there are full grades. */
  lemma GradesAreLegal(m: Matcher, expected: seq<Human>, tolerance: int, findings: seq<Finding>)
    returns (at: seq<nat>, pick: map<nat, PlaceOf>)
    ensures TestedAt(expected, at) && LegalCredit(m, expected, tolerance, findings, pick)
    ensures ReadsAs(MatchGrades(m, expected, tolerance, findings), at, pick)
    ensures |pick| == |FullIndices(MatchGrades(m, expected, tolerance, findings))|
  {
    at := GradedAt(expected);
    CreditIsLegal(m, Graded(expected), tolerance, findings);
    pick := CreditPicks(findings, at, Credit(m, Graded(expected), tolerance, findings));
    PicksAreLegal(m, expected, tolerance, findings, at, pick);
    CreditReads(m, expected, tolerance, findings, at, pick);
    FullAreCredited(m, expected, tolerance, findings);
  }

  /** Credited units, as places. */
  lemma CreditPicks(findings: seq<Finding>, at: seq<nat>, credit: map<nat, nat>) returns (pick: map<nat, PlaceOf>)
    requires forall k :: k in credit ==> k < |at| && credit[k] < |Units(findings)|
    requires forall j, k :: 0 <= j < k < |at| ==> at[j] != at[k]
    requires forall u :: |CreditedAt(credit, u)| <= MAX_CREDITS_PER_FINDING
    ensures SamePicks(Units(findings), at, pick, credit) && |pick| == |credit.Keys|
    ensures forall place: PlaceOf :: |LabelsAt(pick, place)| <= 2
  {
    pick := PicksOf(Units(findings), at, credit);
    PicksOfAreSame(Units(findings), at, credit);
    SameSize(Units(findings), at, pick, credit);
    UnitsApart(findings);
    forall place: PlaceOf ensures |LabelsAt(pick, place)| <= 2 {
      PlaceUnderCap(Units(findings), at, pick, credit, place);
    }
  }

  lemma PicksAreLegal(m: Matcher, expected: seq<Human>, tolerance: int, findings: seq<Finding>, at: seq<nat>,
                      pick: map<nat, PlaceOf>)
    requires Places(expected, at)
    requires SamePicks(Units(findings), at, pick, Credit(m, Graded(expected), tolerance, findings))
    ensures forall i :: i in pick ==> LegalPick(m, expected, tolerance, findings, i, pick[i])
  {
    var credit := Credit(m, Graded(expected), tolerance, findings);
    CreditIsLegal(m, Graded(expected), tolerance, findings);
    forall i | i in pick ensures LegalPick(m, expected, tolerance, findings, i, pick[i]) {
      var k := IndexIn(at, i);
      CandidateMayCredit(m, Graded(expected)[k], tolerance, findings, credit[k]);
    }
  }

  lemma CreditReads(m: Matcher, expected: seq<Human>, tolerance: int, findings: seq<Finding>, at: seq<nat>,
                    pick: map<nat, PlaceOf>)
    requires |at| == |Graded(expected)|
    requires SamePicks(Units(findings), at, pick, Credit(m, Graded(expected), tolerance, findings))
    ensures ReadsAs(MatchGrades(m, expected, tolerance, findings), at, pick)
  {
    var humans, grades := Graded(expected), MatchGrades(m, expected, tolerance, findings);
    CreditFits(m, humans, tolerance, findings);
    forall k | 0 <= k < |at|
      ensures grades[k].value == Full <==> at[k] in pick
      ensures at[k] in pick ==> grades[k].aiRef == Some(pick[at[k]].0) && grades[k].aiLine == pick[at[k]].1.1
    {
      assert grades[k] == GradeOf(humans[k], MatchedUnit(m, humans, tolerance, findings, k));
    }
  }

  // ---------------------------------------------------------------------------------
  // A label tried alone
  // ---------------------------------------------------------------------------------

  lemma OneIndex(h: Human)
    ensures TryOrder([h]) == [0]
  {
    TryOrderMembers([h]);
    assert TryOrder([h])[0] in TryOrder([h]);
  }

  lemma PlacedAlone(slots: Slots, unit: nat)
    requires unit < |slots| && slots[unit] == [0] && forall u :: 0 <= u < |slots| && u != unit ==> slots[u] == []
    ensures 0 in Placement(slots) && Placement(slots)[0] == unit
  {
    var last := |slots| - 1;
    if unit != last {
      PlacedAlone(slots[..last], unit);
    }
  }

  /** A single label takes the first of its ranking. */
  lemma FirstChoice(m: Matcher, h: Human, tolerance: int, findings: seq<Finding>)
    requires Ranking(m, h, tolerance, findings) != []
    ensures var first := Ranking(m, h, tolerance, findings)[0].position;
            && first < |Units(findings)|
            && MatchedUnit(m, [h], tolerance, findings, 0) == Some(Units(findings)[first])
  {
    var prefs, n := Preferences(m, [h], tolerance, findings), |Units(findings)|;
    var first := Ranking(m, h, tolerance, findings)[0].position;
    RankingMembers(m, h, tolerance, findings);
    PreferencesFit(m, [h], tolerance, findings);
    OneIndex(h);
    assert prefs[0][0] == first;
    AloneIsPlaced(prefs, n, first);
    PlacedAlone(Assigned(prefs, n, [0]), first);
  }

  lemma AloneIsPlaced(prefs: Prefs, n: nat, first: nat)
    requires Instance(prefs, n, [0]) && |prefs| == 1 && prefs[0] != [] && prefs[0][0] == first && first < n
    ensures Assigned(prefs, n, [0]) == EmptySlots(n)[first := [0]]
  {
    var order := [0];
    assert order[..0] == [];
    assert Assigned(prefs, n, order[..0]) == EmptySlots(n);
    TakesFirst(prefs, EmptySlots(n), first);
    assert EmptySlots(n)[first] + [0] == [0];
  }

  lemma TakesFirst(prefs: Prefs, slots: Slots, first: nat)
    requires Fits(prefs, slots) && |prefs| == 1 && prefs[0] != [] && prefs[0][0] == first && first < |slots|
             && slots[first] == []
    ensures Augment(prefs, slots, {}, 0).slots == slots[first := slots[first] + [0]]
  {
    assert Below(prefs[0], |slots|);
    assert Augment(prefs, slots, {}, 0) == TryUnits(prefs, slots, {}, 0, prefs[0]);
  }

  ghost predicate LegalPlace(m: Matcher, h: Human, tolerance: int, findings: seq<Finding>, place: PlaceOf) {
    place.0 < |findings| && MayCredit(m, h, tolerance, findings[place.0], place.1)
  }

  /** A place the label may be credited at, and no other such place is better. */
  ghost predicate BestPlace(m: Matcher, h: Human, tolerance: int, findings: seq<Finding>, place: PlaceOf) {
    && LegalPlace(m, h, tolerance, findings, place)
    && forall other: PlaceOf :: LegalPlace(m, h, tolerance, findings, other) ==>
         !Better(m, h, findings[other.0], other.1, findings[place.0], place.1)
  }

  /** A label that is alone in having a test is credited at a best place, when there is any. */
  lemma AloneTakesBest(m: Matcher, expected: seq<Human>, i: nat, tolerance: int, findings: seq<Finding>)
    requires i < |expected| && forall j :: 0 <= j < |expected| ==> (expected[j].mustMatch != "" <==> j == i)
    ensures |MatchGrades(m, expected, tolerance, findings)| == 1
    ensures var h, g := expected[i], MatchGrades(m, expected, tolerance, findings)[0];
            if exists place: PlaceOf :: LegalPlace(m, h, tolerance, findings, place)
            then g.value == Full && g.aiRef.Some?
                 && BestPlace(m, h, tolerance, findings, (g.aiRef.value, (h.file, g.aiLine)))
            else g.value == NoMatch
  {
    var at := GradedAt(expected);
    var h := expected[i];
    OnlyOne(at, i);
    assert Graded(expected) == [h];
    var pref := Positions(Ranking(m, h, tolerance, findings));
    RankingRanksPlaces(m, h, tolerance, findings);
    CreditedSomewhere(m, h, tolerance, findings);
    if place: PlaceOf :| LegalPlace(m, h, tolerance, findings, place) {
      assert UnitAt(findings, place) in pref;
      FirstChoice(m, h, tolerance, findings);
      FirstIsBest(m, h, tolerance, findings, pref);
    }
  }

  lemma OnlyOne(at: seq<nat>, i: nat)
    requires forall k :: k in at <==> k == i
    requires forall j, k :: 0 <= j < k < |at| ==> at[j] < at[k]
    ensures at == [i]
  {
    assert i in at;
    assert at[0] in at && at[|at| - 1] in at;
  }

  lemma FirstIsBest(m: Matcher, h: Human, tolerance: int, findings: seq<Finding>, pref: seq<nat>)
    requires pref != [] && RanksPlaces(m, h, tolerance, findings, pref)
    ensures pref[0] < |Units(findings)|
    ensures BestPlace(m, h, tolerance, findings, PlaceOfUnit(Units(findings)[pref[0]]))
  {
    assert pref[0] in pref;
    forall other: PlaceOf | LegalPlace(m, h, tolerance, findings, other)
      ensures var u := Units(findings)[pref[0]];
              !Better(m, h, findings[other.0], other.1, findings[u.ref], (u.file, u.line))
    {
      var p := UnitAt(findings, other);
      assert p in pref;
      var j :| 0 <= j < |pref| && pref[j] == p;
      var u := Units(findings)[pref[0]];
      EarlierTextIff(findings[u.ref].title, findings[u.ref].title);
      EarlierTextIff(findings[u.ref].body, findings[u.ref].body);
    }
  }

  lemma CreditedSomewhere(m: Matcher, h: Human, tolerance: int, findings: seq<Finding>)
    ensures MatchedUnit(m, [h], tolerance, findings, 0).Some? ==>
              exists place: PlaceOf :: LegalPlace(m, h, tolerance, findings, place)
  {
    CreditFits(m, [h], tolerance, findings);
    RankingRanksPlaces(m, h, tolerance, findings);
    var credit := Credit(m, [h], tolerance, findings);
    if 0 in credit {
      assert credit[0] in Positions(Ranking(m, h, tolerance, findings));
      assert LegalPlace(m, h, tolerance, findings, PlaceOfUnit(Units(findings)[credit[0]]));
    }
  }
}
