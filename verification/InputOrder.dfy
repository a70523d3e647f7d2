/** When the input order shows in the grades: exactly when two findings own units that rank alike and
    cannot be swapped unnoticed. */
module InputOrder {
  import opened Prelude
  import opened Sorting
  import opened Grading
  import opened CreditAssignment
  import opened MatchCase
  import opened MatchMaximum
  import opened MatchOrder

  // ---------------------------------------------------------------------------------
  // Labels that fill every unit they rank
  // ---------------------------------------------------------------------------------

  /** A label for the whole of `file`. */
  function FileLabel(name: string, file: string, pattern: string): Human {
    Human(name, file, Some(0), None, None, None, "", pattern)
  }

  function Tally(n: nat): (r: string)
    ensures |r| == n
  {
    seq(n, _ => 'x')
  }

  function Copies(file: string, pattern: string, n: nat): (r: seq<Human>)
    ensures |r| == n && forall i :: 0 <= i < n ==> r[i] == FileLabel(Tally(i), file, pattern)
  {
    seq(n, i requires 0 <= i < n => FileLabel(Tally(i), file, pattern))
  }

  lemma CopiesAreUnique(file: string, pattern: string, n: nat)
    ensures UniqueIds(Copies(file, pattern, n))
  {
    var r := Copies(file, pattern, n);
    forall i, j | 0 <= i < j < n ensures r[i].id != r[j].id {
      assert |r[i].id| == i && |r[j].id| == j;
    }
  }

  lemma {:induction false} AllGraded(expected: seq<Human>)
    requires forall h :: h in expected ==> h.mustMatch != ""
    ensures Graded(expected) == expected
  {
    if expected != [] {
      var front, last := expected[..|expected| - 1], expected[|expected| - 1];
      assert expected == front + [last];
      AllGraded(front);
    }
  }

  lemma CandidateIgnoresName(m: Matcher, file: string, pattern: string, a: string, b: string, tolerance: int,
                             c: Content, ref: nat, order: nat, position: nat)
    ensures Candidate(m, FileLabel(a, file, pattern), tolerance, c) <==>
              Candidate(m, FileLabel(b, file, pattern), tolerance, c)
    ensures Candidate(m, FileLabel(a, file, pattern), tolerance, c) ==>
              EntryFor(m, FileLabel(a, file, pattern), tolerance, c, ref, order, position)
              == EntryFor(m, FileLabel(b, file, pattern), tolerance, c, ref, order, position)
  {
  }

  lemma {:induction false} RankedIgnoresName(m: Matcher, file: string, pattern: string, a: string, b: string,
                                             tolerance: int, findings: seq<Finding>, n: nat)
    requires n <= |Units(findings)|
    ensures Ranked(m, FileLabel(a, file, pattern), tolerance, findings, n)
         == Ranked(m, FileLabel(b, file, pattern), tolerance, findings, n)
  {
    if n > 0 {
      var u := Units(findings)[n - 1];
      RankedIgnoresName(m, file, pattern, a, b, tolerance, findings, n - 1);
      CandidateIgnoresName(m, file, pattern, a, b, tolerance, UnitContent(findings, u), u.ref, u.order, n - 1);
    }
  }

  /** The ranking all copies share. */
  ghost function SharedRanking(m: Matcher, file: string, pattern: string, tolerance: int, findings: seq<Finding>)
    : seq<nat>
  {
    Positions(Ranking(m, FileLabel("", file, pattern), tolerance, findings))
  }

  lemma RankingIsDistinct(m: Matcher, h: Human, tolerance: int, findings: seq<Finding>)
    ensures Distinct(Positions(Ranking(m, h, tolerance, findings)))
  {
    var s := Ranking(m, h, tolerance, findings);
    RankingMembers(m, h, tolerance, findings);
    forall i, j | 0 <= i < j < |s| ensures s[i].position != s[j].position {
      assert s[i] in s && s[j] in s && Ahead(s[i], s[j]);
      assert EntryOf(m, h, tolerance, findings, s[i]) && EntryOf(m, h, tolerance, findings, s[j]);
    }
  }

  /** Two labels on each unit of the ranking. */
  ghost function TwoEach(ranking: seq<nat>): map<nat, nat> {
    map k: nat | 0 <= k < 2 * |ranking| :: ranking[k / 2]
  }

  lemma TwoEachFits(ranking: seq<nat>, u: nat)
    requires Distinct(ranking)
    ensures |CreditedAt(TwoEach(ranking), u)| <= MAX_CREDITS_PER_FINDING
  {
    var pick := TwoEach(ranking);
    if u in ranking {
      var j: nat :| j < |ranking| && ranking[j] == u;
      forall k | k in CreditedAt(pick, u) ensures k in {2 * j, 2 * j + 1} {
        assert ranking[k / 2] == ranking[j];
        assert k / 2 == j;
      }
      SubsetSize(CreditedAt(pick, u), {2 * j, 2 * j + 1});
    } else {
      assert CreditedAt(pick, u) == {};
    }
  }

  /** As many labels as the ranking has places: each ranked unit is credited. */
  lemma EveryPlaceIsTaken(prefs: Prefs, n: nat, order: seq<nat>, ranking: seq<nat>, p: nat)
    requires Instance(prefs, n, order) && |prefs| == 2 * |ranking|
    requires forall i :: 0 <= i < |prefs| ==> prefs[i] == ranking && i in order
    requires Distinct(ranking) && p in ranking
    ensures exists i :: i in Placement(Assigned(prefs, n, order)) && Placement(Assigned(prefs, n, order))[i] == p
  {
    var pick, found := TwoEach(ranking), Placement(Assigned(prefs, n, order));
    forall u: nat ensures |CreditedAt(pick, u)| <= MAX_CREDITS_PER_FINDING {
      TwoEachFits(ranking, u);
    }
    assert Feasible(prefs, order, pick);
    assert pick.Keys == UpTo(2 * |ranking|);
    assert |pick| == |pick.Keys|;
    PlacementIsMaximumMatching(prefs, n, order);
    if forall i :: i in found ==> found[i] != p {
      FewerPlaces(prefs, order, found, ranking, p);
    }
  }

  lemma FewerPlaces(prefs: Prefs, order: seq<nat>, found: map<nat, nat>, ranking: seq<nat>, p: nat)
    requires Feasible(prefs, order, found) && Distinct(ranking) && p in ranking
    requires forall i :: 0 <= i < |prefs| ==> prefs[i] == ranking
    requires forall i :: i in found ==> found[i] != p
    ensures |found| <= 2 * |ranking| - 2
  {
    var others := Members(ranking) - {p};
    CapacityOf(prefs, order, found, others);
    DistinctSize(ranking);
    assert |others| == |ranking| - 1;
    assert CreditedIn(found, others) == found.Keys;
    assert |found| == |found.Keys|;
  }

  lemma CopiesRankAlike(m: Matcher, file: string, pattern: string, tolerance: int, findings: seq<Finding>, n: nat)
    ensures var prefs := Preferences(m, Copies(file, pattern, n), tolerance, findings);
            forall i :: 0 <= i < n ==> prefs[i] == SharedRanking(m, file, pattern, tolerance, findings)
  {
    forall i | 0 <= i < n
      ensures Positions(Ranking(m, Copies(file, pattern, n)[i], tolerance, findings))
           == SharedRanking(m, file, pattern, tolerance, findings)
    {
      RankedIgnoresName(m, file, pattern, Tally(i), "", tolerance, findings, |Units(findings)|);
    }
  }

  /** Copies enough to fill every unit they rank. */
  ghost function EnoughCopies(m: Matcher, file: string, pattern: string, tolerance: int, findings: seq<Finding>)
    : seq<Human>
  {
    Copies(file, pattern, 2 * |SharedRanking(m, file, pattern, tolerance, findings)|)
  }

  lemma CopiesFillTheirRanking(m: Matcher, file: string, pattern: string, tolerance: int, findings: seq<Finding>,
                               p: nat)
    returns (i: nat)
    requires p < |Units(findings)|
    requires Candidate(m, FileLabel("", file, pattern), tolerance, UnitContent(findings, Units(findings)[p]))
    ensures var humans := EnoughCopies(m, file, pattern, tolerance, findings);
            var credit := Credit(m, humans, tolerance, findings);
            i < |humans| && i in credit && credit[i] == p
  {
    var ranking := SharedRanking(m, file, pattern, tolerance, findings);
    var humans := EnoughCopies(m, file, pattern, tolerance, findings);
    var prefs := Preferences(m, humans, tolerance, findings);
    CopiesRankAlike(m, file, pattern, tolerance, findings, |humans|);
    EntryMembers(m, FileLabel("", file, pattern), tolerance, findings, p);
    RankingIsDistinct(m, FileLabel("", file, pattern), tolerance, findings);
    PreferencesFit(m, humans, tolerance, findings);
    TryOrderMembers(humans);
    EveryPlaceIsTaken(prefs, |Units(findings)|, TryOrder(humans), ranking, p);
    CreditFits(m, humans, tolerance, findings);
    var credit := Credit(m, humans, tolerance, findings);
    i :| i in credit && credit[i] == p;
  }

  // ---------------------------------------------------------------------------------
  // Two classes that differ show
  // ---------------------------------------------------------------------------------

  /** If the labels and the findings are permuted, that shows in no grade. */
  ghost predicate OrderHidden(m: Matcher, tolerance: int, findings: seq<Finding>, lens: Lens,
                              expected: seq<Human>, expected': seq<Human>, findings': seq<Finding>)
  {
    multiset(expected) == multiset(expected') && UniqueIds(expected) && multiset(findings) == multiset(findings')
    ==> SameShown(lens, findings, findings', MatchGrades(m, expected, tolerance, findings),
                  MatchGrades(m, expected', tolerance, findings'))
  }

  lemma FilledUnitShows(m: Matcher, expected: seq<Human>, tolerance: int, findings: seq<Finding>,
                        findings': seq<Finding>, lens: Lens, key: RankKey, d: nat, p: nat, i: nat)
    requires Aligned(Views(lens, findings), Views(lens, findings')) && UniqueIds(expected)
    requires forall h :: h in expected ==> FileLevel(h) && h.mustMatch != ""
    requires d < |ClassOf(Views(lens, findings), key)|
    requires p < |Views(lens, findings)| && Occurrence(Views(lens, findings), p) == d
    requires Views(lens, findings)[p]
               == ClassOf(Views(lens, findings), key)[d] != ClassOf(Views(lens, findings'), key)[d]
    requires i < |expected| && i in Credit(m, expected, tolerance, findings)
    requires Credit(m, expected, tolerance, findings)[i] == p
    ensures !SameShown(lens, findings, findings', MatchGrades(m, expected, tolerance, findings),
                       MatchGrades(m, expected, tolerance, findings'))
  {
    var views, views' := Views(lens, findings), Views(lens, findings');
    assert views[p] in ClassOf(views, key);
    AllGraded(expected);
    CreditCorresponds(m, expected, expected, tolerance, findings, findings', lens, i);
    HumansMatch(expected, expected, i, i);
    assert MatchedUp(views, views', p, MatchUp(views, views')[p]);
    assert views'[MatchUp(views, views')[p]] in ClassOf(views', key);
    CreditShows(m, expected, tolerance, findings, lens, i);
    CreditShows(m, expected, tolerance, findings', lens, i);
    var grades := MatchGrades(m, expected, tolerance, findings);
    var grades' := MatchGrades(m, expected, tolerance, findings');
    assert grades[i].humanId == grades'[i].humanId;
    DifferentViewsShow(views[p], views'[MatchUp(views, views')[p]]);
  }

  /** Views of one class can only differ in what is shown. */
  lemma DifferentViewsShow(v: View, w: View)
    requires v.key == w.key && v != w
    ensures v.line != w.line || v.finding != w.finding
  {
  }

  /** Where a class reads differently in the two inputs, a label credited there shows it. */
  lemma LabelAtDifference(m: Matcher, tolerance: int, findings: seq<Finding>, findings': seq<Finding>, lens: Lens,
                          key: RankKey, pattern: string, d: nat)
    returns (expected: seq<Human>)
    requires Aligned(Views(lens, findings), Views(lens, findings'))
    requires d < |ClassOf(Views(lens, findings), key)|
    requires ClassOf(Views(lens, findings), key)[d] != ClassOf(Views(lens, findings'), key)[d]
    requires pattern != "" && m.hits(pattern, FindingText(key.title, key.body))
    ensures UniqueIds(expected)
    ensures !SameShown(lens, findings, findings', MatchGrades(m, expected, tolerance, findings),
                       MatchGrades(m, expected, tolerance, findings'))
  {
    var views := Views(lens, findings);
    var p := Nth(views, key, d);
    assert views[p] in ClassOf(views, key);
    ViewsOfUnits(lens, findings);
    expected := EnoughCopies(m, key.file, pattern, tolerance, findings);
    CopiesAreUnique(key.file, pattern, |expected|);
    var i := CopiesFillTheirRanking(m, key.file, pattern, tolerance, findings, p);
    FilledUnitShows(m, expected, tolerance, findings, findings', lens, key, d, p, i);
  }

  /** Wherever a class reads differently in the two inputs, some label shows it. */
  lemma DifferentClassesShow(m: Matcher, tolerance: int, findings: seq<Finding>, findings': seq<Finding>, lens: Lens,
                             key: RankKey, pattern: string)
    returns (expected: seq<Human>)
    requires multiset(findings) == multiset(findings')
    requires ClassOf(Views(lens, findings), key) != ClassOf(Views(lens, findings'), key)
    requires pattern != "" && m.hits(pattern, FindingText(key.title, key.body))
    ensures !OrderHidden(m, tolerance, findings, lens, expected, expected, findings')
  {
    PermutedAreAligned(lens, findings, findings');
    var d := FirstDifference(ClassOf(Views(lens, findings), key), ClassOf(Views(lens, findings'), key));
    expected := LabelAtDifference(m, tolerance, findings, findings', lens, key, pattern, d);
  }

  lemma FirstDifference(a: seq<View>, b: seq<View>) returns (d: nat)
    requires |a| == |b| && a != b
    ensures d < |a| && a[d] != b[d]
  {
    d :| d < |a| && a[d] != b[d];
  }

  // ---------------------------------------------------------------------------------
  // Findings that can be swapped
  // ---------------------------------------------------------------------------------

  /** The units of one finding in one class. */
  ghost function Word(lens: Lens, f: Finding, key: RankKey): seq<View> {
    ClassOf(FindingViews(lens, f), key)
  }

  /** In every class, it does not show which of the two findings comes first. */
  ghost predicate Commute(lens: Lens, f: Finding, g: Finding) {
    forall key :: Word(lens, f, key) + Word(lens, g, key) == Word(lens, g, key) + Word(lens, f, key)
  }

  ghost predicate OrderFree(lens: Lens, findings: seq<Finding>) {
    forall f, g :: f in findings && g in findings ==> Commute(lens, f, g)
  }

  ghost function Words(lens: Lens, findings: seq<Finding>, key: RankKey): seq<View> {
    ClassOf(Views(lens, findings), key)
  }

  lemma WordsConcat(lens: Lens, a: seq<Finding>, b: seq<Finding>, key: RankKey)
    ensures Words(lens, a + b, key) == Words(lens, a, key) + Words(lens, b, key)
  {
    ViewsConcat(lens, a, b);
    ClassConcat(Views(lens, a), Views(lens, b), key);
  }

  lemma WordsOfOne(lens: Lens, f: Finding, key: RankKey)
    ensures Words(lens, [f], key) == Word(lens, f, key)
  {
    ViewsOfOne(lens, f);
  }

  lemma WordsSplit(lens: Lens, list: seq<Finding>, key: RankKey)
    requires list != []
    ensures Words(lens, list, key) == Word(lens, list[0], key) + Words(lens, list[1..], key)
  {
    assert list == [list[0]] + list[1..];
    WordsConcat(lens, [list[0]], list[1..], key);
    WordsOfOne(lens, list[0], key);
  }

  /** A finding that commutes with each of a list commutes with the list. */
  lemma {:induction false} CommutesWithAll(lens: Lens, f: Finding, list: seq<Finding>, key: RankKey)
    requires forall g :: g in list ==> Commute(lens, f, g)
    ensures Word(lens, f, key) + Words(lens, list, key) == Words(lens, list, key) + Word(lens, f, key)
  {
    if list == [] {
      assert Words(lens, list, key) == [];
    } else {
      CommutesWithAll(lens, f, list[1..], key);
      WordsSplit(lens, list, key);
      assert Commute(lens, f, list[0]);
      PushThrough(Word(lens, f, key), Word(lens, list[0], key), Words(lens, list[1..], key));
    }
  }

  lemma PushThrough(w: seq<View>, first: seq<View>, rest: seq<View>)
    requires w + first == first + w && w + rest == rest + w
    ensures w + (first + rest) == (first + rest) + w
  {
    assert w + (first + rest) == (w + first) + rest;
    assert (first + w) + rest == first + (w + rest);
    assert first + (rest + w) == (first + rest) + w;
  }

  lemma WordsAround(lens: Lens, before: seq<Finding>, f: Finding, after: seq<Finding>, key: RankKey)
    ensures Words(lens, before + ([f] + after), key)
         == Words(lens, before, key) + (Word(lens, f, key) + Words(lens, after, key))
  {
    WordsConcat(lens, before, [f] + after, key);
    WordsConcat(lens, [f], after, key);
    WordsOfOne(lens, f, key);
  }

  /** When all findings commute, no permutation changes a class. */
  lemma {:induction false} CommutingKeepsClasses(lens: Lens, findings: seq<Finding>, findings': seq<Finding>,
                                                 key: RankKey)
    requires multiset(findings) == multiset(findings') && OrderFree(lens, findings)
    ensures Words(lens, findings, key) == Words(lens, findings', key)
  {
    if findings == [] {
      assert |multiset(findings')| == 0;
    } else {
      var j := PullOut(findings, findings');
      var f, before, after := findings[0], findings'[..j], findings'[j + 1..];
      CommutingKeepsClasses(lens, findings[1..], before + after, key);
      forall g | g in before ensures Commute(lens, f, g) {
        assert g in multiset(findings');
        assert g in findings;
      }
      CommutesWithAll(lens, f, before, key);
      WordsSplit(lens, findings, key);
      WordsConcat(lens, before, after, key);
      WordsAround(lens, before, f, after, key);
      MoveToFront(Word(lens, f, key), Words(lens, before, key), Words(lens, after, key));
    }
  }

  lemma MoveToFront(w: seq<View>, before: seq<View>, after: seq<View>)
    requires w + before == before + w
    ensures w + (before + after) == before + (w + after)
  {
    assert w + (before + after) == (w + before) + after;
    assert (before + w) + after == before + (w + after);
  }

  lemma FrontMultiset(s: seq<Finding>, x: Finding) returns (rest: seq<Finding>)
    requires x in s
    ensures multiset(s) == multiset([x] + rest) && |rest| == |s| - 1
    ensures forall y :: y in s && y != x ==> y in rest
  {
    var i: nat :| i < |s| && s[i] == x;
    rest := s[..i] + s[i + 1..];
    assert s == s[..i] + ([x] + s[i + 1..]);
    forall y | y in s && y != x ensures y in rest {
      assert y in s[..i] || y in [x] + s[i + 1..];
    }
  }

  /** Two findings of a list brought to the front, in either order. */
  lemma BringToFront(findings: seq<Finding>, f: Finding, g: Finding) returns (rest: seq<Finding>)
    requires f in findings && g in findings && f != g
    ensures multiset(findings) == multiset([f] + ([g] + rest))
    ensures multiset(findings) == multiset([g] + ([f] + rest))
  {
    var others := FrontMultiset(findings, f);
    rest := FrontMultiset(others, g);
    assert multiset([f] + others) == multiset{f} + multiset(others);
    assert multiset([f] + ([g] + rest)) == multiset{f} + multiset([g] + rest);
    assert multiset([g] + ([f] + rest)) == multiset{g} + multiset([f] + rest);
  }

  lemma SwapNeedsCommuting(w: seq<View>, v: seq<View>, rest: seq<View>)
    requires w + (v + rest) == v + (w + rest)
    ensures w + v == v + w
  {
    assert w + v == (w + (v + rest))[..|w| + |v|];
    assert v + w == (v + (w + rest))[..|w| + |v|];
  }

  /** Permuting `findings` to `findings'`, if that is what it is, changes no class. */
  ghost predicate KeepsClasses(lens: Lens, findings: seq<Finding>, findings': seq<Finding>) {
    multiset(findings) == multiset(findings') ==> SameClasses(Views(lens, findings), Views(lens, findings'))
  }

  lemma WordsOfThree(lens: Lens, f: Finding, g: Finding, rest: seq<Finding>, key: RankKey)
    ensures Words(lens, [f] + ([g] + rest), key)
         == Word(lens, f, key) + (Word(lens, g, key) + Words(lens, rest, key))
  {
    WordsConcat(lens, [f], [g] + rest, key);
    WordsConcat(lens, [g], rest, key);
    WordsOfOne(lens, f, key);
    WordsOfOne(lens, g, key);
  }

  lemma KeepsWords(lens: Lens, findings: seq<Finding>, findings': seq<Finding>, key: RankKey)
    requires KeepsClasses(lens, findings, findings') && multiset(findings) == multiset(findings')
    ensures Words(lens, findings, key) == Words(lens, findings', key)
  {
  }

  /** The two findings and the rest, read in an order the permutation allows. */
  lemma FrontWords(lens: Lens, findings: seq<Finding>, f: Finding, g: Finding, rest: seq<Finding>,
                   all: seq<Finding>, key: RankKey)
    requires forall findings' :: KeepsClasses(lens, findings, findings')
    requires all == [f] + ([g] + rest) && multiset(findings) == multiset(all)
    ensures Words(lens, findings, key) == Word(lens, f, key) + (Word(lens, g, key) + Words(lens, rest, key))
  {
    KeepsWords(lens, findings, all, key);
    WordsOfThree(lens, f, g, rest, key);
  }

  /** When no permutation changes a class, all findings commute. */
  lemma ClassesForceCommuting(lens: Lens, findings: seq<Finding>, f: Finding, g: Finding, key: RankKey)
    requires forall findings' :: KeepsClasses(lens, findings, findings')
    requires f in findings && g in findings
    ensures Word(lens, f, key) + Word(lens, g, key) == Word(lens, g, key) + Word(lens, f, key)
  {
    if f != g {
      var rest := BringToFront(findings, f, g);
      FrontWords(lens, findings, f, g, rest, [f] + ([g] + rest), key);
      FrontWords(lens, findings, g, f, rest, [g] + ([f] + rest), key);
      SwapNeedsCommuting(Word(lens, f, key), Word(lens, g, key), Words(lens, rest, key));
    }
  }

  // ---------------------------------------------------------------------------------
  // The exact condition
  // ---------------------------------------------------------------------------------

  /** Whatever the labels. */
  ghost predicate OrderNeverShows(m: Matcher, tolerance: int, findings: seq<Finding>, lens: Lens) {
    forall expected, expected', findings' ::
      OrderHidden(m, tolerance, findings, lens, expected, expected', findings')
  }

  ghost predicate CanHit(m: Matcher, text: string) {
    exists pattern :: pattern != "" && m.hits(pattern, text)
  }

  /** Every text has a test that passes on it, as `re:.*` does on all. */
  ghost predicate HitsEverything(m: Matcher) {
    forall text :: CanHit(m, text)
  }

  lemma OrderFreeHides(m: Matcher, tolerance: int, findings: seq<Finding>, lens: Lens,
                       expected: seq<Human>, expected': seq<Human>, findings': seq<Finding>)
    requires OrderFree(lens, findings)
    ensures OrderHidden(m, tolerance, findings, lens, expected, expected', findings')
  {
    if multiset(expected) == multiset(expected') && UniqueIds(expected) && multiset(findings) == multiset(findings') {
      PermutedAreAligned(lens, findings, findings');
      forall key ensures ClassOf(Views(lens, findings), key) == ClassOf(Views(lens, findings'), key) {
        CommutingKeepsClasses(lens, findings, findings', key);
      }
      MatchGradesLookAlike(m, expected, expected', tolerance, findings, findings', lens);
    }
  }

  lemma HiddenKeepsClass(m: Matcher, tolerance: int, findings: seq<Finding>, findings': seq<Finding>, lens: Lens,
                         key: RankKey)
    requires HitsEverything(m) && multiset(findings) == multiset(findings')
    requires forall expected :: OrderHidden(m, tolerance, findings, lens, expected, expected, findings')
    ensures ClassOf(Views(lens, findings), key) == ClassOf(Views(lens, findings'), key)
  {
    assert CanHit(m, FindingText(key.title, key.body));
    var pattern :| pattern != "" && m.hits(pattern, FindingText(key.title, key.body));
    if ClassOf(Views(lens, findings), key) != ClassOf(Views(lens, findings'), key) {
      var expected := DifferentClassesShow(m, tolerance, findings, findings', lens, key, pattern);
    }
  }

  lemma HiddenOrderIsFree(m: Matcher, tolerance: int, findings: seq<Finding>, lens: Lens)
    requires HitsEverything(m) && OrderNeverShows(m, tolerance, findings, lens)
    ensures OrderFree(lens, findings)
  {
    forall findings' ensures KeepsClasses(lens, findings, findings') {
      if multiset(findings) == multiset(findings') {
        forall key ensures ClassOf(Views(lens, findings), key) == ClassOf(Views(lens, findings'), key) {
          HiddenKeepsClass(m, tolerance, findings, findings', lens, key);
        }
      }
    }
    forall f, g | f in findings && g in findings ensures Commute(lens, f, g) {
      forall key ensures Word(lens, f, key) + Word(lens, g, key) == Word(lens, g, key) + Word(lens, f, key) {
        ClassesForceCommuting(lens, findings, f, g, key);
      }
    }
  }

  /** The order of labels and findings never shows, whatever the labels, exactly when no two findings have
      units that rank alike and could not be swapped unnoticed.  That it shows otherwise takes a label that
      can reach those units. */
  lemma OrderNeverShowsIff(m: Matcher, tolerance: int, findings: seq<Finding>, lens: Lens)
    ensures OrderFree(lens, findings) ==> OrderNeverShows(m, tolerance, findings, lens)
    ensures HitsEverything(m) && OrderNeverShows(m, tolerance, findings, lens) ==> OrderFree(lens, findings)
  {
    if OrderFree(lens, findings) {
      forall expected, expected', findings'
        ensures OrderHidden(m, tolerance, findings, lens, expected, expected', findings')
      {
        OrderFreeHides(m, tolerance, findings, lens, expected, expected', findings');
      }
    }
    if HitsEverything(m) && OrderNeverShows(m, tolerance, findings, lens) {
      HiddenOrderIsFree(m, tolerance, findings, lens);
    }
  }

  // ---------------------------------------------------------------------------------
  // The condition, in terms of two findings
  // ---------------------------------------------------------------------------------

  lemma {:induction false} ClassMembers(views: seq<View>, key: RankKey, v: View)
    ensures v in ClassOf(views, key) <==> v in views && v.key == key
  {
    if views != [] {
      var front, last := views[..|views| - 1], views[|views| - 1];
      assert views == front + [last];
      ClassMembers(front, key, v);
    }
  }

  lemma FindingViewMembers(lens: Lens, f: Finding, v: View)
    ensures v in FindingViews(lens, f)
       <==> f.dropReason.None? && exists s :: s in CreditLocations(f) && v == SpotView(lens, f, s)
  {
    var views, spots := FindingViews(lens, f), CreditLocations(f);
    if v in views {
      var k :| 0 <= k < |views| && views[k] == v;
      assert spots[k] in spots;
    }
    if f.dropReason.None? {
      if s :| s in spots && v == SpotView(lens, f, s) {
        var k :| 0 <= k < |spots| && spots[k] == s;
        assert views[k] == v;
      }
    }
  }

  lemma WordMembers(lens: Lens, f: Finding, key: RankKey, v: View)
    ensures v in Word(lens, f, key)
       <==> f.dropReason.None? && v.key == key && exists s :: s in CreditLocations(f) && v == SpotView(lens, f, s)
  {
    ClassMembers(FindingViews(lens, f), key, v);
    FindingViewMembers(lens, f, v);
  }

  /** Whatever stands in one of two words that commute stands in the other. */
  lemma CommutingShareMembers(w: seq<View>, u: seq<View>, v: View)
    requires w + u == u + w && u != [] && v in w
    ensures v in u
  {
    var i := FirstIndex(w, v);
    FirstComesEarly(w, u, v, i);
    assert (w + u)[i] == (u + w)[i];
  }

  lemma FirstComesEarly(w: seq<View>, u: seq<View>, v: View, i: nat)
    requires w + u == u + w && u != [] && i < |w| && w[i] == v && forall j :: 0 <= j < i ==> w[j] != v
    ensures i < |u|
  {
    assert (w + u)[i] == (u + w)[i];
  }

  lemma {:induction false} FirstIndex(w: seq<View>, v: View) returns (i: nat)
    requires v in w
    ensures i < |w| && w[i] == v && forall j :: 0 <= j < i ==> w[j] != v
  {
    if w[0] == v {
      i := 0;
    } else {
      assert w == [w[0]] + w[1..];
      i := FirstIndex(w[1..], v);
      i := i + 1;
      assert forall j :: 0 < j < i ==> w[j] == w[1..][j - 1];
    }
  }

  ghost predicate MissingLineFirst(v: View, w: View) {
    v.line.None? && w.line.Some?
  }

  lemma {:induction false} AddedHaveLines(spots: seq<Spot>, entries: seq<Location>, file: string, k: nat)
    requires |spots| <= k < |AddLocations(spots, entries, file)|
    ensures AddLocations(spots, entries, file)[k].1.Some?
    decreases |entries|
  {
    if entries != [] {
      var parsed := ParseLocation(entries[0], file);
      var more := if parsed.Some? && parsed.value !in spots then spots + [parsed.value] else spots;
      if k < |more| {
        assert AddLocations(more, entries[1..], file)[k] == more[k];
      } else {
        AddedHaveLines(more, entries[1..], file, k);
      }
    }
  }

  /** Units of one finding that rank alike differ, and only its own place can miss a line. */
  lemma SpotsApart(f: Finding, p: nat, q: nat)
    requires p < q < |CreditLocations(f)|
    requires var s, t := CreditLocations(f)[p], CreditLocations(f)[q]; s.0 == t.0 && LineKey(s.1) == LineKey(t.1)
    ensures CreditLocations(f)[p].1.None? && CreditLocations(f)[q].1.Some?
  {
    CreditLocationsMembers(f);
    AddedHaveLines([(f.file, f.line)], f.locations, f.file, q);
  }

  lemma WordSorted(lens: Lens, f: Finding, key: RankKey)
    ensures SortedBy(MissingLineFirst, Word(lens, f, key))
  {
    var views, w := FindingViews(lens, f), Word(lens, f, key);
    forall i, j | 0 <= i < j < |w| ensures MissingLineFirst(w[i], w[j]) {
      var p, q := Nth(views, key, i), Nth(views, key, j);
      assert w[i] in w && w[j] in w;
      OccurrenceOrders(views, p, q);
      SpotsApart(f, p, q);
    }
  }

  lemma SameMembersSameWord(lens: Lens, f: Finding, g: Finding, key: RankKey)
    requires forall v :: v in Word(lens, f, key) <==> v in Word(lens, g, key)
    ensures Word(lens, f, key) == Word(lens, g, key)
  {
    WordSorted(lens, f, key);
    WordSorted(lens, g, key);
    StrictlySortedUnique(MissingLineFirst, Word(lens, f, key), Word(lens, g, key));
  }

  ghost predicate Separate(lens: Lens, f: Finding, g: Finding, key: RankKey) {
    Word(lens, f, key) == [] || Word(lens, g, key) == [] || Word(lens, f, key) == Word(lens, g, key)
  }

  /** Two findings commute exactly when in each class one has no unit or both have the same. */
  lemma CommuteIff(lens: Lens, f: Finding, g: Finding)
    ensures Commute(lens, f, g) <==> forall key :: Separate(lens, f, g, key)
  {
    forall key ensures Separate(lens, f, g, key)
                  <==> Word(lens, f, key) + Word(lens, g, key) == Word(lens, g, key) + Word(lens, f, key) {
      SeparateIff(lens, f, g, key);
    }
  }

  lemma SeparateIff(lens: Lens, f: Finding, g: Finding, key: RankKey)
    ensures Separate(lens, f, g, key)
       <==> Word(lens, f, key) + Word(lens, g, key) == Word(lens, g, key) + Word(lens, f, key)
  {
    var w, u := Word(lens, f, key), Word(lens, g, key);
    if w + u == u + w && w != [] && u != [] {
      forall v ensures v in w <==> v in u {
        if v in w { CommutingShareMembers(w, u, v); }
        if v in u { CommutingShareMembers(u, w, v); }
      }
      SameMembersSameWord(lens, f, g, key);
    }
  }

  ghost predicate SameText(f: Finding, g: Finding) {
    f.dropReason.None? && g.dropReason.None? && f.title == g.title && f.body == g.body
  }

  predicate RankAlike(s: Spot, t: Spot) {
    s.0 == t.0 && LineKey(s.1) == LineKey(t.1)
  }

  /** Two findings with units that rank alike. */
  ghost predicate Rivals(f: Finding, g: Finding) {
    SameText(f, g) && exists s, t :: s in CreditLocations(f) && t in CreditLocations(g) && RankAlike(s, t)
  }

  /** Two findings whose places that rank alike are places of both. */
  ghost predicate PlacesAgree(f: Finding, g: Finding) {
    forall s, t :: s in CreditLocations(f) && t in CreditLocations(g) && RankAlike(s, t)
      ==> s in CreditLocations(g) && t in CreditLocations(f)
  }

  lemma SharedPlaces(lens: Lens, f: Finding, g: Finding, s: Spot, t: Spot)
    requires SameText(f, g) && s in CreditLocations(f) && t in CreditLocations(g) && RankAlike(s, t)
    ensures SpotView(lens, f, s) in Word(lens, f, SpotView(lens, f, s).key)
    ensures SpotView(lens, g, t) in Word(lens, g, SpotView(lens, f, s).key)
  {
    WordMembers(lens, f, SpotView(lens, f, s).key, SpotView(lens, f, s));
    WordMembers(lens, g, SpotView(lens, f, s).key, SpotView(lens, g, t));
  }

  /** Two findings with units in one class have places that rank alike. */
  lemma ClassmatesRankAlike(lens: Lens, f: Finding, g: Finding, key: RankKey) returns (s: Spot, t: Spot)
    requires Word(lens, f, key) != [] && Word(lens, g, key) != []
    ensures SameText(f, g) && s in CreditLocations(f) && t in CreditLocations(g) && RankAlike(s, t)
    ensures SpotView(lens, f, s) == Word(lens, f, key)[0] && SpotView(lens, g, t) == Word(lens, g, key)[0]
  {
    var v, w := Word(lens, f, key)[0], Word(lens, g, key)[0];
    WordMembers(lens, f, key, v);
    WordMembers(lens, g, key, w);
    s :| s in CreditLocations(f) && v == SpotView(lens, f, s);
    t :| t in CreditLocations(g) && w == SpotView(lens, g, t);
  }

  /** Seen whole, different findings commute exactly when no units of theirs rank alike. */
  lemma WholeFindingsCommuteIff(f: Finding, g: Finding)
    requires f != g
    ensures Commute(WholeFinding, f, g) <==> !Rivals(f, g)
  {
    CommuteIff(WholeFinding, f, g);
    if Rivals(f, g) {
      var s, t :| s in CreditLocations(f) && t in CreditLocations(g) && RankAlike(s, t);
      SharedPlaces(WholeFinding, f, g, s, t);
      DifferentFindingsDiffer(f, g, SpotView(WholeFinding, f, s).key);
      assert !Separate(WholeFinding, f, g, SpotView(WholeFinding, f, s).key);
    }
    forall key | !Rivals(f, g) ensures Separate(WholeFinding, f, g, key) {
      if Word(WholeFinding, f, key) != [] && Word(WholeFinding, g, key) != [] {
        var s, t := ClassmatesRankAlike(WholeFinding, f, g, key);
      }
    }
  }

  lemma DifferentFindingsDiffer(f: Finding, g: Finding, key: RankKey)
    requires f != g && Word(WholeFinding, f, key) != []
    ensures Word(WholeFinding, f, key) != Word(WholeFinding, g, key)
  {
    var v := Word(WholeFinding, f, key)[0];
    WordMembers(WholeFinding, f, key, v);
    if v in Word(WholeFinding, g, key) {
      WordMembers(WholeFinding, g, key, v);
    }
  }

  /** Seen by line alone, findings commute exactly when their places that rank alike are the same. */
  lemma LinesCommuteIff(f: Finding, g: Finding)
    ensures Commute(LineOnly, f, g) <==> (SameText(f, g) ==> PlacesAgree(f, g))
  {
    CommuteIff(LineOnly, f, g);
    if Commute(LineOnly, f, g) && SameText(f, g) {
      forall s, t | s in CreditLocations(f) && t in CreditLocations(g) && RankAlike(s, t)
        ensures s in CreditLocations(g) && t in CreditLocations(f)
      {
        SharedPlaces(LineOnly, f, g, s, t);
        assert Separate(LineOnly, f, g, SpotView(LineOnly, f, s).key);
        SameWordSamePlace(f, g, s);
        SameWordSamePlace(g, f, t);
      }
    }
    if SameText(f, g) ==> PlacesAgree(f, g) {
      forall key ensures Separate(LineOnly, f, g, key) {
        if Word(LineOnly, f, key) != [] && Word(LineOnly, g, key) != [] {
          AgreeingWords(f, g, key);
        }
      }
    }
  }

  lemma SameWordSamePlace(f: Finding, g: Finding, s: Spot)
    requires SpotView(LineOnly, f, s) in Word(LineOnly, g, SpotView(LineOnly, f, s).key)
    ensures s in CreditLocations(g)
  {
    WordMembers(LineOnly, g, SpotView(LineOnly, f, s).key, SpotView(LineOnly, f, s));
    var t :| t in CreditLocations(g) && SpotView(LineOnly, f, s) == SpotView(LineOnly, g, t);
    assert s == t;
  }

  lemma AgreeingWords(f: Finding, g: Finding, key: RankKey)
    requires Word(LineOnly, f, key) != [] && Word(LineOnly, g, key) != []
    requires SameText(f, g) ==> PlacesAgree(f, g)
    ensures Word(LineOnly, f, key) == Word(LineOnly, g, key)
  {
    var s, t := ClassmatesRankAlike(LineOnly, f, g, key);
    assert SpotView(LineOnly, f, s) in Word(LineOnly, f, key) && SpotView(LineOnly, g, t) in Word(LineOnly, g, key);
    forall v ensures v in Word(LineOnly, f, key) <==> v in Word(LineOnly, g, key) {
      AgreeingIff(f, g, key, v, s, t);
    }
    SameMembersSameWord(LineOnly, f, g, key);
  }

  lemma AgreeingIff(f: Finding, g: Finding, key: RankKey, v: View, s: Spot, t: Spot)
    requires SameText(f, g) && PlacesAgree(f, g)
    requires s in CreditLocations(f) && SpotView(LineOnly, f, s).key == key
    requires t in CreditLocations(g) && SpotView(LineOnly, g, t).key == key
    ensures v in Word(LineOnly, f, key) <==> v in Word(LineOnly, g, key)
  {
    PlacesAgreeBack(f, g);
    if v in Word(LineOnly, f, key) {
      AgreeingMember(f, g, key, v, t);
    } else if v in Word(LineOnly, g, key) {
      AgreeingMember(g, f, key, v, s);
    }
  }

  lemma PlacesAgreeBack(f: Finding, g: Finding)
    requires PlacesAgree(f, g)
    ensures PlacesAgree(g, f)
  {
    forall t, s | t in CreditLocations(g) && s in CreditLocations(f) && RankAlike(t, s)
      ensures t in CreditLocations(f) && s in CreditLocations(g)
    {
      assert RankAlike(s, t);
    }
  }

  lemma AgreeingMember(f: Finding, g: Finding, key: RankKey, v: View, t: Spot)
    requires SameText(f, g) && PlacesAgree(f, g) && v in Word(LineOnly, f, key)
    requires t in CreditLocations(g) && SpotView(LineOnly, g, t).key == key
    ensures v in Word(LineOnly, g, key)
  {
    WordMembers(LineOnly, f, key, v);
    var s :| s in CreditLocations(f) && v == SpotView(LineOnly, f, s);
    assert RankAlike(s, t);
    assert v == SpotView(LineOnly, g, s);
    WordMembers(LineOnly, g, key, v);
  }

  /** Grades, credited lines and credited findings never depend on input order exactly when no two
      different findings have units that rank alike. */
  lemma CreditedFindingIgnoresOrderIff(m: Matcher, tolerance: int, findings: seq<Finding>)
    ensures var free := forall f, g :: f in findings && g in findings && f != g ==> !Rivals(f, g);
            && (free ==> OrderNeverShows(m, tolerance, findings, WholeFinding))
            && (HitsEverything(m) && OrderNeverShows(m, tolerance, findings, WholeFinding) ==> free)
  {
    OrderNeverShowsIff(m, tolerance, findings, WholeFinding);
    forall f, g | f != g ensures Commute(WholeFinding, f, g) <==> !Rivals(f, g) {
      WholeFindingsCommuteIff(f, g);
    }
  }

  /** Grades and credited lines never depend on input order exactly when findings of the same text
      agree on their places that rank alike. */
  lemma CreditedLineIgnoresOrderIff(m: Matcher, tolerance: int, findings: seq<Finding>)
    ensures var free := forall f, g :: f in findings && g in findings && SameText(f, g) ==> PlacesAgree(f, g);
            && (free ==> OrderNeverShows(m, tolerance, findings, LineOnly))
            && (HitsEverything(m) && OrderNeverShows(m, tolerance, findings, LineOnly) ==> free)
  {
    OrderNeverShowsIff(m, tolerance, findings, LineOnly);
    forall f, g ensures Commute(LineOnly, f, g) <==> (SameText(f, g) ==> PlacesAgree(f, g)) {
      LinesCommuteIff(f, g);
    }
  }

  // ---------------------------------------------------------------------------------
  // Two inputs whose order shows
  // ---------------------------------------------------------------------------------

  lemma FirstUnitWins(m: Matcher, h: Human, tolerance: int, a: Finding, b: Finding)
    requires a.dropReason.None? && b.dropReason.None? && a.locations == [] && b.locations == []
    requires a.file == b.file == h.file && a.title == b.title && a.body == b.body && LineKey(a.line) == LineKey(b.line)
    requires h.line == Some(0) && m.hits(h.mustMatch, FindingText(a.title, a.body))
    ensures MatchedUnit(m, [h], tolerance, [a, b], 0) == Some(Unit(0, a.file, a.line, 0))
  {
    var findings := [a, b];
    TwoUnits(a, b);
    var c, d := UnitContent(findings, Units(findings)[0]), UnitContent(findings, Units(findings)[1]);
    var e := EntryFor(m, h, tolerance, c, 0, 0, 0);
    var ranking := Ranking(m, h, tolerance, findings);
    RankingMembers(m, h, tolerance, findings);
    assert EntryOf(m, h, tolerance, findings, e);
    assert e in ranking && ranking[0] in ranking;
    HeadIsLeast(Ahead, ranking);
    assert EntryOf(m, h, tolerance, findings, ranking[0]);
    assert ranking[0].position == 0;
    FirstChoice(m, h, tolerance, findings);
  }

  lemma TwoUnits(a: Finding, b: Finding)
    requires a.dropReason.None? && b.dropReason.None? && a.locations == [] && b.locations == []
    ensures Units([a, b]) == [Unit(0, a.file, a.line, 0), Unit(1, b.file, b.line, 0)]
  {
    assert [a, b][..1] == [a] && [a][..0] == [];
    assert Units([]) == [];
    assert UnitsOf(a, 0) == [Unit(0, a.file, a.line, 0)];
    assert UnitsOf(b, 1) == [Unit(1, b.file, b.line, 0)];
    assert Units([a]) == Units([a][..0]) + UnitsOf(a, 0);
    assert Units([a, b]) == Units([a, b][..1]) + UnitsOf(b, 1);
  }

  function Remark(line: Option<int>, severity: string): Finding {
    Finding("f", line, Some(severity), "t", "b", None, [])
  }

  /** A finding without a line and one with line -1 rank alike, so a file-level label is credited at
      whichever comes first, and the credited line differs. */
  lemma MissingLineShows(m: Matcher, h: Human, tolerance: int, severity: string)
    requires h.file == "f" && h.line == Some(0) && m.hits(h.mustMatch, FindingText("t", "b"))
    ensures var a, b := Remark(None, severity), Remark(Some(-1), severity);
            && multiset([a, b]) == multiset([b, a])
            && GradeOf(h, MatchedUnit(m, [h], tolerance, [a, b], 0)).aiLine == None
            && GradeOf(h, MatchedUnit(m, [h], tolerance, [b, a], 0)).aiLine == Some(-1)
  {
    var a, b := Remark(None, severity), Remark(Some(-1), severity);
    assert [a, b] == [a] + [b] && [b, a] == [b] + [a];
    FirstUnitWins(m, h, tolerance, a, b);
    FirstUnitWins(m, h, tolerance, b, a);
  }

  /** Two findings that differ in severity alone: the label is credited by whichever comes first. */
  lemma SeverityShows(m: Matcher, h: Human, tolerance: int, line: int)
    requires h.file == "f" && h.line == Some(0) && m.hits(h.mustMatch, FindingText("t", "b"))
    ensures var a, b := Remark(Some(line), "error"), Remark(Some(line), "warning");
            && multiset([a, b]) == multiset([b, a])
            && Show(WholeFinding, [a, b], GradeOf(h, MatchedUnit(m, [h], tolerance, [a, b], 0))).finding == Some(a)
            && Show(WholeFinding, [b, a], GradeOf(h, MatchedUnit(m, [h], tolerance, [b, a], 0))).finding == Some(b)
  {
    var a, b := Remark(Some(line), "error"), Remark(Some(line), "warning");
    assert [a, b] == [a] + [b] && [b, a] == [b] + [a];
    FirstUnitWins(m, h, tolerance, a, b);
    FirstUnitWins(m, h, tolerance, b, a);
  }
}
