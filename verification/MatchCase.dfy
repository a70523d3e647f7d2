/** The deterministic grading tier: ranked candidates per human finding, the assignment over
    them, and the grades.  The text tests (`must_match` and shared content tokens) are
    parameters: the theorems hold for every such pair of functions. */
module MatchCase {
  import opened Prelude
  import opened Sorting
  import opened Grading
  import opened CreditAssignment

  /** `hits(pattern, text)` is the compiled `must_match` test; `shared(human, text)` counts the
      content tokens two texts have in common. */
  datatype Matcher = Matcher(hits: (string, string) -> bool, shared: (string, string) -> nat)

  const REGEX_PREFIX := "re:"

  function RemovePrefix(s: string, prefix: string): string {
    if prefix <= s then s[|prefix|..] else s
  }

  function FindingText(title: string, body: string): string {
    title + "\n" + body
  }

  function HumanText(h: Human): string {
    h.text + "\n" + RemovePrefix(h.mustMatch, REGEX_PREFIX)
  }

  /** The line distance, or nothing when out of reach; a file-level human matches any line. */
  function Distance(humanLine: Option<int>, aiLine: Option<int>, tolerance: int): Option<nat> {
    if humanLine == None || humanLine == Some(0) then Some(0)
    else if aiLine == None then None
    else
      var gap := if aiLine.value >= humanLine.value then aiLine.value - humanLine.value
                 else humanLine.value - aiLine.value;
      if gap <= tolerance then Some(gap) else None
  }

  /** `c` may credit `h`: same file, near enough, and the text passes the test. */
  predicate Candidate(m: Matcher, h: Human, tolerance: int, c: Content) {
    && c.file == h.file
    && Distance(h.line, c.line, tolerance).Some?
    && m.hits(h.mustMatch, FindingText(c.title, c.body))
  }

  // ---------------------------------------------------------------------------------
  // Ranking the candidates of one human
  // ---------------------------------------------------------------------------------

  datatype Entry = Entry(
    gap: nat, overlap: int, line: int, title: string, body: string, ref: nat, order: nat, position: nat)

  /** Tuple comparison, field by field. */
  predicate EntryLe(a: Entry, b: Entry) {
    if a.gap != b.gap then a.gap < b.gap
    else if a.overlap != b.overlap then a.overlap < b.overlap
    else if a.line != b.line then a.line < b.line
    else if a.title != b.title then StringLe(a.title, b.title)
    else if a.body != b.body then StringLe(a.body, b.body)
    else if a.ref != b.ref then a.ref < b.ref
    else if a.order != b.order then a.order < b.order
    else a.position <= b.position
  }

  lemma EntryLeIsTotal()
    ensures TotalPreorder(EntryLe)
  {
    StringOrder();
  }

  function LineKey(line: Option<int>): int {
    if line.Some? then line.value else -1
  }

  function EntryFor(m: Matcher, h: Human, tolerance: int, c: Content, ref: nat, order: nat, position: nat): Entry
    requires Candidate(m, h, tolerance, c)
  {
    var shared: int := m.shared(HumanText(h), FindingText(c.title, c.body));
    Entry(Distance(h.line, c.line, tolerance).value, -shared,
          LineKey(c.line), c.title, c.body, ref, order, position)
  }

  /** The candidates among the first `n` units. */
  function Ranked(m: Matcher, h: Human, tolerance: int, findings: seq<Finding>, n: nat): (r: seq<Entry>)
    requires n <= |Units(findings)|
    ensures Below(Positions(r), n)
  {
    if n == 0 then []
    else
      var units := Units(findings);
      var c := UnitContent(findings, units[n - 1]);
      if Candidate(m, h, tolerance, c) then
        Ranked(m, h, tolerance, findings, n - 1)
        + [EntryFor(m, h, tolerance, c, units[n - 1].ref, units[n - 1].order, n - 1)]
      else
        Ranked(m, h, tolerance, findings, n - 1)
  }

  function Positions(entries: seq<Entry>): (r: seq<nat>)
    ensures |r| == |entries| && forall i :: 0 <= i < |r| ==> r[i] == entries[i].position
  {
    seq(|entries|, i requires 0 <= i < |entries| => entries[i].position)
  }

  /** The entry of unit `p`, when it is a candidate. */
  ghost predicate EntryOf(m: Matcher, h: Human, tolerance: int, findings: seq<Finding>, e: Entry) {
    var units := Units(findings);
    && e.position < |units|
    && var c := UnitContent(findings, units[e.position]);
       && Candidate(m, h, tolerance, c)
       && e == EntryFor(m, h, tolerance, c, units[e.position].ref, units[e.position].order, e.position)
  }

  ghost predicate EntryBelow(m: Matcher, h: Human, tolerance: int, findings: seq<Finding>, n: nat, e: Entry) {
    e.position < n && EntryOf(m, h, tolerance, findings, e)
  }

  lemma {:induction false} RankedIff(m: Matcher, h: Human, tolerance: int, findings: seq<Finding>, n: nat, e: Entry)
    requires n <= |Units(findings)|
    ensures e in Ranked(m, h, tolerance, findings, n) <==> EntryBelow(m, h, tolerance, findings, n, e)
  {
    if n > 0 {
      RankedIff(m, h, tolerance, findings, n - 1, e);
      EntryAt(m, h, tolerance, findings, n - 1, e);
      RankedLast(m, h, tolerance, findings, n, e);
    }
  }

  ghost predicate IsEntryAt(m: Matcher, h: Human, tolerance: int, findings: seq<Finding>, k: nat, e: Entry)
    requires k < |Units(findings)|
  {
    var u := Units(findings)[k];
    var c := UnitContent(findings, u);
    Candidate(m, h, tolerance, c) && e == EntryFor(m, h, tolerance, c, u.ref, u.order, k)
  }

  lemma EntryAt(m: Matcher, h: Human, tolerance: int, findings: seq<Finding>, k: nat, e: Entry)
    requires k < |Units(findings)|
    ensures EntryBelow(m, h, tolerance, findings, k + 1, e)
       <==> EntryBelow(m, h, tolerance, findings, k, e) || IsEntryAt(m, h, tolerance, findings, k, e)
  {
  }

  lemma RankedLast(m: Matcher, h: Human, tolerance: int, findings: seq<Finding>, n: nat, e: Entry)
    requires 0 < n <= |Units(findings)|
    ensures e in Ranked(m, h, tolerance, findings, n)
       <==> e in Ranked(m, h, tolerance, findings, n - 1) || IsEntryAt(m, h, tolerance, findings, n - 1, e)
  {
  }

  lemma {:induction false} RankedDistinct(m: Matcher, h: Human, tolerance: int, findings: seq<Finding>, n: nat)
    requires n <= |Units(findings)|
    ensures Distinct(Ranked(m, h, tolerance, findings, n))
  {
    if n > 0 {
      var front := Ranked(m, h, tolerance, findings, n - 1);
      RankedDistinct(m, h, tolerance, findings, n - 1);
      forall e | e in front ensures e.position < n - 1 {
        RankedIff(m, h, tolerance, findings, n - 1, e);
      }
      AppendDistinct(front, n - 1);
    }
  }

  lemma RankedMembers(m: Matcher, h: Human, tolerance: int, findings: seq<Finding>, n: nat)
    requires n <= |Units(findings)|
    ensures forall e :: e in Ranked(m, h, tolerance, findings, n)
              <==> EntryOf(m, h, tolerance, findings, e) && e.position < n
    ensures Distinct(Ranked(m, h, tolerance, findings, n))
  {
    forall e
      ensures e in Ranked(m, h, tolerance, findings, n) <==> EntryOf(m, h, tolerance, findings, e) && e.position < n
    {
      RankedIff(m, h, tolerance, findings, n, e);
    }
    RankedDistinct(m, h, tolerance, findings, n);
  }

  lemma AppendDistinct(s: seq<Entry>, n: nat)
    requires Distinct(s) && forall e :: e in s ==> e.position < n
    ensures forall x: Entry :: x.position == n ==> Distinct(s + [x])
  {
    forall x: Entry | x.position == n ensures Distinct(s + [x]) {
      forall i | 0 <= i < |s| ensures s[i] != x { assert s[i] in s; }
    }
  }

  function Ranking(m: Matcher, h: Human, tolerance: int, findings: seq<Finding>): seq<Entry> {
    Sort(EntryLe, Ranked(m, h, tolerance, findings, |Units(findings)|))
  }

  /** The order the ranking amounts to: nearest line, most shared tokens, content, input order. */
  ghost predicate Ahead(a: Entry, b: Entry) {
    if a.gap != b.gap then a.gap < b.gap
    else if a.overlap != b.overlap then a.overlap < b.overlap
    else if a.line != b.line then a.line < b.line
    else if a.title != b.title then StringLe(a.title, b.title)
    else if a.body != b.body then StringLe(a.body, b.body)
    else a.position < b.position
  }

  lemma AheadIsStrict()
    ensures StrictOrder(Ahead)
  {
    StringOrder();
  }

  /** Units are numbered by finding and location, so the last fields agree with the position. */
  lemma LeIsAhead(m: Matcher, h: Human, tolerance: int, findings: seq<Finding>, a: Entry, b: Entry)
    requires EntryOf(m, h, tolerance, findings, a) && EntryOf(m, h, tolerance, findings, b)
    requires a != b && EntryLe(a, b)
    ensures Ahead(a, b)
  {
    if a.position < b.position {
      UnitsAreOrdered(findings, a.position, b.position);
    } else if b.position < a.position {
      UnitsAreOrdered(findings, b.position, a.position);
    }
  }

  lemma RankingMembers(m: Matcher, h: Human, tolerance: int, findings: seq<Finding>)
    ensures forall e :: e in Ranking(m, h, tolerance, findings) <==> EntryOf(m, h, tolerance, findings, e)
    ensures SortedBy(Ahead, Ranking(m, h, tolerance, findings))
    ensures Below(Positions(Ranking(m, h, tolerance, findings)), |Units(findings)|)
  {
    var n := |Units(findings)|;
    var raw := Ranked(m, h, tolerance, findings, n);
    var s := Ranking(m, h, tolerance, findings);
    RankedMembers(m, h, tolerance, findings, n);
    SortMembers(EntryLe, raw);
    EntryLeIsTotal();
    SortSorted(EntryLe, raw);
    SortMultiset(EntryLe, raw);
    SameMultisetDistinct(raw, s);
    forall i, j | 0 <= i < j < |s| ensures Ahead(s[i], s[j]) {
      assert s[i] in s && s[j] in s && EntryLe(s[i], s[j]) && s[i] != s[j];
      LeIsAhead(m, h, tolerance, findings, s[i], s[j]);
    }
    forall i | 0 <= i < |s| ensures Positions(s)[i] < n {
      assert s[i] in s;
    }
  }

  // ---------------------------------------------------------------------------------
  // What the ranking means for a label
  // ---------------------------------------------------------------------------------

  /** Label `h` may be credited at place `s` of finding `f`: the finding is active, its text passes the
      test of the label, and the place is in the file of the label and, unless the label is about the
      whole file, no more than `tolerance` lines away. */
  ghost predicate MayCredit(m: Matcher, h: Human, tolerance: int, f: Finding, s: Spot) {
    && f.dropReason.None? && IsPlace(f, s)
    && m.hits(h.mustMatch, f.title + "\n" + f.body)
    && s.0 == h.file
    && (h.line in {None, Some(0)} || (s.1.Some? && -tolerance <= s.1.value - h.line.value <= tolerance))
  }

  /** How many lines place `s` is away from the label. */
  ghost function LinesAway(h: Human, s: Spot): nat {
    if h.line in {None, Some(0)} || s.1.None? then 0
    else if s.1.value < h.line.value then h.line.value - s.1.value
    else s.1.value - h.line.value
  }

  /** How many content tokens the text of `f` shares with the text and the test of the label. */
  ghost function TokensShared(m: Matcher, h: Human, f: Finding): nat {
    var test := if "re:" <= h.mustMatch then h.mustMatch[3..] else h.mustMatch;
    m.shared(h.text + "\n" + test, f.title + "\n" + f.body)
  }

  ghost function LineOrBefore(s: Spot): int {
    if s.1 == None then -1 else s.1.value
  }

  /** Place `s` of `f` is better for the label than place `t` of `g`: nearer; as near and sharing more
      tokens; or no worse in both and first by line, title and body. */
  ghost predicate Better(m: Matcher, h: Human, f: Finding, s: Spot, g: Finding, t: Spot) {
    || LinesAway(h, s) < LinesAway(h, t)
    || (LinesAway(h, s) == LinesAway(h, t)
        && (|| TokensShared(m, h, f) > TokensShared(m, h, g)
            || (TokensShared(m, h, f) == TokensShared(m, h, g) && FirstByContent(f, s, g, t))))
  }

  ghost predicate FirstByContent(f: Finding, s: Spot, g: Finding, t: Spot) {
    || LineOrBefore(s) < LineOrBefore(t)
    || (LineOrBefore(s) == LineOrBefore(t)
        && (EarlierText(f.title, g.title) || (f.title == g.title && EarlierText(f.body, g.body))))
  }

  lemma CandidateMayCredit(m: Matcher, h: Human, tolerance: int, findings: seq<Finding>, p: nat)
    requires p < |Units(findings)|
    ensures var u := Units(findings)[p];
            Candidate(m, h, tolerance, UnitContent(findings, u))
            <==> MayCredit(m, h, tolerance, findings[u.ref], (u.file, u.line))
  {
    UnitsArePlaces(findings, p);
  }

  /** `pref` names exactly the places the label may be credited at, better ones first and, among places as
      good as each other, in input order. */
  ghost predicate RanksPlaces(m: Matcher, h: Human, tolerance: int, findings: seq<Finding>, pref: seq<nat>) {
    var units := Units(findings);
    && (forall p :: p in pref <==>
          0 <= p < |units| && MayCredit(m, h, tolerance, findings[units[p].ref], (units[p].file, units[p].line)))
    && (forall i, j :: 0 <= i < j < |pref| && pref[i] < |units| && pref[j] < |units| ==>
          var u, v := units[pref[i]], units[pref[j]];
          && !Better(m, h, findings[v.ref], (v.file, v.line), findings[u.ref], (u.file, u.line))
          && (Better(m, h, findings[u.ref], (u.file, u.line), findings[v.ref], (v.file, v.line)) || pref[i] < pref[j]))
  }

  lemma EntryMembers(m: Matcher, h: Human, tolerance: int, findings: seq<Finding>, p: nat)
    requires p < |Units(findings)|
    ensures p in Positions(Ranking(m, h, tolerance, findings))
       <==> Candidate(m, h, tolerance, UnitContent(findings, Units(findings)[p]))
  {
    RankingMembers(m, h, tolerance, findings);
    var s := Ranking(m, h, tolerance, findings);
    var unit := Units(findings)[p];
    var c := UnitContent(findings, unit);
    if Candidate(m, h, tolerance, c) {
      var e := EntryFor(m, h, tolerance, c, unit.ref, unit.order, p);
      assert e in s;
      var k :| 0 <= k < |s| && s[k] == e;
      assert Positions(s)[k] == p;
    }
    if p in Positions(s) {
      var k :| 0 <= k < |s| && Positions(s)[k] == p;
      assert s[k] in s;
    }
  }

  lemma AheadIsNoWorse(m: Matcher, h: Human, tolerance: int, findings: seq<Finding>, a: Entry, b: Entry)
    requires EntryOf(m, h, tolerance, findings, a) && EntryOf(m, h, tolerance, findings, b) && Ahead(a, b)
    ensures var u, v := Units(findings)[a.position], Units(findings)[b.position];
            && !Better(m, h, findings[v.ref], (v.file, v.line), findings[u.ref], (u.file, u.line))
            && (Better(m, h, findings[u.ref], (u.file, u.line), findings[v.ref], (v.file, v.line))
                || a.position < b.position)
  {
    EarlierTextIff(b.title, a.title);
    EarlierTextIff(b.body, a.body);
    EarlierTextIff(a.title, b.title);
    EarlierTextIff(a.body, b.body);
    StringOrder();
  }

  /** The ranking of a label: the places it may be credited at, nearest line first, then most shared
      tokens, then content. */
  lemma RankingRanksPlaces(m: Matcher, h: Human, tolerance: int, findings: seq<Finding>)
    ensures RanksPlaces(m, h, tolerance, findings, Positions(Ranking(m, h, tolerance, findings)))
  {
    var s, units := Ranking(m, h, tolerance, findings), Units(findings);
    RankingMembers(m, h, tolerance, findings);
    forall p | 0 <= p < |units|
      ensures p in Positions(s)
         <==> MayCredit(m, h, tolerance, findings[units[p].ref], (units[p].file, units[p].line))
    {
      EntryMembers(m, h, tolerance, findings, p);
      CandidateMayCredit(m, h, tolerance, findings, p);
    }
    forall i, j | 0 <= i < j < |s|
      ensures var u, v := units[s[i].position], units[s[j].position];
              && !Better(m, h, findings[v.ref], (v.file, v.line), findings[u.ref], (u.file, u.line))
              && (Better(m, h, findings[u.ref], (u.file, u.line), findings[v.ref], (v.file, v.line))
                  || s[i].position < s[j].position)
    {
      assert s[i] in s && s[j] in s && Ahead(s[i], s[j]);
      AheadIsNoWorse(m, h, tolerance, findings, s[i], s[j]);
    }
  }

  // ---------------------------------------------------------------------------------
  // The order humans are tried in
  // ---------------------------------------------------------------------------------

  datatype Keyed = Keyed(human: Human, index: nat)

  function HumanLine(h: Human): int {
    if h.line.Some? then h.line.value else 0
  }

  predicate HumanLe(a: Human, b: Human) {
    if a.file != b.file then StringLe(a.file, b.file)
    else if HumanLine(a) != HumanLine(b) then HumanLine(a) < HumanLine(b)
    else StringLe(a.id, b.id)
  }

  predicate KeyedLe(a: Keyed, b: Keyed) {
    HumanLe(a.human, b.human)
  }

  lemma KeyedLeIsTotal()
    ensures TotalPreorder(KeyedLe)
  {
    StringOrder();
  }

  function Graded(expected: seq<Human>): (r: seq<Human>)
  {
    if expected == [] then []
    else Graded(expected[..|expected| - 1])
         + if expected[|expected| - 1].mustMatch != "" then [expected[|expected| - 1]] else []
  }

  function KeyedAll(humans: seq<Human>): (r: seq<Keyed>)
    ensures |r| == |humans| && forall i :: 0 <= i < |r| ==> r[i] == Keyed(humans[i], i)
  {
    seq(|humans|, i requires 0 <= i < |humans| => Keyed(humans[i], i))
  }

  function Indices(keyed: seq<Keyed>): (r: seq<nat>)
    ensures |r| == |keyed| && forall i :: 0 <= i < |r| ==> r[i] == keyed[i].index
  {
    seq(|keyed|, i requires 0 <= i < |keyed| => keyed[i].index)
  }

  function TryOrder(humans: seq<Human>): (r: seq<nat>)
    ensures |r| == |humans|
  {
    Indices(Sort(KeyedLe, KeyedAll(humans)))
  }

  /** The order is a permutation of the indices. */
  lemma TryOrderMembers(humans: seq<Human>)
    ensures Distinct(TryOrder(humans))
    ensures forall i :: i in TryOrder(humans) <==> 0 <= i < |humans|
  {
    var keyed := KeyedAll(humans);
    var s := Sort(KeyedLe, keyed);
    SortMultiset(KeyedLe, keyed);
    SortMembers(KeyedLe, keyed);
    SameMultisetDistinct(keyed, s);
    var order := TryOrder(humans);
    forall i, j | 0 <= i < j < |order| ensures order[i] != order[j] {
      assert s[i] in keyed && s[j] in keyed && s[i] != s[j];
    }
    forall i | i in order ensures 0 <= i < |humans| {
      var k :| 0 <= k < |order| && order[k] == i;
      assert s[k] in keyed;
    }
    forall i | 0 <= i < |humans| ensures i in order {
      assert keyed[i] in s;
      var k :| 0 <= k < |s| && s[k] == keyed[i];
      assert order[k] == i;
    }
  }

  /** Label `a` is tried before label `b`: its file is earlier, or its line there, a missing one counting as
      line 0, or its id. */
  ghost predicate TriedBefore(a: Human, b: Human) {
    var line, line' := if a.line == None then 0 else a.line.value, if b.line == None then 0 else b.line.value;
    || EarlierText(a.file, b.file)
    || (a.file == b.file && (line < line' || (line == line' && EarlierText(a.id, b.id))))
  }

  /** No label is tried behind one that it comes before. */
  lemma TryOrderSorted(humans: seq<Human>, j: nat, k: nat)
    requires j < k < |humans|
    ensures TryOrder(humans)[j] < |humans| && TryOrder(humans)[k] < |humans|
    ensures !TriedBefore(humans[TryOrder(humans)[k]], humans[TryOrder(humans)[j]])
  {
    var s := Sort(KeyedLe, KeyedAll(humans));
    KeyedLeIsTotal();
    SortSorted(KeyedLe, KeyedAll(humans));
    SortMembers(KeyedLe, KeyedAll(humans));
    assert s[j] in s && s[k] in s && KeyedLe(s[j], s[k]);
    var a, b := s[j].human, s[k].human;
    EarlierTextIff(b.file, a.file);
    EarlierTextIff(b.id, a.id);
    StringOrder();
  }

  // ---------------------------------------------------------------------------------
  // Grades
  // ---------------------------------------------------------------------------------

  function Preferences(m: Matcher, humans: seq<Human>, tolerance: int, findings: seq<Finding>): (r: Prefs)
    ensures |r| == |humans|
    ensures forall i :: 0 <= i < |r| ==> r[i] == Positions(Ranking(m, humans[i], tolerance, findings))
  {
    seq(|humans|, i requires 0 <= i < |humans| => Positions(Ranking(m, humans[i], tolerance, findings)))
  }

  lemma PreferencesFit(m: Matcher, humans: seq<Human>, tolerance: int, findings: seq<Finding>)
    ensures Instance(Preferences(m, humans, tolerance, findings), |Units(findings)|, TryOrder(humans))
  {
    var prefs := Preferences(m, humans, tolerance, findings);
    forall i | 0 <= i < |prefs| ensures Below(prefs[i], |Units(findings)|) {
      RankingMembers(m, humans[i], tolerance, findings);
    }
    TryOrderMembers(humans);
    assert forall k :: 0 <= k < |TryOrder(humans)| ==> TryOrder(humans)[k] in TryOrder(humans);
  }

  /** The unit credited to each graded human, by index. */
  function Credit(m: Matcher, humans: seq<Human>, tolerance: int, findings: seq<Finding>): map<nat, nat> {
    PreferencesFit(m, humans, tolerance, findings);
    Placement(Assigned(Preferences(m, humans, tolerance, findings), |Units(findings)|, TryOrder(humans)))
  }

  function GradeOf(h: Human, unit: Option<Unit>): Grade {
    match unit
    case Some(u) => Grade(h.id, Full, Some(u.ref), u.line)
    case None => Grade(h.id, NoMatch, None, None)
  }

  lemma CreditFits(m: Matcher, humans: seq<Human>, tolerance: int, findings: seq<Finding>)
    ensures var credit := Credit(m, humans, tolerance, findings);
            forall i :: i in credit ==>
              && i < |humans| && credit[i] < |Units(findings)|
              && credit[i] in Preferences(m, humans, tolerance, findings)[i]
  {
    var prefs := Preferences(m, humans, tolerance, findings);
    PreferencesFit(m, humans, tolerance, findings);
    PlacementIsMaximumMatching(prefs, |Units(findings)|, TryOrder(humans));
    var credit := Credit(m, humans, tolerance, findings);
    forall i | i in credit ensures i < |humans| && credit[i] < |Units(findings)| && credit[i] in prefs[i] {
      assert credit[i] in prefs[i] && Below(prefs[i], |Units(findings)|);
    }
  }

  /** The unit credited to human `i`, if any. */
  function UnitFor(units: seq<Unit>, credit: map<nat, nat>, i: nat): Option<Unit>
    requires forall h :: h in credit ==> credit[h] < |units|
  {
    if i in credit then Some(units[credit[i]]) else None
  }

  function MatchedUnit(m: Matcher, humans: seq<Human>, tolerance: int, findings: seq<Finding>, i: nat): Option<Unit> {
    CreditFits(m, humans, tolerance, findings);
    UnitFor(Units(findings), Credit(m, humans, tolerance, findings), i)
  }

  function GradesFor(humans: seq<Human>, units: seq<Unit>, credit: map<nat, nat>): (r: seq<Grade>)
    requires forall h :: h in credit ==> credit[h] < |units|
    ensures |r| == |humans|
    ensures forall i :: 0 <= i < |r| ==> r[i] == GradeOf(humans[i], UnitFor(units, credit, i))
  {
    seq(|humans|, i requires 0 <= i < |humans| => GradeOf(humans[i], UnitFor(units, credit, i)))
  }

  function MatchGrades(m: Matcher, expected: seq<Human>, tolerance: int, findings: seq<Finding>): (r: seq<Grade>)
    ensures |r| == |Graded(expected)|
    ensures forall i :: 0 <= i < |r| ==>
              r[i] == GradeOf(Graded(expected)[i], MatchedUnit(m, Graded(expected), tolerance, findings, i))
  {
    CreditFits(m, Graded(expected), tolerance, findings);
    GradesFor(Graded(expected), Units(findings), Credit(m, Graded(expected), tolerance, findings))
  }

  /** `at` are the indexes of the labels with a test, in input order. */
  ghost predicate TestedAt(expected: seq<Human>, at: seq<nat>) {
    && (forall i :: i in at <==> 0 <= i < |expected| && expected[i].mustMatch != "")
    && (forall j, k :: 0 <= j < k < |at| ==> at[j] < at[k])
  }

  lemma {:induction false} GradedAt(expected: seq<Human>) returns (at: seq<nat>)
    ensures TestedAt(expected, at) && |at| == |Graded(expected)|
    ensures forall k :: 0 <= k < |at| ==> at[k] in at && Graded(expected)[k] == expected[at[k]]
  {
    at := [];
    if expected != [] {
      var last := |expected| - 1;
      var front := GradedAt(expected[..last]);
      at := front + if expected[last].mustMatch != "" then [last] else [];
      assert forall i :: i in at <==> i in front || (i == last && expected[last].mustMatch != "");
    }
  }

  /** What one grade says of its label: a full grade names an active finding and the line of a place of it
      that the label may be credited at, and any other grade is `none` and names nothing. */
  ghost predicate GradeNamesMatch(m: Matcher, h: Human, tolerance: int, findings: seq<Finding>, g: Grade) {
    && g.humanId == h.id
    && if g.value == Full then
         && g.aiRef.Some? && g.aiRef.value < |findings|
         && MayCredit(m, h, tolerance, findings[g.aiRef.value], (h.file, g.aiLine))
       else g.value == NoMatch && g.aiRef == None && g.aiLine == None
  }

  /** One grade per label with a test, in input order, each of them naming a match of the label or nothing. */
  ghost predicate GradesNameMatches(m: Matcher, expected: seq<Human>, tolerance: int, findings: seq<Finding>,
                                    grades: seq<Grade>, at: seq<nat>)
  {
    && TestedAt(expected, at) && |at| == |grades|
    && forall k :: 0 <= k < |at| ==>
         at[k] < |expected| && GradeNamesMatch(m, expected[at[k]], tolerance, findings, grades[k])
  }

  lemma GradeIsMatch(m: Matcher, expected: seq<Human>, tolerance: int, findings: seq<Finding>, k: nat)
    requires k < |Graded(expected)|
    ensures GradeNamesMatch(m, Graded(expected)[k], tolerance, findings,
                            MatchGrades(m, expected, tolerance, findings)[k])
  {
    var humans := Graded(expected);
    CreditFits(m, humans, tolerance, findings);
    RankingRanksPlaces(m, humans[k], tolerance, findings);
  }

  lemma FullGradesAreMatches(m: Matcher, expected: seq<Human>, tolerance: int, findings: seq<Finding>)
    returns (at: seq<nat>)
    ensures GradesNameMatches(m, expected, tolerance, findings, MatchGrades(m, expected, tolerance, findings), at)
  {
    at := GradedAt(expected);
    forall k | 0 <= k < |at|
      ensures GradeNamesMatch(m, expected[at[k]], tolerance, findings,
                              MatchGrades(m, expected, tolerance, findings)[k])
    {
      GradeIsMatch(m, expected, tolerance, findings, k);
    }
  }

  // ---------------------------------------------------------------------------------
  // The tier as it runs
  // ---------------------------------------------------------------------------------

  lemma RankedStep(m: Matcher, h: Human, tolerance: int, findings: seq<Finding>, p: nat)
    requires p < |Units(findings)|
    ensures var unit := Units(findings)[p];
            var c := UnitContent(findings, unit);
            Ranked(m, h, tolerance, findings, p + 1) == Ranked(m, h, tolerance, findings, p)
              + if Candidate(m, h, tolerance, c) then [EntryFor(m, h, tolerance, c, unit.ref, unit.order, p)] else []
  {
  }

  /** The text tests already made, by finding. */
  ghost predicate HitsKnown(m: Matcher, h: Human, findings: seq<Finding>, hits: map<nat, bool>) {
    forall ref :: ref in hits ==>
      ref < |findings| && hits[ref] == m.hits(h.mustMatch, FindingText(findings[ref].title, findings[ref].body))
  }

  /** The text test of one finding, made at most once. */
  method TestText(m: Matcher, h: Human, findings: seq<Finding>, ref: nat, known: map<nat, bool>)
    returns (hit: bool, hits: map<nat, bool>)
    requires ref < |findings| && HitsKnown(m, h, findings, known)
    ensures HitsKnown(m, h, findings, hits)
    ensures hit == m.hits(h.mustMatch, FindingText(findings[ref].title, findings[ref].body))
  {
    hits := known;
    if ref !in hits {
      hits := hits[ref := m.hits(h.mustMatch, FindingText(findings[ref].title, findings[ref].body))];
    }
    hit := hits[ref];
  }

  /** Rank one human's candidates, testing each finding's text at most once. */
  method RankOne(m: Matcher, h: Human, tolerance: int, findings: seq<Finding>, units: seq<Unit>)
    returns (pref: seq<nat>)
    requires units == Units(findings)
    ensures pref == Positions(Ranking(m, h, tolerance, findings))
    ensures RanksPlaces(m, h, tolerance, findings, pref)
  {
    var hits: map<nat, bool> := map[];
    var ranked: seq<Entry> := [];
    for position := 0 to |units|
      invariant ranked == Ranked(m, h, tolerance, findings, position)
      invariant HitsKnown(m, h, findings, hits)
    {
      RankedStep(m, h, tolerance, findings, position);
      var unit := units[position];
      if unit.file == h.file && Distance(h.line, unit.line, tolerance).Some? {
        var hit;
        hit, hits := TestText(m, h, findings, unit.ref, hits);
        if hit {
          var c := UnitContent(findings, unit);
          ranked := ranked + [EntryFor(m, h, tolerance, c, unit.ref, unit.order, position)];
        }
      }
    }
    pref := Positions(Sort(EntryLe, ranked));
    RankingRanksPlaces(m, h, tolerance, findings);
  }

  method RankAll(m: Matcher, humans: seq<Human>, tolerance: int, findings: seq<Finding>, units: seq<Unit>)
    returns (prefs: Prefs)
    requires units == Units(findings)
    ensures prefs == Preferences(m, humans, tolerance, findings)
  {
    prefs := [];
    for i := 0 to |humans|
      invariant |prefs| == i
      invariant forall j :: 0 <= j < i ==> prefs[j] == Positions(Ranking(m, humans[j], tolerance, findings))
    {
      var pref := RankOne(m, humans[i], tolerance, findings, units);
      prefs := prefs + [pref];
    }
  }

  method AssignCredit(m: Matcher, humans: seq<Human>, tolerance: int, findings: seq<Finding>, units: seq<Unit>)
    returns (credit: map<nat, nat>)
    requires units == Units(findings)
    ensures credit == Credit(m, humans, tolerance, findings)
  {
    var prefs := RankAll(m, humans, tolerance, findings, units);
    PreferencesFit(m, humans, tolerance, findings);
    var assigner := new Assigner(prefs, |units|);
    credit := assigner.Assign(TryOrder(humans));
  }

  method CollectGrades(humans: seq<Human>, units: seq<Unit>, credit: map<nat, nat>) returns (grades: seq<Grade>)
    requires forall h :: h in credit ==> credit[h] < |units|
    ensures grades == GradesFor(humans, units, credit)
  {
    grades := [];
    for i := 0 to |humans|
      invariant grades == GradesFor(humans, units, credit)[..i]
    {
      grades := grades + [GradeOf(humans[i], if i in credit then Some(units[credit[i]]) else None)];
    }
  }

  method Match(m: Matcher, expected: seq<Human>, tolerance: int, findings: seq<Finding>)
    returns (grades: seq<Grade>)
    ensures grades == MatchGrades(m, expected, tolerance, findings)
    ensures exists at :: GradesNameMatches(m, expected, tolerance, findings, grades, at)
  {
    var humans := Graded(expected);
    var units := CollectUnits(findings);
    var credit := AssignCredit(m, humans, tolerance, findings, units);
    CreditFits(m, humans, tolerance, findings);
    grades := CollectGrades(humans, units, credit);
    ghost var _ := FullGradesAreMatches(m, expected, tolerance, findings);
  }
}
