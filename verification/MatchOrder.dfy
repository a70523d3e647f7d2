/** The order of its inputs matters to the grades of the deterministic tier only through the order of units
    that rank alike. */
module MatchOrder {
  import opened Prelude
  import opened Sorting
  import opened Grading
  import opened CreditAssignment
  import opened CreditRenaming
  import opened MatchCase

  // ---------------------------------------------------------------------------------
  // What the input order could show: the units of one ranking class, in order
  // ---------------------------------------------------------------------------------

  /** What the ranking can tell about a unit, apart from where it stands in the input.  It reads a
      missing line as -1. */
  datatype RankKey = RankKey(file: string, line: int, title: string, body: string)

  /** How much of a credited unit is looked at: its line alone, or the finding it belongs to as well. */
  datatype Lens = LineOnly | WholeFinding

  datatype View = View(key: RankKey, line: Option<int>, finding: Option<Finding>)

  ghost function SpotView(lens: Lens, f: Finding, spot: Spot): View {
    View(RankKey(spot.0, LineKey(spot.1), f.title, f.body), spot.1, if lens.WholeFinding? then Some(f) else None)
  }

  ghost function FindingViews(lens: Lens, f: Finding): (r: seq<View>)
    ensures f.dropReason.Some? ==> r == []
  {
    if f.dropReason.Some? then []
    else
      var spots := CreditLocations(f);
      seq(|spots|, k requires 0 <= k < |spots| => SpotView(lens, f, spots[k]))
  }

  /** The units of the record, as seen through `lens`. */
  ghost function Views(lens: Lens, findings: seq<Finding>): (r: seq<View>) {
    if findings == [] then []
    else Views(lens, findings[..|findings| - 1]) + FindingViews(lens, findings[|findings| - 1])
  }

  ghost function UnitView(lens: Lens, findings: seq<Finding>, unit: Unit): View
    requires unit.ref < |findings|
  {
    SpotView(lens, findings[unit.ref], (unit.file, unit.line))
  }

  lemma ViewsOfFinding(lens: Lens, f: Finding, ref: nat, k: nat)
    ensures |FindingViews(lens, f)| == |UnitsOf(f, ref)|
    ensures k < |UnitsOf(f, ref)| ==>
              && UnitsOf(f, ref)[k].ref == ref
              && FindingViews(lens, f)[k] == SpotView(lens, f, (UnitsOf(f, ref)[k].file, UnitsOf(f, ref)[k].line))
  {
  }

  lemma {:induction false} ViewsOfUnits(lens: Lens, findings: seq<Finding>)
    ensures |Views(lens, findings)| == |Units(findings)|
    ensures forall p :: 0 <= p < |Units(findings)| ==>
              Views(lens, findings)[p] == UnitView(lens, findings, Units(findings)[p])
  {
    if findings != [] {
      var last := |findings| - 1;
      ViewsOfUnits(lens, findings[..last]);
      ViewsOfFinding(lens, findings[last], last, 0);
      forall p | 0 <= p < |Units(findings)|
        ensures Views(lens, findings)[p] == UnitView(lens, findings, Units(findings)[p])
      {
        if p < |Units(findings[..last])| {
          assert Units(findings)[p] == Units(findings[..last])[p];
        } else {
          ViewsOfFinding(lens, findings[last], last, p - |Units(findings[..last])|);
        }
      }
    }
  }

  lemma ViewsAppend(lens: Lens, findings: seq<Finding>, f: Finding)
    ensures Views(lens, findings + [f]) == Views(lens, findings) + FindingViews(lens, f)
  {
    var all := findings + [f];
    assert all[..|all| - 1] == findings && all[|all| - 1] == f;
  }

  lemma {:induction false} ViewsConcat(lens: Lens, a: seq<Finding>, b: seq<Finding>)
    ensures Views(lens, a + b) == Views(lens, a) + Views(lens, b)
    decreases |b|
  {
    if b == [] {
      assert a + b == a;
    } else {
      var front, last := b[..|b| - 1], b[|b| - 1];
      assert b == front + [last];
      ViewsConcat(lens, a, front);
      ConcatAssociates(a, front, [last]);
      ViewsAppend(lens, a + front, last);
      ViewsAppend(lens, front, last);
      ConcatAssociates(Views(lens, a), Views(lens, front), FindingViews(lens, last));
    }
  }

  lemma ViewsOfOne(lens: Lens, f: Finding)
    ensures Views(lens, [f]) == FindingViews(lens, f)
  {
    assert [f][..0] == [];
    assert Views(lens, [f]) == [] + FindingViews(lens, f);
  }

  /** The units of one class, in input order. */
  ghost function ClassOf(views: seq<View>, key: RankKey): (r: seq<View>)
    ensures forall v :: v in r ==> v.key == key
  {
    if views == [] then []
    else
      var last := |views| - 1;
      if views[last].key == key then ClassOf(views[..last], key) + [views[last]] else ClassOf(views[..last], key)
  }

  lemma {:induction false} ClassConcat(a: seq<View>, b: seq<View>, key: RankKey)
    ensures ClassOf(a + b, key) == ClassOf(a, key) + ClassOf(b, key)
  {
    if b == [] {
      assert a + b == a;
    } else {
      var k := |b| - 1;
      ClassConcat(a, b[..k], key);
      assert (a + b)[..|a + b| - 1] == a + b[..k];
      assert (a + b)[|a + b| - 1] == b[k];
    }
  }

  lemma ClassOfOne(v: View)
    ensures ClassOf([v], v.key) == [v]
  {
    assert [v][..0] == [];
    assert ClassOf([v], v.key) == [] + [v];
  }

  lemma {:induction false} ClassSizesPermute(a: seq<View>, b: seq<View>, key: RankKey)
    requires multiset(a) == multiset(b)
    ensures |ClassOf(a, key)| == |ClassOf(b, key)|
  {
    if a == [] {
      assert |multiset(b)| == 0;
    } else {
      var j := PullOut(a, b);
      ClassSizesPermute(a[1..], b[..j] + b[j + 1..], key);
      assert a == [a[0]] + a[1..];
      ClassConcat([a[0]], a[1..], key);
      ClassConcat(b[..j], b[j + 1..], key);
      ClassConcat(b[..j], [a[0]] + b[j + 1..], key);
      ClassConcat([a[0]], b[j + 1..], key);
    }
  }

  lemma {:induction false} ViewsPermute(lens: Lens, findings: seq<Finding>, findings': seq<Finding>)
    requires multiset(findings) == multiset(findings')
    ensures multiset(Views(lens, findings)) == multiset(Views(lens, findings'))
  {
    if findings == [] {
      assert |multiset(findings')| == 0;
    } else {
      var f, rest := findings[0], findings[1..];
      var j := PullOut(findings, findings');
      ViewsPermute(lens, rest, findings'[..j] + findings'[j + 1..]);
      ViewsConcat(lens, [f], rest);
      ViewsConcat(lens, findings'[..j], findings'[j + 1..]);
      ViewsConcat(lens, findings'[..j], [f] + findings'[j + 1..]);
      ViewsConcat(lens, [f], findings'[j + 1..]);
      assert findings == [f] + rest;
    }
  }

  // ---------------------------------------------------------------------------------
  // Matching up the units of two inputs
  // ---------------------------------------------------------------------------------

  /** How many units of its class stand before the one at position `p`. */
  ghost function Occurrence(views: seq<View>, p: nat): nat
    requires p < |views|
  {
    |ClassOf(views[..p], views[p].key)|
  }

  /** The position of the `k`-th unit of a class. */
  ghost function Nth(views: seq<View>, key: RankKey, k: nat): (r: nat)
    requires k < |ClassOf(views, key)|
    ensures r < |views| && views[r] == ClassOf(views, key)[k] && Occurrence(views, r) == k
  {
    var last := |views| - 1;
    if views[last].key == key && k == |ClassOf(views[..last], key)| then last
    else
      var r := Nth(views[..last], key, k);
      assert views[..last][..r] == views[..r];
      r
  }

  lemma OccurrenceReads(views: seq<View>, p: nat)
    requires p < |views|
    ensures Occurrence(views, p) < |ClassOf(views, views[p].key)|
    ensures ClassOf(views, views[p].key)[Occurrence(views, p)] == views[p]
  {
    var key := views[p].key;
    assert views == (views[..p] + [views[p]]) + views[p + 1..];
    ClassConcat(views[..p] + [views[p]], views[p + 1..], key);
    ClassConcat(views[..p], [views[p]], key);
    ClassOfOne(views[p]);
  }

  lemma OccurrenceGrows(views: seq<View>, p: nat, q: nat)
    requires p < q < |views| && views[p].key == views[q].key
    ensures Occurrence(views, p) < Occurrence(views, q)
  {
    OccurrenceReads(views[..q], p);
    assert views[..q][..p] == views[..p];
  }

  lemma OccurrenceOrders(views: seq<View>, a: nat, b: nat)
    requires a < |views| && b < |views| && views[a].key == views[b].key && Occurrence(views, a) < Occurrence(views, b)
    ensures a < b
  {
    if b < a { OccurrenceGrows(views, b, a); }
  }

  /** As many units in every class. */
  ghost predicate Aligned(views: seq<View>, views': seq<View>) {
    |views| == |views'| && forall key :: |ClassOf(views, key)| == |ClassOf(views', key)|
  }

  lemma PermutedAreAligned(lens: Lens, findings: seq<Finding>, findings': seq<Finding>)
    requires multiset(findings) == multiset(findings')
    ensures Aligned(Views(lens, findings), Views(lens, findings'))
  {
    var views, views' := Views(lens, findings), Views(lens, findings');
    ViewsPermute(lens, findings, findings');
    assert |multiset(views)| == |views| && |multiset(views')| == |views'|;
    forall key ensures |ClassOf(views, key)| == |ClassOf(views', key)| {
      ClassSizesPermute(views, views', key);
    }
  }

  ghost predicate MatchedUp(views: seq<View>, views': seq<View>, p: nat, p': nat)
    requires p < |views|
  {
    && p' < |views'|
    && Occurrence(views', p') == Occurrence(views, p) < |ClassOf(views', views[p].key)|
    && views'[p'] == ClassOf(views', views[p].key)[Occurrence(views, p)]
  }

  ghost function MatchOne(views: seq<View>, views': seq<View>, p: nat): (r: nat)
    requires Aligned(views, views') && p < |views|
    ensures MatchedUp(views, views', p, r)
  {
    OccurrenceReads(views, p);
    Nth(views', views[p].key, Occurrence(views, p))
  }

  /** Send each unit to the one that stands equally far in its class. */
  ghost function MatchUp(views: seq<View>, views': seq<View>): (r: seq<nat>)
    requires Aligned(views, views')
    ensures |r| == |views|
    ensures forall p :: 0 <= p < |views| ==> MatchedUp(views, views', p, r[p])
  {
    seq(|views|, p requires 0 <= p < |views| => MatchOne(views, views', p))
  }

  lemma MatchUpKeepsOrder(views: seq<View>, views': seq<View>, p: nat, q: nat)
    requires Aligned(views, views') && p < q < |views| && views[p].key == views[q].key
    ensures MatchUp(views, views')[p] < MatchUp(views, views')[q]
  {
    OccurrenceGrows(views, p, q);
    assert MatchedUp(views, views', p, MatchUp(views, views')[p]);
    assert MatchedUp(views, views', q, MatchUp(views, views')[q]);
    OccurrenceOrders(views', MatchUp(views, views')[p], MatchUp(views, views')[q]);
  }

  /** The table keeps the order of the units of a class. */
  ghost predicate KeepsOrder(views: seq<View>, table: seq<nat>) {
    && |table| == |views|
    && forall p, q :: 0 <= p < q < |views| && views[p].key == views[q].key ==> table[p] < table[q]
  }

  lemma MatchUpIsRenaming(views: seq<View>, views': seq<View>)
    requires Aligned(views, views')
    ensures Below(MatchUp(views, views'), |views|) && Injective(MatchUp(views, views'))
    ensures KeepsOrder(views, MatchUp(views, views'))
    ensures forall p :: 0 <= p < |views| ==> views'[MatchUp(views, views')[p]].key == views[p].key
  {
    var table := MatchUp(views, views');
    forall p | 0 <= p < |views| ensures table[p] < |views| && views'[table[p]].key == views[p].key {
      assert MatchedUp(views, views', p, table[p]);
      assert views'[table[p]] in ClassOf(views', views[p].key);
    }
    forall p, q | 0 <= p < q < |views| && views[p].key == views[q].key ensures table[p] < table[q] {
      MatchUpKeepsOrder(views, views', p, q);
    }
  }

  // ---------------------------------------------------------------------------------
  // The rankings correspond
  // ---------------------------------------------------------------------------------

  predicate FileLevel(h: Human) {
    h.line == None || h.line == Some(0)
  }

  ghost predicate SameClasses(views: seq<View>, views': seq<View>) {
    forall key :: ClassOf(views, key) == ClassOf(views', key)
  }

  /** A file-level label cannot see lines; any other needs the classes to be the same throughout. */
  ghost predicate LooksAlike(h: Human, views: seq<View>, views': seq<View>) {
    Aligned(views, views') && (FileLevel(h) || SameClasses(views, views'))
  }

  lemma LineTravels(h: Human, views: seq<View>, views': seq<View>, p: nat)
    requires LooksAlike(h, views, views') && p < |views|
    ensures var p' := MatchUp(views, views')[p];
            p' < |views'| && views'[p'].key == views[p].key && (FileLevel(h) || views'[p'].line == views[p].line)
  {
    MatchUpIsRenaming(views, views');
    if !FileLevel(h) {
      OccurrenceReads(views, p);
      assert MatchedUp(views, views', p, MatchUp(views, views')[p]);
    }
  }

  /** A unit's entry, without the numbers that name it in the input, and placed at `position`. */
  ghost function Plain(m: Matcher, h: Human, tolerance: int, c: Content, position: nat): Entry
    requires Candidate(m, h, tolerance, c)
  {
    EntryFor(m, h, tolerance, c, 0, 0, position)
  }

  ghost predicate PlainAt(m: Matcher, h: Human, tolerance: int, findings: seq<Finding>, table: seq<nat>,
                          p: nat, x: Entry)
    requires |table| == |Units(findings)|
  {
    && p < |Units(findings)|
    && Candidate(m, h, tolerance, UnitContent(findings, Units(findings)[p]))
    && x == Plain(m, h, tolerance, UnitContent(findings, Units(findings)[p]), table[p])
  }

  ghost function Relabel(e: Entry, table: seq<nat>): Entry
    requires e.position < |table|
  {
    e.(ref := 0, order := 0, position := table[e.position])
  }

  ghost function RelabelAll(es: seq<Entry>, table: seq<nat>): (r: seq<Entry>)
    requires Below(Positions(es), |table|)
    ensures |r| == |es|
    ensures forall i :: 0 <= i < |es| ==> es[i].position < |table| && r[i] == Relabel(es[i], table)
  {
    assert forall i :: 0 <= i < |es| ==> Positions(es)[i] == es[i].position;
    seq(|es|, i requires 0 <= i < |es| => Relabel(es[i], table))
  }

  lemma RelabelledIff(m: Matcher, h: Human, tolerance: int, findings: seq<Finding>, table: seq<nat>, x: Entry)
    requires |table| == |Units(findings)|
    requires Below(Positions(Ranking(m, h, tolerance, findings)), |table|)
    ensures x in RelabelAll(Ranking(m, h, tolerance, findings), table)
       <==> exists p: nat :: PlainAt(m, h, tolerance, findings, table, p, x)
  {
    RankingMembers(m, h, tolerance, findings);
    var s := Ranking(m, h, tolerance, findings);
    var t := RelabelAll(s, table);
    if x in t {
      var i :| 0 <= i < |t| && t[i] == x;
      assert s[i] in s;
      assert EntryOf(m, h, tolerance, findings, s[i]);
      assert PlainAt(m, h, tolerance, findings, table, s[i].position, x);
    }
    if p: nat :| PlainAt(m, h, tolerance, findings, table, p, x) {
      var u := Units(findings)[p];
      var e := EntryFor(m, h, tolerance, UnitContent(findings, u), u.ref, u.order, p);
      assert EntryOf(m, h, tolerance, findings, e);
      var i :| 0 <= i < |s| && s[i] == e;
      assert t[i] == x;
    }
  }

  /** Relabelling along a table that keeps the order within classes keeps the ranking order. */
  lemma RelabelSorted(m: Matcher, h: Human, tolerance: int, findings: seq<Finding>, lens: Lens, table: seq<nat>)
    requires KeepsOrder(Views(lens, findings), table)
    requires Below(Positions(Ranking(m, h, tolerance, findings)), |table|)
    ensures SortedBy(Ahead, RelabelAll(Ranking(m, h, tolerance, findings), table))
  {
    var s := Ranking(m, h, tolerance, findings);
    var t := RelabelAll(s, table);
    RankingMembers(m, h, tolerance, findings);
    ViewsOfUnits(lens, findings);
    forall i, j | 0 <= i < j < |t| ensures Ahead(t[i], t[j]) {
      assert s[i] in s && s[j] in s && Ahead(s[i], s[j]);
      AheadTravels(m, h, tolerance, findings, lens, table, s[i], s[j]);
    }
  }

  lemma AheadTravels(m: Matcher, h: Human, tolerance: int, findings: seq<Finding>, lens: Lens, table: seq<nat>,
                     a: Entry, b: Entry)
    requires KeepsOrder(Views(lens, findings), table)
    requires EntryOf(m, h, tolerance, findings, a) && EntryOf(m, h, tolerance, findings, b) && Ahead(a, b)
    requires a.position < |table| && b.position < |table|
    ensures Ahead(Relabel(a, table), Relabel(b, table))
  {
    ViewsOfUnits(lens, findings);
    var v, w := Views(lens, findings)[a.position], Views(lens, findings)[b.position];
    assert v.key == RankKey(h.file, a.line, a.title, a.body);
    assert w.key == RankKey(h.file, b.line, b.title, b.body);
  }

  ghost function Identity(n: nat): (r: seq<nat>)
    ensures |r| == n && forall i :: 0 <= i < n ==> r[i] == i
  {
    seq(n, i => i)
  }

  /** A candidate is the same candidate seen from either input. */
  lemma PlainTravels(m: Matcher, h: Human, tolerance: int, findings: seq<Finding>, findings': seq<Finding>,
                     lens: Lens, p: nat, x: Entry)
    requires LooksAlike(h, Views(lens, findings), Views(lens, findings')) && p < |Views(lens, findings)|
    ensures |Units(findings)| == |Units(findings')| == |Views(lens, findings)|
    ensures var table := MatchUp(Views(lens, findings), Views(lens, findings'));
            && PlainAt(m, h, tolerance, findings, table, p, x)
            <==> PlainAt(m, h, tolerance, findings', Identity(|table|), table[p], x)
  {
    ViewsOfUnits(lens, findings);
    ViewsOfUnits(lens, findings');
    LineTravels(h, Views(lens, findings), Views(lens, findings'), p);
    var p' := MatchUp(Views(lens, findings), Views(lens, findings'))[p];
    assert Views(lens, findings)[p] == UnitView(lens, findings, Units(findings)[p]);
    assert Views(lens, findings')[p'] == UnitView(lens, findings', Units(findings')[p']);
    SameCandidate(m, h, tolerance, UnitContent(findings, Units(findings)[p]),
                  UnitContent(findings', Units(findings')[p']), p');
  }

  ghost function KeyOfContent(c: Content): RankKey {
    RankKey(c.file, LineKey(c.line), c.title, c.body)
  }

  lemma SameCandidate(m: Matcher, h: Human, tolerance: int, c: Content, c': Content, position: nat)
    requires KeyOfContent(c) == KeyOfContent(c') && (FileLevel(h) || c.line == c'.line)
    ensures Candidate(m, h, tolerance, c) <==> Candidate(m, h, tolerance, c')
    ensures Candidate(m, h, tolerance, c) ==>
              Plain(m, h, tolerance, c, position) == Plain(m, h, tolerance, c', position)
  {
  }

  lemma RelabelledMembers(m: Matcher, h: Human, tolerance: int, findings: seq<Finding>, findings': seq<Finding>,
                          lens: Lens, x: Entry)
    requires LooksAlike(h, Views(lens, findings), Views(lens, findings'))
    requires Below(Positions(Ranking(m, h, tolerance, findings)), |Views(lens, findings)|)
    requires Below(Positions(Ranking(m, h, tolerance, findings')), |Views(lens, findings)|)
    ensures x in RelabelAll(Ranking(m, h, tolerance, findings), MatchUp(Views(lens, findings), Views(lens, findings')))
       <==> x in RelabelAll(Ranking(m, h, tolerance, findings'), Identity(|Views(lens, findings)|))
  {
    var n := |Views(lens, findings)|;
    var table := MatchUp(Views(lens, findings), Views(lens, findings'));
    MatchUpIsRenaming(Views(lens, findings), Views(lens, findings'));
    ViewsOfUnits(lens, findings);
    ViewsOfUnits(lens, findings');
    RelabelledIff(m, h, tolerance, findings, table, x);
    RelabelledIff(m, h, tolerance, findings', Identity(n), x);
    if p: nat :| PlainAt(m, h, tolerance, findings, table, p, x) {
      PlainTravels(m, h, tolerance, findings, findings', lens, p, x);
    }
    if p': nat :| PlainAt(m, h, tolerance, findings', Identity(n), p', x) {
      var p := Preimage(table, p');
      PlainTravels(m, h, tolerance, findings, findings', lens, p, x);
    }
  }

  lemma RankingsCorrespond(m: Matcher, h: Human, tolerance: int, findings: seq<Finding>, findings': seq<Finding>,
                           lens: Lens)
    requires LooksAlike(h, Views(lens, findings), Views(lens, findings'))
    ensures var table := MatchUp(Views(lens, findings), Views(lens, findings'));
            && Below(Positions(Ranking(m, h, tolerance, findings)), |table|)
            && Positions(Ranking(m, h, tolerance, findings'))
               == Rename(table, Positions(Ranking(m, h, tolerance, findings)))
  {
    var views, views' := Views(lens, findings), Views(lens, findings');
    var table, same := MatchUp(views, views'), Identity(|views|);
    MatchUpIsRenaming(views, views');
    ViewsOfUnits(lens, findings);
    ViewsOfUnits(lens, findings');
    RankingMembers(m, h, tolerance, findings);
    RankingMembers(m, h, tolerance, findings');
    var s, s' := Ranking(m, h, tolerance, findings), Ranking(m, h, tolerance, findings');
    RelabelSorted(m, h, tolerance, findings, lens, table);
    RelabelSorted(m, h, tolerance, findings', lens, same);
    forall x ensures x in RelabelAll(s, table) <==> x in RelabelAll(s', same) {
      RelabelledMembers(m, h, tolerance, findings, findings', lens, x);
    }
    AheadIsStrict();
    StrictlySortedUnique(Ahead, RelabelAll(s, table), RelabelAll(s', same));
    SamePositions(s, s', table);
  }

  lemma SamePositions(s: seq<Entry>, s': seq<Entry>, table: seq<nat>)
    requires Below(Positions(s), |table|) && Below(Positions(s'), |table|)
    requires RelabelAll(s, table) == RelabelAll(s', Identity(|table|))
    ensures Positions(s') == Rename(table, Positions(s))
  {
    var t, t' := RelabelAll(s, table), RelabelAll(s', Identity(|table|));
    forall i | 0 <= i < |s| ensures Positions(s')[i] == Rename(table, Positions(s))[i] {
      assert t[i] == t'[i];
    }
  }

  // ---------------------------------------------------------------------------------
  // The humans correspond
  // ---------------------------------------------------------------------------------

  ghost function IndexOf(humans: seq<Human>, h: Human): (r: nat)
    requires h in humans
    ensures r < |humans| && humans[r] == h
  {
    var i :| 0 <= i < |humans| && humans[i] == h; i
  }

  ghost predicate SameHumans(humans: seq<Human>, humans': seq<Human>) {
    forall h :: h in humans <==> h in humans'
  }

  ghost function MatchHumans(humans: seq<Human>, humans': seq<Human>): (r: seq<nat>)
    requires SameHumans(humans, humans')
    ensures |r| == |humans| && forall i :: 0 <= i < |humans| ==> r[i] < |humans'| && humans'[r[i]] == humans[i]
  {
    seq(|humans|, i requires 0 <= i < |humans| => assert humans[i] in humans; IndexOf(humans', humans[i]))
  }

  ghost predicate Before(a: Human, b: Human) {
    HumanLe(a, b) && !HumanLe(b, a)
  }

  ghost function InOrder(humans: seq<Human>): (r: seq<Human>)
    ensures |r| == |humans|
  {
    var s := Sort(KeyedLe, KeyedAll(humans));
    seq(|s|, i requires 0 <= i < |s| => s[i].human)
  }

  lemma InOrderSorted(humans: seq<Human>)
    requires UniqueIds(humans)
    ensures SortedBy(Before, InOrder(humans))
    ensures forall h :: h in InOrder(humans) <==> h in humans
    ensures forall k :: 0 <= k < |humans| ==>
              TryOrder(humans)[k] < |humans| && InOrder(humans)[k] == humans[TryOrder(humans)[k]]
  {
    var keyed := KeyedAll(humans);
    var s := Sort(KeyedLe, keyed);
    KeyedLeIsTotal();
    SortSorted(KeyedLe, keyed);
    SortMembers(KeyedLe, keyed);
    SortMultiset(KeyedLe, keyed);
    SameMultisetDistinct(keyed, s);
    StringOrder();
    var r := InOrder(humans);
    forall i, j | 0 <= i < j < |r| ensures Before(r[i], r[j]) {
      assert s[i] in keyed && s[j] in keyed && s[i] != s[j] && KeyedLe(s[i], s[j]);
      assert r[i].id != r[j].id;
    }
    forall k | 0 <= k < |humans| ensures TryOrder(humans)[k] < |humans| && r[k] == humans[TryOrder(humans)[k]] {
      assert s[k] in keyed;
    }
    forall h | h in humans ensures h in r {
      var i :| 0 <= i < |humans| && humans[i] == h;
      assert keyed[i] in s;
      var k :| 0 <= k < |s| && s[k] == keyed[i];
      assert r[k] == h;
    }
    forall h | h in r ensures h in humans {
      var k :| 0 <= k < |r| && r[k] == h;
      assert r[k] == humans[TryOrder(humans)[k]];
    }
  }

  lemma BeforeIsStrict()
    ensures StrictOrder(Before)
  {
    StringOrder();
  }

  lemma OrdersCorrespond(humans: seq<Human>, humans': seq<Human>)
    requires UniqueIds(humans) && UniqueIds(humans') && SameHumans(humans, humans')
    ensures var table := MatchHumans(humans, humans');
            && Injective(table) && Below(TryOrder(humans), |table|)
            && TryOrder(humans') == Rename(table, TryOrder(humans))
  {
    var table := MatchHumans(humans, humans');
    InOrderSorted(humans);
    InOrderSorted(humans');
    BeforeIsStrict();
    StrictlySortedUnique(Before, InOrder(humans), InOrder(humans'));
    forall k | 0 <= k < |humans| ensures TryOrder(humans')[k] == table[TryOrder(humans)[k]] {
      var i, i' := TryOrder(humans)[k], TryOrder(humans')[k];
      assert humans'[i'] == humans[i] == humans'[table[i]];
    }
    forall i, j | 0 <= i < j < |table| ensures table[i] != table[j] {
      assert humans[i].id != humans[j].id;
    }
  }

  // ---------------------------------------------------------------------------------
  // The theorem
  // ---------------------------------------------------------------------------------

  ghost predicate AllLookAlike(humans: seq<Human>, views: seq<View>, views': seq<View>) {
    Aligned(views, views') && forall h :: h in humans ==> LooksAlike(h, views, views')
  }

  lemma InstancesCorrespond(m: Matcher, humans: seq<Human>, humans': seq<Human>, tolerance: int,
                            findings: seq<Finding>, findings': seq<Finding>, lens: Lens)
    requires UniqueIds(humans) && UniqueIds(humans') && SameHumans(humans, humans')
    requires AllLookAlike(humans, Views(lens, findings), Views(lens, findings'))
    ensures |Units(findings)| == |Units(findings')| == |Views(lens, findings)|
    ensures RenamedInstance(MatchUp(Views(lens, findings), Views(lens, findings')), MatchHumans(humans, humans'),
                            Preferences(m, humans, tolerance, findings), Preferences(m, humans', tolerance, findings'),
                            TryOrder(humans), TryOrder(humans'))
  {
    MatchUpIsRenaming(Views(lens, findings), Views(lens, findings'));
    ViewsOfUnits(lens, findings);
    ViewsOfUnits(lens, findings');
    OrdersCorrespond(humans, humans');
    PreferencesFit(m, humans, tolerance, findings);
    PreferencesFit(m, humans', tolerance, findings');
    PreferencesCorrespond(m, humans, humans', tolerance, findings, findings', lens);
  }

  lemma PreferencesCorrespond(m: Matcher, humans: seq<Human>, humans': seq<Human>, tolerance: int,
                              findings: seq<Finding>, findings': seq<Finding>, lens: Lens)
    requires SameHumans(humans, humans') && AllLookAlike(humans, Views(lens, findings), Views(lens, findings'))
    ensures RenamedPrefs(MatchUp(Views(lens, findings), Views(lens, findings')), MatchHumans(humans, humans'),
                         Preferences(m, humans, tolerance, findings), Preferences(m, humans', tolerance, findings'))
  {
    var table, who := MatchUp(Views(lens, findings), Views(lens, findings')), MatchHumans(humans, humans');
    var prefs, prefs' := Preferences(m, humans, tolerance, findings), Preferences(m, humans', tolerance, findings');
    forall i | 0 <= i < |prefs| ensures Below(prefs[i], |table|) && prefs'[who[i]] == Rename(table, prefs[i]) {
      assert humans[i] in humans;
      RankingsCorrespond(m, humans[i], tolerance, findings, findings', lens);
    }
  }

  lemma CreditCorresponds(m: Matcher, humans: seq<Human>, humans': seq<Human>, tolerance: int,
                          findings: seq<Finding>, findings': seq<Finding>, lens: Lens, i: nat)
    requires UniqueIds(humans) && UniqueIds(humans') && SameHumans(humans, humans') && i < |humans|
    requires AllLookAlike(humans, Views(lens, findings), Views(lens, findings'))
    ensures var credit, credit' := Credit(m, humans, tolerance, findings), Credit(m, humans', tolerance, findings');
            var i' := MatchHumans(humans, humans')[i];
            && (i in credit <==> i' in credit')
            && (i in credit ==>
                  && credit[i] < |Views(lens, findings)|
                  && credit'[i'] == MatchUp(Views(lens, findings), Views(lens, findings'))[credit[i]])
  {
    InstancesCorrespond(m, humans, humans', tolerance, findings, findings', lens);
    PlacementRenamed(MatchUp(Views(lens, findings), Views(lens, findings')), MatchHumans(humans, humans'),
                     Preferences(m, humans, tolerance, findings), Preferences(m, humans', tolerance, findings'),
                     TryOrder(humans), TryOrder(humans'), i);
  }

  /** What a reader of a grade sees, through `lens`. */
  datatype Shown = Shown(value: GradeValue, line: Option<int>, finding: Option<Finding>)

  ghost function Show(lens: Lens, findings: seq<Finding>, g: Grade): Shown {
    Shown(g.value, g.aiLine,
          if lens.WholeFinding? && g.aiRef.Some? && g.aiRef.value < |findings| then Some(findings[g.aiRef.value])
          else None)
  }

  /** A credited label shows the view of its unit. */
  lemma CreditShows(m: Matcher, humans: seq<Human>, tolerance: int, findings: seq<Finding>, lens: Lens, i: nat)
    requires i < |humans|
    ensures var credit := Credit(m, humans, tolerance, findings);
            var shown := Show(lens, findings, GradeOf(humans[i], MatchedUnit(m, humans, tolerance, findings, i)));
            && (i !in credit ==> shown == Shown(NoMatch, None, None))
            && (i in credit ==>
                  && credit[i] < |Views(lens, findings)|
                  && var v := Views(lens, findings)[credit[i]];
                     shown == Shown(Full, v.line, v.finding))
  {
    CreditFits(m, humans, tolerance, findings);
    ViewsOfUnits(lens, findings);
  }

  lemma HumansMatch(humans: seq<Human>, humans': seq<Human>, i: nat, i': nat)
    requires UniqueIds(humans') && SameHumans(humans, humans')
    requires i < |humans| && i' < |humans'| && humans[i].id == humans'[i'].id
    ensures MatchHumans(humans, humans')[i] == i' && humans[i] == humans'[i']
  {
    assert humans'[MatchHumans(humans, humans')[i]].id == humans'[i'].id;
  }

  /** Labels are credited or not in both runs alike, at units that look the same. */
  lemma LabelLooksAlike(m: Matcher, humans: seq<Human>, humans': seq<Human>, tolerance: int,
                        findings: seq<Finding>, findings': seq<Finding>, lens: Lens, i: nat, i': nat)
    requires UniqueIds(humans) && UniqueIds(humans') && SameHumans(humans, humans')
    requires Aligned(Views(lens, findings), Views(lens, findings'))
    requires SameClasses(Views(lens, findings), Views(lens, findings'))
    requires i < |humans| && i' < |humans'| && humans[i].id == humans'[i'].id
    ensures Show(lens, findings, GradeOf(humans[i], MatchedUnit(m, humans, tolerance, findings, i)))
         == Show(lens, findings', GradeOf(humans'[i'], MatchedUnit(m, humans', tolerance, findings', i')))
  {
    var views, views' := Views(lens, findings), Views(lens, findings');
    HumansMatch(humans, humans', i, i');
    CreditCorresponds(m, humans, humans', tolerance, findings, findings', lens, i);
    CreditShows(m, humans, tolerance, findings, lens, i);
    CreditShows(m, humans', tolerance, findings', lens, i');
    var credit := Credit(m, humans, tolerance, findings);
    if i in credit {
      OccurrenceReads(views, credit[i]);
      assert MatchedUp(views, views', credit[i], MatchUp(views, views')[credit[i]]);
    }
  }

  /** The label with a given id shows the same in both lists of grades. */
  ghost predicate SameShown(lens: Lens, findings: seq<Finding>, findings': seq<Finding>,
                            grades: seq<Grade>, grades': seq<Grade>)
  {
    && |grades| == |grades'|
    && forall i, i' :: 0 <= i < |grades| && 0 <= i' < |grades'| && grades[i].humanId == grades'[i'].humanId
         ==> Show(lens, findings, grades[i]) == Show(lens, findings', grades'[i'])
  }

  lemma {:induction false} GradedMembers(expected: seq<Human>)
    ensures forall h :: h in Graded(expected) <==> h in expected && h.mustMatch != ""
    ensures UniqueIds(expected) ==> UniqueIds(Graded(expected))
  {
    if expected != [] {
      var front, last := expected[..|expected| - 1], expected[|expected| - 1];
      assert expected == front + [last];
      GradedMembers(front);
      if UniqueIds(expected) {
        assert UniqueIds(front);
        forall h | h in front ensures h.id != last.id {
          var i :| 0 <= i < |front| && front[i] == h;
          assert expected[i].id != expected[|expected| - 1].id;
        }
        assert forall i :: 0 <= i < |Graded(front)| ==> Graded(front)[i] in front;
      }
    }
  }

  lemma UniqueIdsPermute(expected: seq<Human>, expected': seq<Human>)
    requires multiset(expected) == multiset(expected') && UniqueIds(expected)
    ensures UniqueIds(expected')
    ensures forall h :: h in expected <==> h in expected'
  {
    assert Distinct(expected);
    SameMultisetDistinct(expected, expected');
    forall h ensures h in expected <==> h in expected' {
      assert h in expected <==> h in multiset(expected);
      assert h in expected' <==> h in multiset(expected');
    }
    forall i, j | 0 <= i < j < |expected'| ensures expected'[i].id != expected'[j].id {
      assert expected'[i] in expected' && expected'[j] in expected';
      var a :| 0 <= a < |expected| && expected[a] == expected'[i];
      var b :| 0 <= b < |expected| && expected[b] == expected'[j];
      assert a != b;
    }
  }

  lemma GradedCorrespond(expected: seq<Human>, expected': seq<Human>)
    requires multiset(expected) == multiset(expected') && UniqueIds(expected)
    ensures UniqueIds(Graded(expected)) && UniqueIds(Graded(expected'))
            && SameHumans(Graded(expected), Graded(expected'))
    ensures |Graded(expected)| == |Graded(expected')|
  {
    UniqueIdsPermute(expected, expected');
    GradedMembers(expected);
    GradedMembers(expected');
    OrdersCorrespond(Graded(expected), Graded(expected'));
  }

  /** The grades of a case, as a whole: they depend on the labels as a set, and on the findings only
      through the order of the units within each class. */
  lemma MatchGradesLookAlike(m: Matcher, expected: seq<Human>, expected': seq<Human>, tolerance: int,
                             findings: seq<Finding>, findings': seq<Finding>, lens: Lens)
    requires multiset(expected) == multiset(expected') && UniqueIds(expected)
    requires Aligned(Views(lens, findings), Views(lens, findings'))
    requires SameClasses(Views(lens, findings), Views(lens, findings'))
    ensures SameShown(lens, findings, findings', MatchGrades(m, expected, tolerance, findings),
                      MatchGrades(m, expected', tolerance, findings'))
  {
    GradedCorrespond(expected, expected');
    var humans, humans' := Graded(expected), Graded(expected');
    var grades := MatchGrades(m, expected, tolerance, findings);
    var grades' := MatchGrades(m, expected', tolerance, findings');
    forall i, i' | 0 <= i < |grades| && 0 <= i' < |grades'| && grades[i].humanId == grades'[i'].humanId
      ensures Show(lens, findings, grades[i]) == Show(lens, findings', grades'[i'])
    {
      assert grades[i] == GradeOf(humans[i], MatchedUnit(m, humans, tolerance, findings, i));
      assert grades'[i'] == GradeOf(humans'[i'], MatchedUnit(m, humans', tolerance, findings', i'));
      LabelLooksAlike(m, humans, humans', tolerance, findings, findings', lens, i, i');
    }
  }
}
