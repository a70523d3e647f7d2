/** The second grading tier: the record as the judge sees it, its references read back as credit
    units of the first tier, and the cap held over both tiers together. */
module JudgeTier {
  import opened Prelude
  import opened Sorting
  import opened Grading
  import opened CreditAssignment
  import opened MatchCase
  import opened MatchMaximum
  import opened MatchOrder

  // ---------------------------------------------------------------------------------
  // The record the judge grades
  // ---------------------------------------------------------------------------------

  /** One row as the judge gets it, and the finding it came from. */
  datatype Row = Row(finding: Finding, origin: nat)

  /** An active finding is followed by one copy per extra location; a dropped one stands alone. */
  function RowsOf(f: Finding, index: nat): (r: seq<Row>)
    ensures |r| >= 1 && r[0] == Row(f, index)
  {
    if f.dropReason.Some? then [Row(f, index)]
    else
      var spots := CreditLocations(f);
      [Row(f, index)]
      + seq(|spots| - 1, k requires 0 <= k < |spots| - 1 =>
          Row(f.(file := spots[k + 1].0, line := spots[k + 1].1, locations := []), index))
  }

  function JudgeRows(findings: seq<Finding>): seq<Row> {
    if findings == [] then []
    else JudgeRows(findings[..|findings| - 1]) + RowsOf(findings[|findings| - 1], |findings| - 1)
  }

  method CollectJudgeRows(findings: seq<Finding>) returns (rows: seq<Row>)
    ensures rows == JudgeRows(findings)
  {
    rows := [];
    for index := 0 to |findings|
      invariant rows == JudgeRows(findings[..index])
    {
      var more := ExpandRow(findings[index], index);
      rows := rows + more;
      assert findings[..index + 1][..index] == findings[..index];
    }
    assert findings[..|findings|] == findings;
  }

  /** One copy of a finding per place. */
  method CopyRow(row: Finding, index: nat, spots: seq<Spot>) returns (rows: seq<Row>)
    ensures |rows| == |spots|
    ensures forall k :: 0 <= k < |spots| ==>
              rows[k] == Row(row.(file := spots[k].0, line := spots[k].1, locations := []), index)
  {
    rows := [];
    for k := 0 to |spots|
      invariant |rows| == k
      invariant forall i :: 0 <= i < k ==>
                  rows[i] == Row(row.(file := spots[i].0, line := spots[i].1, locations := []), index)
    {
      rows := rows + [Row(row.(file := spots[k].0, line := spots[k].1, locations := []), index)];
    }
  }

  method ExpandRow(row: Finding, index: nat) returns (rows: seq<Row>)
    ensures rows == RowsOf(row, index)
  {
    rows := [Row(row, index)];
    if row.dropReason.None? {
      var spots := CollectLocations(row);
      var copies := CopyRow(row, index, spots[1..]);
      rows := rows + copies;
    }
  }

  /** The judge numbers the rows whose drop reason is missing or empty. */
  predicate Numbered(f: Finding) {
    f.dropReason.None? || f.dropReason.value == ""
  }

  /** The rows in the order of the judge's references: reference `A<n>` is element `n - 1`. */
  function NumberedRows(rows: seq<Row>): (r: seq<Row>) {
    if rows == [] then []
    else NumberedRows(rows[..|rows| - 1])
         + if Numbered(rows[|rows| - 1].finding) then [rows[|rows| - 1]] else []
  }

  lemma {:induction false} NumberedRowsConcat(a: seq<Row>, b: seq<Row>)
    ensures NumberedRows(a + b) == NumberedRows(a) + NumberedRows(b)
  {
    if b == [] {
      assert a + b == a;
    } else {
      var k := |b| - 1;
      NumberedRowsConcat(a, b[..k]);
      assert (a + b)[..|a + b| - 1] == a + b[..k];
      assert (a + b)[|a + b| - 1] == b[k];
    }
  }

  lemma {:induction false} AllNumbered(rows: seq<Row>)
    requires forall i :: 0 <= i < |rows| ==> Numbered(rows[i].finding)
    ensures NumberedRows(rows) == rows
  {
    if rows != [] {
      AllNumbered(rows[..|rows| - 1]);
      assert rows == rows[..|rows| - 1] + [rows[|rows| - 1]];
    }
  }

  /** Row `row` stands for credit unit `unit`. */
  ghost predicate StandsFor(row: Row, unit: Unit, findings: seq<Finding>) {
    && row.origin == unit.ref < |findings|
    && row.finding.file == unit.file && row.finding.line == unit.line
    && row.finding.title == findings[unit.ref].title && row.finding.body == findings[unit.ref].body
  }

  /** How many findings carry an empty, but present, drop reason. */
  ghost function EmptyDrops(findings: seq<Finding>): nat {
    if findings == [] then 0
    else EmptyDrops(findings[..|findings| - 1]) + if findings[|findings| - 1].dropReason == Some("") then 1 else 0
  }

  lemma RowsOfNumbered(f: Finding, index: nat)
    ensures f.dropReason.None? ==> NumberedRows(RowsOf(f, index)) == RowsOf(f, index)
    ensures f.dropReason.Some? ==>
              NumberedRows(RowsOf(f, index)) == if f.dropReason == Some("") then RowsOf(f, index) else []
  {
    if f.dropReason.None? {
      AllNumbered(RowsOf(f, index));
    }
  }

  lemma RowsSnoc(rows: seq<Row>, f: Finding, index: nat)
    ensures NumberedRows(rows + RowsOf(f, index))
         == if Numbered(f) then NumberedRows(rows) + RowsOf(f, index) else NumberedRows(rows)
  {
    NumberedRowsConcat(rows, RowsOf(f, index));
    RowsOfNumbered(f, index);
    assert NumberedRows(rows) + [] == NumberedRows(rows);
  }

  lemma NumberedSnoc(findings: seq<Finding>)
    requires findings != []
    ensures var front, last := findings[..|findings| - 1], findings[|findings| - 1];
            NumberedRows(JudgeRows(findings))
            == if Numbered(last) then NumberedRows(JudgeRows(front)) + RowsOf(last, |front|)
               else NumberedRows(JudgeRows(front))
  {
    var front, last := findings[..|findings| - 1], findings[|findings| - 1];
    RowsSnoc(JudgeRows(front), last, |front|);
  }

  lemma MembersSnoc(findings: seq<Finding>)
    requires findings != []
    ensures forall f :: f in findings <==> f in findings[..|findings| - 1] || f == findings[|findings| - 1]
  {
    assert findings == findings[..|findings| - 1] + [findings[|findings| - 1]];
  }

  /** The numbered rows are the credit units, one for one and in order. */
  ghost predicate SameUnits(rows: seq<Row>, units: seq<Unit>, findings: seq<Finding>) {
    && |rows| == |units|
    && forall n :: 0 <= n < |units| ==> StandsFor(rows[n], units[n], findings)
  }

  lemma SameUnitsAppend(rows: seq<Row>, units: seq<Unit>, front: seq<Finding>, rows': seq<Row>, units': seq<Unit>,
                        findings: seq<Finding>)
    requires SameUnits(rows, units, front) && front <= findings && SameUnits(rows', units', findings)
    ensures SameUnits(rows + rows', units + units', findings)
  {
    forall n | 0 <= n < |units| ensures StandsFor(rows[n], units[n], findings) {
      assert StandsFor(rows[n], units[n], front);
    }
  }

  lemma RowStandsForUnit(f: Finding, index: nat, findings: seq<Finding>, n: nat)
    requires index < |findings| && findings[index] == f && f.dropReason.None?
    ensures |RowsOf(f, index)| == |UnitsOf(f, index)|
    ensures n < |UnitsOf(f, index)| ==> StandsFor(RowsOf(f, index)[n], UnitsOf(f, index)[n], findings)
  {
  }

  lemma RowsStandForUnits(f: Finding, index: nat, findings: seq<Finding>)
    requires index < |findings| && findings[index] == f
    ensures f.dropReason.None? ==> SameUnits(RowsOf(f, index), UnitsOf(f, index), findings)
  {
    if f.dropReason.None? {
      RowStandsForUnit(f, index, findings, 0);
      forall n | 0 <= n < |UnitsOf(f, index)| ensures StandsFor(RowsOf(f, index)[n], UnitsOf(f, index)[n], findings) {
        RowStandsForUnit(f, index, findings, n);
      }
    }
  }

  /** The judge's n-th reference names the n-th credit unit of the first tier. */
  lemma {:induction false} TiersCountTheSameUnits(findings: seq<Finding>)
    requires forall f :: f in findings ==> f.dropReason != Some("")
    ensures SameUnits(NumberedRows(JudgeRows(findings)), Units(findings), findings)
  {
    if findings != [] {
      var k := |findings| - 1;
      var front := findings[..k];
      NumberedSnoc(findings);
      MembersSnoc(findings);
      TiersCountTheSameUnits(front);
      RowsStandForUnits(findings[k], k, findings);
      var rows, units := NumberedRows(JudgeRows(front)), Units(front);
      if findings[k].dropReason.None? {
        SameUnitsAppend(rows, units, front, RowsOf(findings[k], k), UnitsOf(findings[k], k), findings);
      } else {
        assert findings[k] in findings;
        SameUnitsAppend(rows, units, front, [], [], findings);
        assert rows + [] == rows && units + [] == units;
      }
    }
  }

  /** In general the judge numbers one row more per finding with an empty drop reason: such a row
      is dropped for the first tier and numbered for the judge. */
  lemma {:induction false} TiersDifferByEmptyDrops(findings: seq<Finding>)
    ensures |NumberedRows(JudgeRows(findings))| == |Units(findings)| + EmptyDrops(findings)
  {
    if findings != [] {
      var k := |findings| - 1;
      NumberedSnoc(findings);
      RowsStandForUnits(findings[k], k, findings);
      TiersDifferByEmptyDrops(findings[..k]);
    }
  }

  lemma {:induction false} NoEmptyDrops(findings: seq<Finding>)
    ensures EmptyDrops(findings) == 0 <==> forall f :: f in findings ==> f.dropReason != Some("")
  {
    if findings != [] {
      MembersSnoc(findings);
      NoEmptyDrops(findings[..|findings| - 1]);
    }
  }

  /** The tiers agree exactly when no finding carries an empty drop reason. */
  lemma TiersAgreeIff(findings: seq<Finding>)
    ensures SameUnits(NumberedRows(JudgeRows(findings)), Units(findings), findings)
       <==> forall f :: f in findings ==> f.dropReason != Some("")
  {
    TiersDifferByEmptyDrops(findings);
    NoEmptyDrops(findings);
    if forall f :: f in findings ==> f.dropReason != Some("") {
      TiersCountTheSameUnits(findings);
    }
  }

  // ---------------------------------------------------------------------------------
  // Judge grades as grades of the record
  // ---------------------------------------------------------------------------------

  /** One grade of a parsed reply: the reference, when there is one, is a number 1..n. */
  datatype JudgeGrade = JudgeGrade(humanId: string, value: GradeValue, aiRef: Option<nat>)

  /** What the reply parser promises about a credited grade: a real reference, in the label's file. */
  ghost predicate Validated(g: JudgeGrade, human: Human, numbered: seq<Row>) {
    && g.humanId == human.id
    && g.value != JudgeError
    && (g.aiRef.Some? ==> 1 <= g.aiRef.value <= |numbered|)
    && (CreditedValue(g.value) ==> g.aiRef.Some? && numbered[g.aiRef.value - 1].finding.file == human.file)
  }

  function ReadJudgeGrade(g: JudgeGrade, numbered: seq<Row>): Grade
    requires g.aiRef.Some? ==> 1 <= g.aiRef.value <= |numbered|
  {
    if g.value == NoMatch || g.aiRef.None? then Grade(g.humanId, NoMatch, None, None)
    else
      var row := numbered[g.aiRef.value - 1];
      Grade(g.humanId, g.value, Some(row.origin), row.finding.line)
  }

  type Key = (Option<nat>, string, Option<int>)

  function KeyOf(human: Human, g: Grade): Key {
    (g.aiRef, human.file, g.aiLine)
  }

  function UnitKey(u: Unit): Key {
    (Some(u.ref), u.file, u.line)
  }

  lemma UnitKeysDiffer(findings: seq<Finding>, p: nat, q: nat)
    requires p < |Units(findings)| && q < |Units(findings)| && p != q
    ensures UnitKey(Units(findings)[p]) != UnitKey(Units(findings)[q])
  {
    if p < q { UnitsAreDistinct(findings, p, q); } else { UnitsAreDistinct(findings, q, p); }
  }

  lemma NamedKey(rows: seq<Row>, units: seq<Unit>, findings: seq<Finding>, g: JudgeGrade, human: Human)
    requires SameUnits(rows, units, findings)
    requires Validated(g, human, rows) && CreditedValue(g.value)
    ensures g.aiRef.value - 1 < |units| && KeyOf(human, ReadJudgeGrade(g, rows)) == UnitKey(units[g.aiRef.value - 1])
  {
    assert StandsFor(rows[g.aiRef.value - 1], units[g.aiRef.value - 1], findings);
  }

  /** `key` is the key of unit `n`, and of no other. */
  ghost predicate NamesOnly(findings: seq<Finding>, key: Key, n: int) {
    && 0 <= n < |Units(findings)| && UnitKey(Units(findings)[n]) == key
    && forall p :: 0 <= p < |Units(findings)| && p != n ==> UnitKey(Units(findings)[p]) != key
  }

  lemma UnitNamesOnly(findings: seq<Finding>, key: Key, n: int)
    requires 0 <= n < |Units(findings)| && key == UnitKey(Units(findings)[n])
    ensures NamesOnly(findings, key, n)
  {
    forall p | 0 <= p < |Units(findings)| && p != n ensures UnitKey(Units(findings)[p]) != UnitKey(Units(findings)[n]) {
      UnitKeysDiffer(findings, p, n);
    }
  }

  /** A credited judge grade names exactly one credit unit of the record: the one its reference numbers. */
  lemma JudgeGradeNamesUnit(findings: seq<Finding>, g: JudgeGrade, human: Human)
    requires forall f :: f in findings ==> f.dropReason != Some("")
    requires Validated(g, human, NumberedRows(JudgeRows(findings))) && CreditedValue(g.value)
    ensures NamesOnly(findings, KeyOf(human, ReadJudgeGrade(g, NumberedRows(JudgeRows(findings)))), g.aiRef.value - 1)
  {
    TiersCountTheSameUnits(findings);
    ReferenceNamesUnit(NumberedRows(JudgeRows(findings)), findings, g, human);
  }

  lemma ReferenceNamesUnit(rows: seq<Row>, findings: seq<Finding>, g: JudgeGrade, human: Human)
    requires SameUnits(rows, Units(findings), findings) && Validated(g, human, rows) && CreditedValue(g.value)
    ensures NamesOnly(findings, KeyOf(human, ReadJudgeGrade(g, rows)), g.aiRef.value - 1)
  {
    NamedKey(rows, Units(findings), findings, g, human);
    UnitNamesOnly(findings, KeyOf(human, ReadJudgeGrade(g, rows)), g.aiRef.value - 1);
  }

  // ---------------------------------------------------------------------------------
  // The cap over both tiers
  // ---------------------------------------------------------------------------------

  type Grades = map<string, Grade>

  ghost predicate Covers(grades: Grades, expected: seq<Human>) {
    forall h :: h in expected ==> h.id in grades
  }

  function Uncredited(id: string): Grade {
    Grade(id, NoMatch, None, None)
  }

  /** The unit keys credited to the humans of `humans`, with multiplicity. */
  function CreditedKeys(humans: seq<Human>, grades: Grades): (r: multiset<Key>)
    requires Covers(grades, humans)
  {
    if humans == [] then multiset{}
    else
      var h := humans[|humans| - 1];
      assert Covers(grades, humans[..|humans| - 1]);
      CreditedKeys(humans[..|humans| - 1], grades)
      + if CreditedValue(grades[h.id].value) then multiset{KeyOf(h, grades[h.id])} else multiset{}
  }

  /** The humans the judge credited, with their places among the labels. */
  datatype Claim = Claim(late: bool, index: nat, human: Human)

  function Claims(expected: seq<Human>, grades: Grades): (r: seq<Claim>)
    requires Covers(grades, expected)
    ensures forall i :: 0 <= i < |r| ==> r[i].index < |expected| && expected[r[i].index] == r[i].human
    ensures forall i, j :: 0 <= i < j < |r| ==> r[i].index < r[j].index
    ensures forall i :: 0 <= i < |r| ==> r[i].human.mustMatch == "" && CreditedValue(grades[r[i].human.id].value)
  {
    if expected == [] then []
    else
      var k := |expected| - 1;
      var h := expected[k];
      assert Covers(grades, expected[..k]);
      Claims(expected[..k], grades)
      + if h.mustMatch == "" && CreditedValue(grades[h.id].value)
        then [Claim(grades[h.id].value != Full, k, h)] else []
  }

  /** Full credit first, then label order. */
  predicate ClaimLe(a: Claim, b: Claim) {
    if a.late != b.late then !a.late else a.index <= b.index
  }

  function Humans(claims: seq<Claim>): (r: seq<Human>)
    ensures |r| == |claims| && forall i :: 0 <= i < |r| ==> r[i] == claims[i].human
  {
    seq(|claims|, i requires 0 <= i < |claims| => claims[i].human)
  }

  function InClaimOrder(expected: seq<Human>, grades: Grades): (r: seq<Human>)
    requires Covers(grades, expected)
  {
    Humans(Sort(ClaimLe, Claims(expected, grades)))
  }

  /** Settle the claims one by one: a claim on a unit at the cap is graded none. */
  function Settle(todo: seq<Human>, used: multiset<Key>, grades: Grades): (r: Grades)
    requires Covers(grades, todo)
    ensures r.Keys == grades.Keys
  {
    if todo == [] then grades
    else
      var h := todo[0];
      assert Covers(grades, todo[1..]) by { assert forall x :: x in todo[1..] ==> x in todo; }
      var key := KeyOf(h, grades[h.id]);
      if used[key] >= MAX_CREDITS_PER_FINDING then
        var lower := grades[h.id := Uncredited(h.id)];
        assert Covers(lower, todo[1..]) by { assert forall x :: x in todo[1..] ==> x in todo; }
        Settle(todo[1..], used, lower)
      else
        Settle(todo[1..], used + multiset{key}, grades)
  }

  /** Claims are settled full credit first, then in label order. */
  lemma ClaimOrderSorted(expected: seq<Human>, grades: Grades)
    requires Covers(grades, expected)
    ensures SortedBy(ClaimLe, Sort(ClaimLe, Claims(expected, grades)))
    ensures multiset(InClaimOrder(expected, grades)) == multiset(Humans(Claims(expected, grades)))
  {
    var claims := Claims(expected, grades);
    SortSorted(ClaimLe, claims);
    SortMultiset(ClaimLe, claims);
    HumansPermute(claims, Sort(ClaimLe, claims));
  }

  lemma ClaimsDiffer(expected: seq<Human>, grades: Grades, a: Claim, b: Claim)
    requires Covers(grades, expected) && UniqueIds(expected) && a != b
    requires a in Claims(expected, grades) && b in Claims(expected, grades)
    ensures a.human.id != b.human.id
  {
    var claims := Claims(expected, grades);
    var i :| 0 <= i < |claims| && claims[i] == a;
    var j :| 0 <= j < |claims| && claims[j] == b;
    if i < j {
      assert claims[i].index < claims[j].index;
    } else {
      assert claims[j].index < claims[i].index;
    }
  }

  lemma ClaimOrderUnique(expected: seq<Human>, grades: Grades)
    requires Covers(grades, expected) && UniqueIds(expected)
    ensures UniqueIds(InClaimOrder(expected, grades))
  {
    var claims := Claims(expected, grades);
    var s := Sort(ClaimLe, claims);
    SortMultiset(ClaimLe, claims);
    SortMembers(ClaimLe, claims);
    SameMultisetDistinct(claims, s);
    var order := InClaimOrder(expected, grades);
    forall i, j | 0 <= i < j < |order| ensures order[i].id != order[j].id {
      assert s[i] in s && s[j] in s && s[i] != s[j];
      ClaimsDiffer(expected, grades, s[i], s[j]);
    }
  }

  /** Each credited label without a predicate is settled, once. */
  lemma ClaimOrder(expected: seq<Human>, grades: Grades)
    requires Covers(grades, expected)
    ensures forall h :: h in InClaimOrder(expected, grades) <==>
              h in expected && h.mustMatch == "" && CreditedValue(grades[h.id].value)
    ensures UniqueIds(expected) ==> UniqueIds(InClaimOrder(expected, grades))
  {
    var order, humans := InClaimOrder(expected, grades), Humans(Claims(expected, grades));
    ClaimOrderSorted(expected, grades);
    ClaimsMembers(expected, grades);
    forall h ensures h in order <==> h in humans {
      assert h in order <==> h in multiset(order);
      assert h in humans <==> h in multiset(humans);
    }
    if UniqueIds(expected) {
      ClaimOrderUnique(expected, grades);
    }
  }

  lemma HumansConcat(a: seq<Claim>, b: seq<Claim>)
    ensures Humans(a + b) == Humans(a) + Humans(b)
  {
  }

  lemma {:induction false} HumansPermute(claims: seq<Claim>, claims': seq<Claim>)
    requires multiset(claims) == multiset(claims')
    ensures multiset(Humans(claims)) == multiset(Humans(claims'))
  {
    if claims == [] {
      assert |multiset(claims')| == 0;
    } else {
      var c := claims[0];
      var j := PullOut(claims, claims');
      HumansPermute(claims[1..], claims'[..j] + claims'[j + 1..]);
      HumansConcat([c], claims[1..]);
      HumansConcat(claims'[..j], claims'[j + 1..]);
      HumansConcat(claims'[..j], [c] + claims'[j + 1..]);
      HumansConcat([c], claims'[j + 1..]);
      assert claims == [c] + claims[1..];
    }
  }

  lemma ClaimsSnoc(expected: seq<Human>, grades: Grades)
    requires Covers(grades, expected) && expected != []
    ensures var front, last := expected[..|expected| - 1], expected[|expected| - 1];
            && Covers(grades, front) && last in expected && expected == front + [last]
            && Humans(Claims(expected, grades))
               == (if last.mustMatch == "" && CreditedValue(grades[last.id].value)
                   then Humans(Claims(front, grades)) + [last] else Humans(Claims(front, grades)))
  {
    var k := |expected| - 1;
    var last := expected[k];
    if last.mustMatch == "" && CreditedValue(grades[last.id].value) {
      HumansConcat(Claims(expected[..k], grades), [Claim(grades[last.id].value != Full, k, last)]);
    } else {
      assert Claims(expected[..k], grades) + [] == Claims(expected[..k], grades);
    }
  }

  lemma {:induction false} ClaimsMembers(expected: seq<Human>, grades: Grades)
    requires Covers(grades, expected)
    ensures forall h :: h in Humans(Claims(expected, grades)) <==>
              h in expected && h.mustMatch == "" && CreditedValue(grades[h.id].value)
  {
    if expected != [] {
      ClaimsSnoc(expected, grades);
      ClaimsMembers(expected[..|expected| - 1], grades);
    }
  }

  function CapAcrossTiers(expected: seq<Human>, grades: Grades): (r: Grades)
    requires Covers(grades, expected)
    ensures r.Keys == grades.Keys
  {
    ClaimOrder(expected, grades);
    GradedMembers(expected);
    Settle(InClaimOrder(expected, grades), CreditedKeys(Graded(expected), grades), grades)
  }

  ghost function Keys(todo: seq<Human>, grades: Grades): (r: seq<Key>)
    requires Covers(grades, todo)
    ensures |r| == |todo|
    ensures forall i :: 0 <= i < |r| ==> todo[i] in todo && r[i] == KeyOf(todo[i], grades[todo[i].id])
  {
    seq(|todo|, i requires 0 <= i < |todo| => assert todo[i] in todo; KeyOf(todo[i], grades[todo[i].id]))
  }

  /** The `k`-th claim still fits, counting every earlier claim on its unit. */
  ghost predicate StillFits(used: multiset<Key>, keys: seq<Key>, k: nat)
    requires k < |keys|
  {
    used[keys[k]] + multiset(keys[..k])[keys[k]] < MAX_CREDITS_PER_FINDING
  }

  lemma StillFitsShift(used: multiset<Key>, keys: seq<Key>, k: nat)
    requires 0 < k < |keys|
    ensures var used' := if used[keys[0]] >= MAX_CREDITS_PER_FINDING then used else used + multiset{keys[0]};
            StillFits(used, keys, k) <==> StillFits(used', keys[1..], k - 1)
  {
    assert keys[..k] == [keys[0]] + keys[1..][..k - 1];
  }

  lemma {:induction false} SettleFrame(todo: seq<Human>, used: multiset<Key>, grades: Grades, id: string)
    requires Covers(grades, todo) && id in grades && forall h :: h in todo ==> h.id != id
    ensures Settle(todo, used, grades)[id] == grades[id]
  {
    if todo != [] {
      var h := todo[0];
      assert forall x :: x in todo[1..] ==> x in todo;
      var key := KeyOf(h, grades[h.id]);
      if used[key] >= MAX_CREDITS_PER_FINDING {
        SettleFrame(todo[1..], used, grades[h.id := Uncredited(h.id)], id);
      } else {
        SettleFrame(todo[1..], used + multiset{key}, grades, id);
      }
    }
  }

  lemma UniqueIdsTail(todo: seq<Human>)
    requires UniqueIds(todo) && todo != []
    ensures UniqueIds(todo[1..])
    ensures forall h :: h in todo[1..] ==> h in todo && h.id != todo[0].id
  {
    forall h | h in todo[1..] ensures h.id != todo[0].id {
      var i :| 0 <= i < |todo| - 1 && todo[1..][i] == h;
      assert todo[i + 1] == h;
    }
  }

  /** The claims kept on a unit are exactly the first ones, in claim order, that still fit beside
      the credits the unit already has. */
  lemma {:induction false} FirstClaimsFit(todo: seq<Human>, used: multiset<Key>, grades: Grades, k: nat)
    requires Covers(grades, todo) && UniqueIds(todo) && k < |todo|
    ensures todo[k].id in grades
    ensures Settle(todo, used, grades)[todo[k].id]
         == if StillFits(used, Keys(todo, grades), k) then grades[todo[k].id] else Uncredited(todo[k].id)
  {
    var h, rest := todo[0], todo[1..];
    assert h in todo && todo[k] in todo;
    UniqueIdsTail(todo);
    var key := KeyOf(h, grades[h.id]);
    var over := used[key] >= MAX_CREDITS_PER_FINDING;
    var grades' := if over then grades[h.id := Uncredited(h.id)] else grades;
    var used' := if over then used else used + multiset{key};
    if k == 0 {
      SettleFrame(rest, used', grades', h.id);
    } else {
      FirstClaimsFit(rest, used', grades', k - 1);
      assert Keys(rest, grades') == Keys(todo, grades)[1..];
      StillFitsShift(used, Keys(todo, grades), k);
    }
  }

  // ---------------------------------------------------------------------------------
  // Which claims the cap keeps
  // ---------------------------------------------------------------------------------

  /** Label `j` is credited on the unit that label `i` is credited on, and its credit counts before that of
      `i`: it has a test, or it is full where `i` is partial, or it is as full and an earlier label. */
  ghost predicate CountsBefore(expected: seq<Human>, grades: Grades, j: nat, i: nat)
    requires i < |expected| && j < |expected|
  {
    && expected[i].id in grades && expected[j].id in grades
    && var mine, its := grades[expected[i].id], grades[expected[j].id];
       && its.value in {Full, Partial}
       && its.aiRef == mine.aiRef && its.aiLine == mine.aiLine && expected[j].file == expected[i].file
       && (|| expected[j].mustMatch != ""
           || (its.value == Full && mine.value == Partial)
           || (its.value == mine.value && j < i))
  }

  ghost function CountedBefore(expected: seq<Human>, grades: Grades, i: nat): set<nat>
    requires i < |expected|
  {
    set j: nat | j < |expected| && CountsBefore(expected, grades, j, i)
  }

  ghost function TestedThere(expected: seq<Human>, grades: Grades, key: Key): set<nat> {
    set j: nat | j < |expected| && expected[j].mustMatch != "" && Names(expected[j], grades, key)
  }

  lemma TestedSnoc(expected: seq<Human>, grades: Grades, key: Key)
    requires expected != []
    ensures var k := |expected| - 1;
            TestedThere(expected, grades, key)
            == if expected[k].mustMatch != "" && Names(expected[k], grades, key)
               then TestedThere(expected[..k], grades, key) + {k} else TestedThere(expected[..k], grades, key)
  {
  }

  lemma GradedKeysSnoc(expected: seq<Human>, grades: Grades, key: Key)
    requires expected != [] && Covers(grades, Graded(expected))
    ensures var k := |expected| - 1;
            && Covers(grades, Graded(expected[..k]))
            && CreditedKeys(Graded(expected), grades)[key]
               == CreditedKeys(Graded(expected[..k]), grades)[key]
                  + if expected[k].mustMatch != "" && Names(expected[k], grades, key) then 1 else 0
  {
    var k := |expected| - 1;
    GradedSnoc(expected);
    if expected[k].mustMatch != "" {
      CreditedKeysSnoc(Graded(expected[..k]), expected[k], grades);
      GainCount(expected[k], grades, key);
    }
  }

  lemma {:induction false} TestedCount(expected: seq<Human>, grades: Grades, key: Key)
    requires Covers(grades, Graded(expected))
    ensures CreditedKeys(Graded(expected), grades)[key] == |TestedThere(expected, grades, key)|
  {
    if expected == [] {
      assert TestedThere(expected, grades, key) == {};
    } else {
      GradedKeysSnoc(expected, grades, key);
      TestedCount(expected[..|expected| - 1], grades, key);
      TestedSnoc(expected, grades, key);
    }
  }

  lemma {:induction false} ClaimsAre(expected: seq<Human>, grades: Grades, c: Claim)
    requires Covers(grades, expected)
    ensures c in Claims(expected, grades) <==>
              && c.index < |expected| && expected[c.index] == c.human && c.human.mustMatch == ""
              && c.human.id in grades && CreditedValue(grades[c.human.id].value)
              && c.late == (grades[c.human.id].value != Full)
  {
    if expected != [] {
      var k := |expected| - 1;
      assert expected[k] in expected && expected == expected[..k] + [expected[k]];
      ClaimsAre(expected[..k], grades, c);
    }
  }

  lemma ClaimLeIsTotal()
    ensures TotalPreorder(ClaimLe)
  {
  }

  /** Claim `a` is settled before claim `b`. */
  ghost predicate SettledBefore(a: Claim, b: Claim) {
    a.index != b.index && (if a.late != b.late then b.late else a.index < b.index)
  }

  lemma ClaimsSettledInTurn(expected: seq<Human>, grades: Grades, j: nat, k: nat)
    requires Covers(grades, expected) && UniqueIds(expected)
    requires j < |Claims(expected, grades)| && k < |Claims(expected, grades)|
    ensures var s := Sort(ClaimLe, Claims(expected, grades));
            && (j < k <==> SettledBefore(s[j], s[k])) && (s[j].index == s[k].index <==> j == k)
  {
    var claims := Claims(expected, grades);
    var s := Sort(ClaimLe, claims);
    ClaimLeIsTotal();
    SortSorted(ClaimLe, claims);
    SortMultiset(ClaimLe, claims);
    SortMembers(ClaimLe, claims);
    SameMultisetDistinct(claims, s);
    assert s[j] in s && s[k] in s;
    if j < k {
      assert s[j] != s[k] && ClaimLe(s[j], s[k]);
      ClaimsDiffer(expected, grades, s[j], s[k]);
    } else if k < j {
      assert s[k] != s[j] && ClaimLe(s[k], s[j]);
      ClaimsDiffer(expected, grades, s[k], s[j]);
    }
  }

  lemma {:induction false} KeyCount(keys: seq<Key>, k: nat, key: Key)
    requires k <= |keys|
    ensures multiset(keys[..k])[key] == |set j: nat | j < k && keys[j] == key|
  {
    var here := set j: nat | j < k && keys[j] == key;
    if k == 0 {
      assert here == {};
    } else {
      KeyCount(keys, k - 1, key);
      var before := set j: nat | j < k - 1 && keys[j] == key;
      assert keys[..k] == keys[..k - 1] + [keys[k - 1]];
      CountOneMore(here, before, k - 1, keys[k - 1] == key);
    }
  }

  ghost function EarlierClaims(keys: seq<Key>, k: nat): set<nat>
    requires k < |keys|
  {
    set j: nat | j < k && keys[j] == keys[k]
  }

  ghost function JudgedBefore(expected: seq<Human>, grades: Grades, i: nat): set<nat>
    requires i < |expected|
  {
    set j: nat | j < |expected| && expected[j].mustMatch == "" && CountsBefore(expected, grades, j, i)
  }

  ghost function LabelIndexes(claims: seq<Claim>): (r: seq<nat>)
    ensures |r| == |claims| && forall j :: 0 <= j < |r| ==> r[j] == claims[j].index
  {
    seq(|claims|, j requires 0 <= j < |claims| => claims[j].index)
  }

  /** The earlier claims on the unit of claim `k` are the judged labels that count before it. */
  lemma EarlierClaimsCount(expected: seq<Human>, grades: Grades, k: nat, i: nat)
    requires Covers(grades, expected) && UniqueIds(expected) && k < |Claims(expected, grades)|
    requires Covers(grades, InClaimOrder(expected, grades))
    requires i < |expected| && Sort(ClaimLe, Claims(expected, grades))[k].index == i
    ensures |EarlierClaims(Keys(InClaimOrder(expected, grades), grades), k)| == |JudgedBefore(expected, grades, i)|
  {
    var s := Sort(ClaimLe, Claims(expected, grades));
    var earlier := EarlierClaims(Keys(InClaimOrder(expected, grades), grades), k);
    var judged, table := JudgedBefore(expected, grades, i), LabelIndexes(s);
    forall j | j in earlier ensures table[j] in judged {
      ClaimCounts(expected, grades, j, k);
    }
    forall j, j' | j in earlier && j' in earlier && j != j' ensures table[j] != table[j'] {
      ClaimsSettledInTurn(expected, grades, j, j');
    }
    forall l | l in judged ensures exists j :: j in earlier && table[j] == l {
      var j := ClaimOfLabel(expected, grades, l);
      ClaimCounts(expected, grades, j, k);
      assert j in earlier && table[j] == l;
    }
    ImageSize(earlier, judged, table);
  }

  lemma ClaimOfLabel(expected: seq<Human>, grades: Grades, i: nat) returns (j: nat)
    requires Covers(grades, expected) && i < |expected| && expected[i].mustMatch == "" && expected[i].id in grades
    requires CreditedValue(grades[expected[i].id].value)
    ensures j < |Claims(expected, grades)| && Sort(ClaimLe, Claims(expected, grades))[j].index == i
  {
    var c := Claim(grades[expected[i].id].value != Full, i, expected[i]);
    ClaimsAre(expected, grades, c);
    j := PlaceOfClaim(Claims(expected, grades), c);
  }

  lemma PlaceOfClaim(claims: seq<Claim>, c: Claim) returns (j: nat)
    requires c in claims
    ensures j < |claims| == |Sort(ClaimLe, claims)| && Sort(ClaimLe, claims)[j] == c
  {
    SortMultiset(ClaimLe, claims);
    SortMembers(ClaimLe, claims);
    assert |multiset(Sort(ClaimLe, claims))| == |Sort(ClaimLe, claims)|;
    j :| 0 <= j < |Sort(ClaimLe, claims)| && Sort(ClaimLe, claims)[j] == c;
  }

  lemma ClaimCounts(expected: seq<Human>, grades: Grades, j: nat, k: nat)
    requires Covers(grades, expected) && UniqueIds(expected)
    requires j < |Claims(expected, grades)| && k < |Claims(expected, grades)|
    requires Covers(grades, InClaimOrder(expected, grades))
    ensures var s := Sort(ClaimLe, Claims(expected, grades));
            && s[j].index < |expected| && s[k].index < |expected| && expected[s[j].index].mustMatch == ""
            && (j in EarlierClaims(Keys(InClaimOrder(expected, grades), grades), k)
                <==> CountsBefore(expected, grades, s[j].index, s[k].index))
  {
    var claims := Claims(expected, grades);
    var s := Sort(ClaimLe, claims);
    SortMembers(ClaimLe, claims);
    assert s[j] in s && s[k] in s;
    ClaimsAre(expected, grades, s[j]);
    ClaimsAre(expected, grades, s[k]);
    ClaimsSettledInTurn(expected, grades, j, k);
  }

  /** A label the judge credited keeps its grade exactly while fewer than two credits on its unit count
      before it: those of labels with a test, and those of judged labels that are fuller or, as full, earlier
      among the labels.  Otherwise it ends with none. */
  lemma CapIsExact(expected: seq<Human>, grades: Grades, i: nat)
    requires Covers(grades, expected) && UniqueIds(expected) && i < |expected|
    requires expected[i].id in grades && expected[i].mustMatch == "" && grades[expected[i].id].value in {Full, Partial}
    ensures var id := expected[i].id;
            CapAcrossTiers(expected, grades)[id]
            == if |CountedBefore(expected, grades, i)| < 2 then grades[id] else Grade(id, NoMatch, None, None)
  {
    ClaimOrder(expected, grades);
    GradedMembers(expected);
    var k := ClaimOfLabel(expected, grades, i);
    ClaimIsLabel(expected, grades, k);
    FirstClaimsFit(InClaimOrder(expected, grades), CreditedKeys(Graded(expected), grades), grades, k);
    ClaimFitsIff(expected, grades, k, i);
  }

  lemma ClaimFitsIff(expected: seq<Human>, grades: Grades, k: nat, i: nat)
    requires Covers(grades, expected) && UniqueIds(expected) && k < |Claims(expected, grades)|
    requires Covers(grades, InClaimOrder(expected, grades)) && Covers(grades, Graded(expected))
    requires i < |expected| && Sort(ClaimLe, Claims(expected, grades))[k].index == i
    requires InClaimOrder(expected, grades)[k] == expected[i]
    ensures StillFits(CreditedKeys(Graded(expected), grades), Keys(InClaimOrder(expected, grades), grades), k)
       <==> |CountedBefore(expected, grades, i)| < 2
  {
    var keys := Keys(InClaimOrder(expected, grades), grades);
    KeyCount(keys, k, keys[k]);
    assert EarlierClaims(keys, k) == set j: nat | j < k && keys[j] == keys[k];
    EarlierClaimsCount(expected, grades, k, i);
    TestedCount(expected, grades, keys[k]);
    CountedSplits(expected, grades, i);
  }

  lemma CountedSplits(expected: seq<Human>, grades: Grades, i: nat)
    requires i < |expected| && expected[i].id in grades
    ensures |CountedBefore(expected, grades, i)|
         == |TestedThere(expected, grades, KeyOf(expected[i], grades[expected[i].id]))|
            + |JudgedBefore(expected, grades, i)|
  {
    var tested := TestedThere(expected, grades, KeyOf(expected[i], grades[expected[i].id]));
    assert CountedBefore(expected, grades, i) == tested + JudgedBefore(expected, grades, i);
  }

  lemma ClaimIsLabel(expected: seq<Human>, grades: Grades, k: nat)
    requires Covers(grades, expected) && k < |Claims(expected, grades)|
    ensures var i := Sort(ClaimLe, Claims(expected, grades))[k].index;
            i < |expected| && InClaimOrder(expected, grades)[k] == expected[i]
  {
    SortMembers(ClaimLe, Claims(expected, grades));
    assert Sort(ClaimLe, Claims(expected, grades))[k] in Sort(ClaimLe, Claims(expected, grades));
  }

  // ---------------------------------------------------------------------------------
  // The joint cap
  // ---------------------------------------------------------------------------------

  lemma CreditedKeysOne(h: Human, grades: Grades)
    requires h.id in grades
    ensures Covers(grades, [h])
    ensures CreditedKeys([h], grades)
         == if CreditedValue(grades[h.id].value) then multiset{KeyOf(h, grades[h.id])} else multiset{}
  {
    assert [h][..0] == [];
  }

  lemma CreditedKeysCons(h: Human, rest: seq<Human>, grades: Grades)
    requires Covers(grades, [h] + rest)
    ensures h.id in grades && Covers(grades, rest)
    ensures CreditedKeys([h] + rest, grades)
         == (if CreditedValue(grades[h.id].value) then multiset{KeyOf(h, grades[h.id])} else multiset{})
            + CreditedKeys(rest, grades)
  {
    assert h in [h] + rest;
    CreditedKeysConcat([h], rest, grades);
    CreditedKeysOne(h, grades);
  }

  ghost predicate UnderCap(keys: multiset<Key>) {
    forall key :: keys[key] <= MAX_CREDITS_PER_FINDING
  }

  /** A unit that started under the cap ends under it, counting the credits the settled claims keep. */
  lemma {:induction false} SettledCredits(todo: seq<Human>, used: multiset<Key>, grades: Grades)
    requires Covers(grades, todo) && UniqueIds(todo) && UnderCap(used)
    requires forall h :: h in todo ==> CreditedValue(grades[h.id].value)
    ensures UnderCap(used + CreditedKeys(todo, Settle(todo, used, grades)))
  {
    if todo != [] {
      var h, rest := todo[0], todo[1..];
      UniqueIdsTail(todo);
      assert h in todo && todo == [h] + rest;
      var key := KeyOf(h, grades[h.id]);
      var settled := Settle(todo, used, grades);
      CreditedKeysCons(h, rest, settled);
      if used[key] >= MAX_CREDITS_PER_FINDING {
        var grades' := grades[h.id := Uncredited(h.id)];
        SettledCredits(rest, used, grades');
        SettleFrame(rest, used, grades', h.id);
        assert CreditedKeys(todo, settled) == CreditedKeys(rest, settled);
      } else {
        SettledCredits(rest, used + multiset{key}, grades);
        SettleFrame(rest, used + multiset{key}, grades, h.id);
        assert used + CreditedKeys(todo, settled) == (used + multiset{key}) + CreditedKeys(rest, settled);
      }
    } else {
      assert used + multiset{} == used;
    }
  }

  lemma {:induction false} CreditedKeysConcat(a: seq<Human>, b: seq<Human>, grades: Grades)
    requires Covers(grades, a + b)
    ensures Covers(grades, a) && Covers(grades, b)
    ensures CreditedKeys(a + b, grades) == CreditedKeys(a, grades) + CreditedKeys(b, grades)
  {
    assert forall h :: h in a ==> h in a + b;
    assert forall h :: h in b ==> h in a + b;
    if b == [] {
      assert a + b == a;
    } else {
      var k := |b| - 1;
      assert (a + b)[..|a + b| - 1] == a + b[..k];
      CreditedKeysConcat(a, b[..k], grades);
    }
  }

  /** What the cap leaves alone: every grade of a label with a predicate, and every grade the judge
      did not credit. */
  lemma CapKeepsOthers(expected: seq<Human>, grades: Grades, h: Human)
    requires Covers(grades, expected) && UniqueIds(expected) && h in expected
    requires h.mustMatch != "" || !CreditedValue(grades[h.id].value)
    ensures CapAcrossTiers(expected, grades)[h.id] == grades[h.id]
  {
    ClaimOrder(expected, grades);
    GradedMembers(expected);
    var order := InClaimOrder(expected, grades);
    forall x | x in order ensures x.id != h.id {
      SameIdSameHuman(expected, x, h);
    }
    SettleFrame(order, CreditedKeys(Graded(expected), grades), grades, h.id);
  }

  lemma SameIdSameHuman(expected: seq<Human>, a: Human, b: Human)
    requires UniqueIds(expected) && a in expected && b in expected
    ensures a.id == b.id ==> a == b
  {
    var i :| 0 <= i < |expected| && expected[i] == a;
    var j :| 0 <= j < |expected| && expected[j] == b;
  }

  lemma CoversPermuted(a: seq<Human>, b: seq<Human>, grades: Grades)
    requires multiset(a) == multiset(b) && Covers(grades, a)
    ensures Covers(grades, b)
  {
    forall h | h in b ensures h.id in grades {
      assert h in multiset(a);
    }
  }

  lemma {:induction false} CreditedKeysPermute(a: seq<Human>, b: seq<Human>, grades: Grades)
    requires multiset(a) == multiset(b) && Covers(grades, a)
    ensures Covers(grades, b) && CreditedKeys(a, grades) == CreditedKeys(b, grades)
  {
    CoversPermuted(a, b, grades);
    if a == [] {
      assert |multiset(b)| == 0;
    } else {
      var h, rest := a[0], a[1..];
      var j := PullOut(a, b);
      var u, v := b[..j], b[j + 1..];
      assert a == [h] + rest;
      CreditedKeysCons(h, rest, grades);
      CreditedKeysPermute(rest, u + v, grades);
      CreditedKeysConcat(u, [h] + v, grades);
      CreditedKeysCons(h, v, grades);
      CreditedKeysConcat(u, v, grades);
    }
  }

  lemma CreditedKeysSnoc(humans: seq<Human>, h: Human, grades: Grades)
    requires Covers(grades, humans + [h])
    ensures h.id in grades && Covers(grades, humans)
    ensures CreditedKeys(humans + [h], grades)
         == CreditedKeys(humans, grades)
            + GainOf(h, grades)
  {
    assert h in humans + [h];
    CreditedKeysConcat(humans, [h], grades);
    CreditedKeysOne(h, grades);
  }

  lemma TierCovers(expected: seq<Human>, grades: Grades, after: Grades)
    requires Covers(grades, expected) && Covers(after, expected)
    ensures Covers(after, Graded(expected)) && Covers(after, Humans(Claims(expected, grades)))
  {
    GradedMembers(expected);
    ClaimsMembers(expected, grades);
  }

  /** The credits of a case are those of the first tier and those of the claims. */
  lemma {:induction false} CreditsByTier(expected: seq<Human>, grades: Grades, after: Grades)
    requires Covers(grades, expected) && Covers(after, expected)
    requires Covers(after, Graded(expected)) && Covers(after, Humans(Claims(expected, grades)))
    requires forall h :: h in expected && h.mustMatch == "" && !CreditedValue(grades[h.id].value)
               ==> !CreditedValue(after[h.id].value)
    ensures CreditedKeys(expected, after)
         == CreditedKeys(Graded(expected), after) + CreditedKeys(Humans(Claims(expected, grades)), after)
  {
    if expected != [] {
      var front, last := expected[..|expected| - 1], expected[|expected| - 1];
      ClaimsSnoc(expected, grades);
      TierCovers(front, grades, after);
      CreditsByTier(front, grades, after);
      GradedSnoc(expected);
      CreditedKeysSnoc(front, last, after);
      var graded, claimed := Graded(front), Humans(Claims(front, grades));
      GainSplits(CreditedKeys(graded, after), CreditedKeys(claimed, after), GainOf(last, after));
      if last.mustMatch != "" {
        CreditedKeysSnoc(graded, last, after);
      } else if CreditedValue(grades[last.id].value) {
        CreditedKeysSnoc(claimed, last, after);
      } else {
        assert GainOf(last, after) == multiset{};
      }
    }
  }

  ghost function GainOf(h: Human, grades: Grades): multiset<Key>
    requires h.id in grades
  {
    if CreditedValue(grades[h.id].value) then multiset{KeyOf(h, grades[h.id])} else multiset{}
  }

  lemma GainSplits(a: multiset<Key>, b: multiset<Key>, gain: multiset<Key>)
    ensures (a + b) + gain == (a + gain) + b && (a + b) + gain == a + (b + gain)
    ensures gain == multiset{} ==> (a + b) + gain == a + b
  {
  }

  lemma GradedSnoc(expected: seq<Human>)
    requires expected != []
    ensures var front, last := expected[..|expected| - 1], expected[|expected| - 1];
            Graded(expected) == if last.mustMatch != "" then Graded(front) + [last] else Graded(front)
  {
    var front := expected[..|expected| - 1];
    assert Graded(front) + [] == Graded(front);
  }

  lemma {:induction false} CreditedKeysAgree(humans: seq<Human>, grades: Grades, after: Grades)
    requires Covers(grades, humans) && Covers(after, humans)
    requires forall h :: h in humans ==> grades[h.id] == after[h.id]
    ensures CreditedKeys(humans, grades) == CreditedKeys(humans, after)
  {
    if humans != [] {
      assert forall h :: h in humans[..|humans| - 1] ==> h in humans;
      CreditedKeysAgree(humans[..|humans| - 1], grades, after);
    }
  }

  /** Whatever the judge said, no unit ends above the cap over both tiers, provided the first tier
      kept it. */
  lemma JointCap(expected: seq<Human>, grades: Grades)
    requires Covers(grades, expected) && UniqueIds(expected)
    requires Covers(grades, Graded(expected)) && UnderCap(CreditedKeys(Graded(expected), grades))
    ensures Covers(CapAcrossTiers(expected, grades), expected)
    ensures UnderCap(CreditedKeys(expected, CapAcrossTiers(expected, grades)))
  {
    var after := CapAcrossTiers(expected, grades);
    var order := InClaimOrder(expected, grades);
    GradedMembers(expected);
    ClaimOrder(expected, grades);
    ClaimOrderSorted(expected, grades);
    forall h | h in expected && (h.mustMatch != "" || !CreditedValue(grades[h.id].value))
      ensures after[h.id] == grades[h.id]
    {
      CapKeepsOthers(expected, grades, h);
    }
    SettledCredits(order, CreditedKeys(Graded(expected), grades), grades);
    TierCovers(expected, grades, after);
    CreditsByTier(expected, grades, after);
    CreditedKeysAgree(Graded(expected), grades, after);
    CreditedKeysPermute(order, Humans(Claims(expected, grades)), after);
  }

  // ---------------------------------------------------------------------------------
  // The first tier keeps the cap per unit key
  // ---------------------------------------------------------------------------------

  ghost predicate Names(h: Human, grades: Grades, key: Key) {
    h.id in grades && CreditedValue(grades[h.id].value) && KeyOf(h, grades[h.id]) == key
  }

  ghost function CreditedIndices(humans: seq<Human>, grades: Grades, key: Key): set<nat>
    requires Covers(grades, humans)
  {
    set i: nat | 0 <= i < |humans| && Names(humans[i], grades, key)
  }

  lemma IndicesSnoc(humans: seq<Human>, grades: Grades, key: Key)
    requires humans != [] && Covers(grades, humans) && Covers(grades, humans[..|humans| - 1])
    ensures var k, h := |humans| - 1, humans[|humans| - 1];
            CreditedIndices(humans, grades, key)
            == if Names(h, grades, key) then CreditedIndices(humans[..k], grades, key) + {k}
               else CreditedIndices(humans[..k], grades, key)
  {
  }

  lemma GainCount(h: Human, grades: Grades, key: Key)
    requires h.id in grades
    ensures GainOf(h, grades)[key] == if Names(h, grades, key) then 1 else 0
  {
  }

  lemma {:induction false} CreditedKeysCount(humans: seq<Human>, grades: Grades, key: Key)
    requires Covers(grades, humans)
    ensures CreditedKeys(humans, grades)[key] == |CreditedIndices(humans, grades, key)|
  {
    if humans == [] {
      assert CreditedIndices(humans, grades, key) == {};
    } else {
      var k := |humans| - 1;
      assert humans == humans[..k] + [humans[k]];
      CreditedKeysSnoc(humans[..k], humans[k], grades);
      CreditedKeysCount(humans[..k], grades, key);
      IndicesSnoc(humans, grades, key);
      GainCount(humans[k], grades, key);
    }
  }

  /** The grades of the first tier, as they are in the shared map. */
  ghost predicate HoldsMatchGrades(m: Matcher, expected: seq<Human>, tolerance: int, findings: seq<Finding>,
                                   grades: Grades)
  {
    forall i :: 0 <= i < |Graded(expected)| ==>
      && Graded(expected)[i].id in grades
      && grades[Graded(expected)[i].id] == MatchGrades(m, expected, tolerance, findings)[i]
  }

  /** A first-tier credit names the unit it was given. */
  lemma MatchGradeNamesUnit(m: Matcher, expected: seq<Human>, tolerance: int, findings: seq<Finding>, i: nat)
    requires i < |Graded(expected)|
    ensures var credit := Credit(m, Graded(expected), tolerance, findings);
            var g := MatchGrades(m, expected, tolerance, findings)[i];
            && (CreditedValue(g.value) <==> i in credit)
            && (i in credit ==> credit[i] < |Units(findings)|
                                && KeyOf(Graded(expected)[i], g) == UnitKey(Units(findings)[credit[i]]))
  {
    CreditFits(m, Graded(expected), tolerance, findings);
    CreditIsLegal(m, Graded(expected), tolerance, findings);
  }

  lemma MatchTierUnderCap(m: Matcher, expected: seq<Human>, tolerance: int, findings: seq<Finding>, grades: Grades)
    requires Covers(grades, Graded(expected)) && HoldsMatchGrades(m, expected, tolerance, findings, grades)
    ensures UnderCap(CreditedKeys(Graded(expected), grades))
  {
    var humans := Graded(expected);
    var credit := Credit(m, humans, tolerance, findings);
    forall key ensures CreditedKeys(humans, grades)[key] <= MAX_CREDITS_PER_FINDING {
      CreditedKeysCount(humans, grades, key);
      var hits := CreditedIndices(humans, grades, key);
      if first :| first in hits {
        MatchGradeNamesUnit(m, expected, tolerance, findings, first);
        forall i | i in hits ensures i in CreditedAt(credit, credit[first]) {
          MatchGradeNamesUnit(m, expected, tolerance, findings, i);
          if credit[i] != credit[first] { UnitKeysDiffer(findings, credit[i], credit[first]); }
        }
        SubsetSize(hits, CreditedAt(credit, credit[first]));
        CreditIsLegal(m, humans, tolerance, findings);
      } else {
        assert hits == {};
      }
    }
  }

  // ---------------------------------------------------------------------------------
  // One case, both tiers
  // ---------------------------------------------------------------------------------

  /** What the judge call came to: not made, failed, or one grade per label it was asked about. */
  datatype JudgeOutcome = NotAsked | Failed | Replied(grades: seq<JudgeGrade>)

  function Judged(expected: seq<Human>): (r: seq<Human>) {
    if expected == [] then []
    else
      var h := expected[|expected| - 1];
      Judged(expected[..|expected| - 1]) + if h.mustMatch == "" then [h] else []
  }

  ghost predicate ValidOutcome(outcome: JudgeOutcome, judged: seq<Human>, numbered: seq<Row>) {
    outcome.Replied? ==>
      && |outcome.grades| == |judged|
      && forall i :: 0 <= i < |judged| ==> Validated(outcome.grades[i], judged[i], numbered)
  }

  function JudgedGrade(h: Human, outcome: JudgeOutcome, numbered: seq<Row>, i: nat): Grade
    requires outcome.Replied? ==>
               i < |outcome.grades|
               && (outcome.grades[i].aiRef.Some? ==> 1 <= outcome.grades[i].aiRef.value <= |numbered|)
  {
    match outcome
    case NotAsked => Uncredited(h.id)
    case Failed => Grade(h.id, JudgeError, None, None)
    case Replied(grades) => ReadJudgeGrade(grades[i], numbered)
  }

  function GradesByIndex(humans: seq<Human>, graded: seq<Grade>): (r: Grades)
    requires |humans| == |graded|
  {
    if humans == [] then map[]
    else
      var k := |humans| - 1;
      GradesByIndex(humans[..k], graded[..k])[humans[k].id := graded[k]]
  }

  lemma {:induction false} GradesByIndexReads(humans: seq<Human>, graded: seq<Grade>)
    requires |humans| == |graded| && UniqueIds(humans)
    ensures forall i :: 0 <= i < |humans| ==>
              humans[i].id in GradesByIndex(humans, graded) && GradesByIndex(humans, graded)[humans[i].id] == graded[i]
    ensures forall id :: id in GradesByIndex(humans, graded) ==> exists i :: 0 <= i < |humans| && humans[i].id == id
  {
    if humans != [] {
      var k := |humans| - 1;
      var front := GradesByIndex(humans[..k], graded[..k]);
      GradesByIndexReads(humans[..k], graded[..k]);
      forall i | 0 <= i < k ensures humans[i].id in front && front[humans[i].id] == graded[i] {
        assert humans[..k][i] == humans[i] && graded[..k][i] == graded[i];
      }
      forall id | id in front ensures exists i :: 0 <= i < |humans| && humans[i].id == id {
        var i :| 0 <= i < k && humans[..k][i].id == id;
        assert humans[i].id == id;
      }
    }
  }

  function JudgeGrades(judged: seq<Human>, outcome: JudgeOutcome, numbered: seq<Row>): (r: seq<Grade>)
    requires ValidOutcome(outcome, judged, numbered)
    ensures |r| == |judged|
    ensures forall i :: 0 <= i < |judged| ==>
              && (outcome.Replied? ==> Validated(outcome.grades[i], judged[i], numbered))
              && r[i] == JudgedGrade(judged[i], outcome, numbered, i)
  {
    seq(|judged|, i requires 0 <= i < |judged| =>
      assert outcome.Replied? ==> Validated(outcome.grades[i], judged[i], numbered);
      JudgedGrade(judged[i], outcome, numbered, i))
  }

  /** Both tiers' grades before the cap. */
  function BothTiers(m: Matcher, expected: seq<Human>, tolerance: int, findings: seq<Finding>,
                     outcome: JudgeOutcome): Grades
    requires ValidOutcome(outcome, Judged(expected), NumberedRows(JudgeRows(findings)))
  {
    GradesByIndex(Graded(expected), MatchGrades(m, expected, tolerance, findings))
    + GradesByIndex(Judged(expected), JudgeGrades(Judged(expected), outcome, NumberedRows(JudgeRows(findings))))
  }

  lemma {:induction false} JudgedMembers(expected: seq<Human>)
    ensures forall h :: h in Judged(expected) <==> h in expected && h.mustMatch == ""
    ensures UniqueIds(expected) ==> UniqueIds(Judged(expected))
  {
    if expected != [] {
      var front, last := expected[..|expected| - 1], expected[|expected| - 1];
      assert expected == front + [last];
      JudgedMembers(front);
      if UniqueIds(expected) {
        forall h | h in front ensures h.id != last.id {
          var i :| 0 <= i < |front| && front[i] == h;
          assert expected[i].id != expected[|expected| - 1].id;
        }
        assert forall i :: 0 <= i < |Judged(front)| ==> Judged(front)[i] in front;
      }
    }
  }

  lemma TiersJoin(expected: seq<Human>, first: seq<Grade>, second: seq<Grade>)
    requires UniqueIds(expected) && |first| == |Graded(expected)| && |second| == |Judged(expected)|
    ensures var both := GradesByIndex(Graded(expected), first) + GradesByIndex(Judged(expected), second);
            && (forall i :: 0 <= i < |first| ==>
                  Graded(expected)[i].id in both && both[Graded(expected)[i].id] == first[i])
            && (forall i :: 0 <= i < |second| ==>
                  Judged(expected)[i].id in both && both[Judged(expected)[i].id] == second[i])
  {
    var graded, judged := Graded(expected), Judged(expected);
    GradedMembers(expected);
    JudgedMembers(expected);
    GradesByIndexReads(graded, first);
    GradesByIndexReads(judged, second);
    forall i | 0 <= i < |graded| ensures graded[i].id !in GradesByIndex(judged, second) {
      if graded[i].id in GradesByIndex(judged, second) {
        var j :| 0 <= j < |judged| && judged[j].id == graded[i].id;
        assert graded[i] in graded && judged[j] in judged;
        SameIdSameHuman(expected, graded[i], judged[j]);
      }
    }
  }

  lemma TiersCover(expected: seq<Human>, both: Grades)
    requires forall i :: 0 <= i < |Graded(expected)| ==> Graded(expected)[i].id in both
    requires forall i :: 0 <= i < |Judged(expected)| ==> Judged(expected)[i].id in both
    ensures Covers(both, expected)
  {
    GradedMembers(expected);
    JudgedMembers(expected);
    forall h | h in expected ensures h.id in both {
      if h.mustMatch != "" {
        assert h in Graded(expected);
      } else {
        assert h in Judged(expected);
      }
    }
  }

  /** Every label has its grade from the tier that owns it. */
  lemma BothTiersCover(m: Matcher, expected: seq<Human>, tolerance: int, findings: seq<Finding>, outcome: JudgeOutcome)
    requires UniqueIds(expected)
    requires ValidOutcome(outcome, Judged(expected), NumberedRows(JudgeRows(findings)))
    ensures Covers(BothTiers(m, expected, tolerance, findings, outcome), expected)
    ensures HoldsMatchGrades(m, expected, tolerance, findings, BothTiers(m, expected, tolerance, findings, outcome))
    ensures forall i :: 0 <= i < |Judged(expected)| ==>
              && Judged(expected)[i].id in BothTiers(m, expected, tolerance, findings, outcome)
              && BothTiers(m, expected, tolerance, findings, outcome)[Judged(expected)[i].id]
                 == JudgeGrades(Judged(expected), outcome, NumberedRows(JudgeRows(findings)))[i]
  {
    TiersJoin(expected, MatchGrades(m, expected, tolerance, findings),
              JudgeGrades(Judged(expected), outcome, NumberedRows(JudgeRows(findings))));
    TiersCover(expected, BothTiers(m, expected, tolerance, findings, outcome));
  }

  function GradeCase(m: Matcher, expected: seq<Human>, tolerance: int, findings: seq<Finding>, outcome: JudgeOutcome)
    : (r: Grades)
    requires UniqueIds(expected)
    requires ValidOutcome(outcome, Judged(expected), NumberedRows(JudgeRows(findings)))
    ensures Covers(r, expected)
  {
    BothTiersCover(m, expected, tolerance, findings, outcome);
    CapAcrossTiers(expected, BothTiers(m, expected, tolerance, findings, outcome))
  }

  /** Over both tiers no credit unit credits more labels than the cap allows, whatever the judge
      replied, and the grades of the first tier stand as given. */
  lemma GradeCaseKeepsCap(m: Matcher, expected: seq<Human>, tolerance: int, findings: seq<Finding>,
                          outcome: JudgeOutcome)
    requires UniqueIds(expected)
    requires ValidOutcome(outcome, Judged(expected), NumberedRows(JudgeRows(findings)))
    ensures Covers(GradeCase(m, expected, tolerance, findings, outcome), expected)
    ensures UnderCap(CreditedKeys(expected, GradeCase(m, expected, tolerance, findings, outcome)))
    ensures HoldsMatchGrades(m, expected, tolerance, findings, GradeCase(m, expected, tolerance, findings, outcome))
  {
    BothTiersCover(m, expected, tolerance, findings, outcome);
    CappedKeepsMatchGrades(m, expected, tolerance, findings, BothTiers(m, expected, tolerance, findings, outcome));
  }

  lemma CappedKeepsMatchGrades(m: Matcher, expected: seq<Human>, tolerance: int, findings: seq<Finding>, grades: Grades)
    requires UniqueIds(expected) && Covers(grades, expected)
    requires HoldsMatchGrades(m, expected, tolerance, findings, grades)
    ensures UnderCap(CreditedKeys(expected, CapAcrossTiers(expected, grades)))
    ensures HoldsMatchGrades(m, expected, tolerance, findings, CapAcrossTiers(expected, grades))
  {
    GradedMembers(expected);
    MatchTierUnderCap(m, expected, tolerance, findings, grades);
    JointCap(expected, grades);
    forall i | 0 <= i < |Graded(expected)|
      ensures Graded(expected)[i].id in CapAcrossTiers(expected, grades)
      ensures CapAcrossTiers(expected, grades)[Graded(expected)[i].id] == grades[Graded(expected)[i].id]
    {
      assert Graded(expected)[i] in Graded(expected);
      CapKeepsOthers(expected, grades, Graded(expected)[i]);
    }
  }

  ghost predicate NamesUnit(h: Human, g: Grade, findings: seq<Finding>) {
    exists p :: 0 <= p < |Units(findings)| && KeyOf(h, g) == UnitKey(Units(findings)[p])
  }

  lemma FirstTierNamesUnit(m: Matcher, expected: seq<Human>, tolerance: int, findings: seq<Finding>, grades: Grades,
                           h: Human)
    requires HoldsMatchGrades(m, expected, tolerance, findings, grades) && h in Graded(expected)
    ensures h.id in grades && (CreditedValue(grades[h.id].value) ==> NamesUnit(h, grades[h.id], findings))
  {
    var i :| 0 <= i < |Graded(expected)| && Graded(expected)[i] == h;
    MatchGradeNamesUnit(m, expected, tolerance, findings, i);
  }

  lemma SecondTierNamesUnit(judged: seq<Human>, findings: seq<Finding>, outcome: JudgeOutcome, i: nat)
    requires ValidOutcome(outcome, judged, NumberedRows(JudgeRows(findings))) && i < |judged|
    requires forall f :: f in findings ==> f.dropReason != Some("")
    ensures var g := JudgeGrades(judged, outcome, NumberedRows(JudgeRows(findings)))[i];
            CreditedValue(g.value) ==> NamesUnit(judged[i], g, findings)
  {
    var g := JudgeGrades(judged, outcome, NumberedRows(JudgeRows(findings)))[i];
    if CreditedValue(g.value) {
      JudgeGradeNamesUnit(findings, outcome.grades[i], judged[i]);
    }
  }

  /** A named unit belongs to an active finding. */
  lemma NamedUnitIsActive(h: Human, g: Grade, findings: seq<Finding>)
    requires NamesUnit(h, g, findings)
    ensures g.aiRef.Some? && g.aiRef.value < |findings| && findings[g.aiRef.value].dropReason.None?
  {
    var p :| 0 <= p < |Units(findings)| && KeyOf(h, g) == UnitKey(Units(findings)[p]);
  }

  /** Every credit of either tier names a credit unit of the record. */
  lemma CreditsNameUnits(m: Matcher, expected: seq<Human>, tolerance: int, findings: seq<Finding>,
                         outcome: JudgeOutcome, h: Human)
    requires UniqueIds(expected) && h in expected
    requires ValidOutcome(outcome, Judged(expected), NumberedRows(JudgeRows(findings)))
    requires forall f :: f in findings ==> f.dropReason != Some("")
    ensures var g := GradeCase(m, expected, tolerance, findings, outcome)[h.id];
            CreditedValue(g.value) ==> NamesUnit(h, g, findings)
  {
    if h.mustMatch != "" {
      GradedMembers(expected);
      GradeCaseKeepsCap(m, expected, tolerance, findings, outcome);
      FirstTierNamesUnit(m, expected, tolerance, findings, GradeCase(m, expected, tolerance, findings, outcome), h);
    } else {
      var i := JudgedAt(expected, h);
      JudgedCreditNamesUnit(m, expected, tolerance, findings, outcome, i);
    }
  }

  lemma JudgedAt(expected: seq<Human>, h: Human) returns (i: nat)
    requires h in expected && h.mustMatch == ""
    ensures i < |Judged(expected)| && Judged(expected)[i] == h
  {
    JudgedMembers(expected);
    assert h in Judged(expected);
    i :| i < |Judged(expected)| && Judged(expected)[i] == h;
  }

  lemma JudgedCreditNamesUnit(m: Matcher, expected: seq<Human>, tolerance: int, findings: seq<Finding>,
                              outcome: JudgeOutcome, i: nat)
    requires UniqueIds(expected) && i < |Judged(expected)|
    requires ValidOutcome(outcome, Judged(expected), NumberedRows(JudgeRows(findings)))
    requires forall f :: f in findings ==> f.dropReason != Some("")
    ensures var h := Judged(expected)[i];
            && h.id in GradeCase(m, expected, tolerance, findings, outcome)
            && var g := GradeCase(m, expected, tolerance, findings, outcome)[h.id];
               CreditedValue(g.value) ==> NamesUnit(h, g, findings)
  {
    SettledOrSame(m, expected, tolerance, findings, outcome, i);
    SecondTierNamesUnit(Judged(expected), findings, outcome, i);
  }

  /** A judged label ends with the judge's own grade, or none. */
  lemma SettledOrSame(m: Matcher, expected: seq<Human>, tolerance: int, findings: seq<Finding>,
                      outcome: JudgeOutcome, i: nat)
    requires UniqueIds(expected) && i < |Judged(expected)|
    requires ValidOutcome(outcome, Judged(expected), NumberedRows(JudgeRows(findings)))
    ensures var h := Judged(expected)[i];
            && h.id in GradeCase(m, expected, tolerance, findings, outcome)
            && var g := GradeCase(m, expected, tolerance, findings, outcome)[h.id];
               g == Uncredited(h.id)
               || g == JudgeGrades(Judged(expected), outcome, NumberedRows(JudgeRows(findings)))[i]
  {
    var grades := BothTiers(m, expected, tolerance, findings, outcome);
    var h := Judged(expected)[i];
    JudgedMembers(expected);
    assert h in Judged(expected);
    BothTiersCover(m, expected, tolerance, findings, outcome);
    ClaimOrder(expected, grades);
    GradedMembers(expected);
    var order := InClaimOrder(expected, grades);
    if h in order {
      var k :| 0 <= k < |order| && order[k] == h;
      FirstClaimsFit(order, CreditedKeys(Graded(expected), grades), grades, k);
    } else {
      CapKeepsOthers(expected, grades, h);
    }
  }

  /** Grade `g` of label `h` comes from grade `r` of the reply: none when the reply credits nothing, and else
      none or the same grade at the unit that the reply numbers. */
  ghost predicate FromReply(r: JudgeGrade, h: Human, g: Grade, findings: seq<Finding>) {
    && r.humanId == h.id
    && if r.value in {Full, Partial} && g.value != NoMatch then
         && r.aiRef.Some? && 1 <= r.aiRef.value <= |Units(findings)|
         && var u := Units(findings)[r.aiRef.value - 1];
            u.file == h.file && g == Grade(h.id, r.value, Some(u.ref), u.line)
       else g == Grade(h.id, NoMatch, None, None)
  }

  lemma ReadFromReply(findings: seq<Finding>, r: JudgeGrade, h: Human)
    requires forall f :: f in findings ==> f.dropReason != Some("")
    requires Validated(r, h, NumberedRows(JudgeRows(findings)))
    ensures FromReply(r, h, ReadJudgeGrade(r, NumberedRows(JudgeRows(findings))), findings)
  {
    var rows := NumberedRows(JudgeRows(findings));
    TiersCountTheSameUnits(findings);
    if CreditedValue(r.value) {
      assert StandsFor(rows[r.aiRef.value - 1], Units(findings)[r.aiRef.value - 1], findings);
    }
  }

  /** The grade of a label without a test: none when the judge was not asked, a judge error when it failed,
      and otherwise what the reply says of it, unless the cap takes it away. */
  lemma JudgedLabelIs(m: Matcher, expected: seq<Human>, tolerance: int, findings: seq<Finding>,
                      outcome: JudgeOutcome, h: Human)
    requires UniqueIds(expected) && h in expected && h.mustMatch == ""
    requires ValidOutcome(outcome, Judged(expected), NumberedRows(JudgeRows(findings)))
    requires forall f :: f in findings ==> f.dropReason != Some("")
    ensures var g := GradeCase(m, expected, tolerance, findings, outcome)[h.id];
            match outcome
            case NotAsked => g == Grade(h.id, NoMatch, None, None)
            case Failed => g == Grade(h.id, JudgeError, None, None)
            case Replied(grades) => exists r :: r in grades && FromReply(r, h, g, findings)
  {
    var i := JudgedAt(expected, h);
    var rows := NumberedRows(JudgeRows(findings));
    SettledOrSame(m, expected, tolerance, findings, outcome, i);
    match outcome
    case NotAsked =>
    case Failed => UncreditedStays(m, expected, tolerance, findings, outcome, i);
    case Replied(grades) =>
      assert Validated(grades[i], h, rows);
      ReadFromReply(findings, grades[i], h);
      assert grades[i] in grades;
      assert FromReply(grades[i], h, GradeCase(m, expected, tolerance, findings, outcome)[h.id], findings);
  }

  lemma UncreditedStays(m: Matcher, expected: seq<Human>, tolerance: int, findings: seq<Finding>,
                        outcome: JudgeOutcome, i: nat)
    requires UniqueIds(expected) && i < |Judged(expected)| && outcome.Failed?
    requires ValidOutcome(outcome, Judged(expected), NumberedRows(JudgeRows(findings)))
    ensures var h := Judged(expected)[i];
            && h.id in GradeCase(m, expected, tolerance, findings, outcome)
            && GradeCase(m, expected, tolerance, findings, outcome)[h.id] == Grade(h.id, JudgeError, None, None)
  {
    FailedBeforeCap(m, expected, tolerance, findings, outcome, i);
    ErrorStays(expected, BothTiers(m, expected, tolerance, findings, outcome), i);
  }

  lemma FailedBeforeCap(m: Matcher, expected: seq<Human>, tolerance: int, findings: seq<Finding>,
                        outcome: JudgeOutcome, i: nat)
    requires UniqueIds(expected) && i < |Judged(expected)| && outcome.Failed?
    requires ValidOutcome(outcome, Judged(expected), NumberedRows(JudgeRows(findings)))
    ensures var h, both := Judged(expected)[i], BothTiers(m, expected, tolerance, findings, outcome);
            Covers(both, expected) && h.id in both && both[h.id] == Grade(h.id, JudgeError, None, None)
  {
    var first := MatchGrades(m, expected, tolerance, findings);
    var second := JudgeGrades(Judged(expected), outcome, NumberedRows(JudgeRows(findings)));
    assert second[i] == Grade(Judged(expected)[i].id, JudgeError, None, None);
    TiersJoin(expected, first, second);
    TiersCover(expected, GradesByIndex(Graded(expected), first) + GradesByIndex(Judged(expected), second));
  }

  lemma ErrorStays(expected: seq<Human>, grades: Grades, i: nat)
    requires UniqueIds(expected) && Covers(grades, expected) && i < |Judged(expected)|
    requires Judged(expected)[i].id in grades && grades[Judged(expected)[i].id].value == JudgeError
    ensures CapAcrossTiers(expected, grades)[Judged(expected)[i].id] == grades[Judged(expected)[i].id]
  {
    JudgedMembers(expected);
    assert Judged(expected)[i] in Judged(expected);
    CapKeepsOthers(expected, grades, Judged(expected)[i]);
  }

  /** The grade of a label with a test: the first tier's, whatever the judge says. */
  lemma TestedLabelIs(m: Matcher, expected: seq<Human>, tolerance: int, findings: seq<Finding>,
                      outcome: JudgeOutcome, h: Human)
    requires UniqueIds(expected) && h in expected && h.mustMatch != ""
    requires ValidOutcome(outcome, Judged(expected), NumberedRows(JudgeRows(findings)))
    ensures GradeNamesMatch(m, h, tolerance, findings, GradeCase(m, expected, tolerance, findings, outcome)[h.id])
  {
    GradedMembers(expected);
    GradeCaseKeepsCap(m, expected, tolerance, findings, outcome);
    var k :| 0 <= k < |Graded(expected)| && Graded(expected)[k] == h;
    GradeIsMatch(m, expected, tolerance, findings, k);
  }

  // ---------------------------------------------------------------------------------
  // The cap as it runs
  // ---------------------------------------------------------------------------------

  method CountFirstTier(expected: seq<Human>, grades: Grades) returns (used: multiset<Key>)
    requires Covers(grades, expected) && Covers(grades, Graded(expected))
    ensures used == CreditedKeys(Graded(expected), grades)
  {
    used := multiset{};
    for i := 0 to |expected|
      invariant Covers(grades, Graded(expected[..i])) && used == CreditedKeys(Graded(expected[..i]), grades)
    {
      var h := expected[i];
      assert h in expected && expected[..i + 1][..i] == expected[..i];
      if h.mustMatch != "" {
        CreditedKeysSnoc(Graded(expected[..i]), h, grades);
        assert Graded(expected[..i + 1]) == Graded(expected[..i]) + [h];
        if CreditedValue(grades[h.id].value) {
          used := used + multiset{KeyOf(h, grades[h.id])};
        }
      } else {
        assert Graded(expected[..i + 1]) == Graded(expected[..i]) + [] == Graded(expected[..i]);
      }
    }
    assert expected[..|expected|] == expected;
  }

  method CapGrades(expected: seq<Human>, before: Grades) returns (grades: Grades)
    requires Covers(before, expected)
    ensures grades == CapAcrossTiers(expected, before)
  {
    GradedMembers(expected);
    ClaimOrder(expected, before);
    var used := CountFirstTier(expected, before);
    var todo := InClaimOrder(expected, before);
    grades := before;
    for i := 0 to |todo|
      invariant grades.Keys == before.Keys && Covers(grades, todo[i..])
      invariant CapAcrossTiers(expected, before) == Settle(todo[i..], used, grades)
    {
      var h := todo[i];
      assert h in todo && todo[i..][1..] == todo[i + 1..];
      assert forall x :: x in todo[i + 1..] ==> x in todo;
      var key := KeyOf(h, grades[h.id]);
      if used[key] >= MAX_CREDITS_PER_FINDING {
        grades := grades[h.id := Uncredited(h.id)];
      } else {
        used := used + multiset{key};
      }
    }
  }
}
