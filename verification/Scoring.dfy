/** Metrics over graded cases: recall blocks and their partitions, severity agreement, the case
    row, and the precision pass over the findings no credit names.  Credits are exact halves. */
module Scoring {
  import opened Prelude
  import opened Sorting
  import opened Grading

  // ---------------------------------------------------------------------------------
  // Recall blocks
  // ---------------------------------------------------------------------------------

  /** One human finding of a case row. */
  datatype Scored = Scored(
    humanId: string, file: string, line: Option<int>, severity: Option<string>, category: Option<string>,
    accepted: Option<bool>, grade: GradeValue, aiRef: Option<nat>, aiLine: Option<int>,
    aiSeverity: Option<string>, agrees: Option<bool>)

  /** Credit in halves: full 2, partial 1, none 0; a judge error has no credit at all. */
  function Halves(g: GradeValue): Option<nat> {
    match g
    case Full => Some(2)
    case Partial => Some(1)
    case NoMatch => Some(0)
    case JudgeError => None
  }

  /** The counts of one block, its credit in halves. */
  datatype Block = Block(full: nat, partial: nat, none: nat, judgeError: nat, halves: nat) {
    function ScoredCount(): nat {
      full + partial + none
    }

    function Recall(): Option<real> {
      if ScoredCount() == 0 then None else Some(halves as real / (2 * ScoredCount()) as real)
    }
  }

  function Plus(a: Block, b: Block): Block {
    Block(a.full + b.full, a.partial + b.partial, a.none + b.none, a.judgeError + b.judgeError, a.halves + b.halves)
  }

  /** How many entries carry grade `g`. */
  ghost function CountOf(entries: seq<Scored>, g: GradeValue): nat {
    if entries == [] then 0
    else CountOf(entries[1..], g) + if entries[0].grade == g then 1 else 0
  }

  ghost function BlockOf(entries: seq<Scored>): Block {
    var full, partial := CountOf(entries, Full), CountOf(entries, Partial);
    Block(full, partial, CountOf(entries, NoMatch), CountOf(entries, JudgeError), 2 * full + partial)
  }

  lemma {:induction false} CountConcat(a: seq<Scored>, b: seq<Scored>, g: GradeValue)
    ensures CountOf(a + b, g) == CountOf(a, g) + CountOf(b, g)
  {
    if a == [] {
      assert a + b == b;
    } else {
      assert (a + b)[1..] == a[1..] + b;
      CountConcat(a[1..], b, g);
    }
  }

  lemma CountSnoc(entries: seq<Scored>, i: nat, g: GradeValue)
    requires i < |entries|
    ensures CountOf(entries[..i + 1], g) == CountOf(entries[..i], g) + if entries[i].grade == g then 1 else 0
  {
    assert entries[..i + 1] == entries[..i] + [entries[i]];
    CountConcat(entries[..i], [entries[i]], g);
    assert [entries[i]][1..] == [];
  }

  method RecallBlock(entries: seq<Scored>) returns (block: Block)
    ensures block == BlockOf(entries)
  {
    var counts: map<GradeValue, nat> := map[Full := 0, Partial := 0, NoMatch := 0, JudgeError := 0];
    var halves := 0;
    forall g: GradeValue ensures g in counts && counts[g] == CountOf(entries[..0], g) {
      assert g == Full || g == Partial || g == NoMatch || g == JudgeError;
    }
    for i := 0 to |entries|
      invariant forall g :: g in counts && counts[g] == CountOf(entries[..i], g)
      invariant halves == 2 * CountOf(entries[..i], Full) + CountOf(entries[..i], Partial)
    {
      var grade := entries[i].grade;
      forall g ensures CountOf(entries[..i + 1], g) == CountOf(entries[..i], g) + if grade == g then 1 else 0 {
        CountSnoc(entries, i, g);
      }
      counts := counts[grade := counts[grade] + 1];
      var credit := Halves(grade);
      if credit.Some? { halves := halves + credit.value; }
    }
    assert entries[..|entries|] == entries;
    block := Block(counts[Full], counts[Partial], counts[NoMatch], counts[JudgeError], halves);
  }

  lemma {:induction false} CountsAddUp(entries: seq<Scored>)
    ensures CountOf(entries, Full) + CountOf(entries, Partial) + CountOf(entries, NoMatch)
            + CountOf(entries, JudgeError) == |entries|
  {
    if entries != [] {
      CountsAddUp(entries[1..]);
    }
  }

  lemma {:induction false} CountIsZero(entries: seq<Scored>, g: GradeValue)
    ensures CountOf(entries, g) == |entries| <==> forall i :: 0 <= i < |entries| ==> entries[i].grade == g
    ensures CountOf(entries, g) <= |entries|
  {
    if entries != [] {
      CountIsZero(entries[1..], g);
      assert forall i :: 0 < i < |entries| ==> entries[i] == entries[1..][i - 1];
    }
  }

  /** Judge errors stay outside the recall: it is defined exactly when some entry was not a judge
      error, and then it lies between 0 and 1. */
  lemma RecallIsAFraction(entries: seq<Scored>)
    ensures var b := BlockOf(entries);
            && b.ScoredCount() + b.judgeError == |entries|
            && (b.Recall().None? <==> forall i :: 0 <= i < |entries| ==> entries[i].grade == JudgeError)
            && (b.Recall().Some? ==> 0.0 <= b.Recall().value <= 1.0)
  {
    CountsAddUp(entries);
    CountIsZero(entries, JudgeError);
    var b := BlockOf(entries);
    if b.ScoredCount() > 0 {
      FractionBounds(b.halves, 2 * b.ScoredCount());
    }
  }

  /** Recall is the halves of credit out of two for every entry that is no judge error. */
  lemma RecallIs(b: Block)
    ensures var counted := b.full + b.partial + b.none;
            if counted == 0 then b.Recall() == None
            else b.Recall().Some? && b.Recall().value * (2 * counted) as real == b.halves as real
  {
    var n := 2 * b.ScoredCount();
    if n > 0 {
      Quotient(b.halves as real, n as real, b.Recall().value);
    }
  }

  lemma FractionBounds(x: nat, d: nat)
    requires x <= d && d > 0
    ensures 0.0 <= x as real / d as real <= 1.0
  {
    FractionOrder(0, x, d);
    FractionOrder(x, d, d);
  }

  lemma FractionOrder(x: nat, y: nat, d: nat)
    requires x <= y && d > 0
    ensures x as real / d as real <= y as real / d as real
  {
    var a, b := x as real / d as real, y as real / d as real;
    Quotient(x as real, d as real, a);
    Quotient(y as real, d as real, b);
    if b < a {
      MoreTimes(b, a, d as real);
    }
  }

  lemma Quotient(x: real, d: real, q: real)
    requires d > 0.0 && q == x / d
    ensures q * d == x
  {
  }

  lemma MoreTimes(b: real, a: real, d: real)
    requires b < a && d > 0.0
    ensures b * d < a * d
  {
  }

  lemma BlockConcat(a: seq<Scored>, b: seq<Scored>)
    ensures BlockOf(a + b) == Plus(BlockOf(a), BlockOf(b))
  {
    CountConcat(a, b, Full);
    CountConcat(a, b, Partial);
    CountConcat(a, b, NoMatch);
    CountConcat(a, b, JudgeError);
  }

  // ---------------------------------------------------------------------------------
  // Partitions by label
  // ---------------------------------------------------------------------------------

  type Labelling = Scored -> string

  function WithLabel(entries: seq<Scored>, key: Labelling, name: string): (r: seq<Scored>) {
    if entries == [] then []
    else if key(entries[0]) == name then [entries[0]] + WithLabel(entries[1..], key, name)
    else WithLabel(entries[1..], key, name)
  }

  function DistinctLabels(entries: seq<Scored>, key: Labelling): (r: seq<string>)
  {
    if entries == [] then []
    else
      var front := DistinctLabels(entries[..|entries| - 1], key);
      var name := key(entries[|entries| - 1]);
      if name in front then front else front + [name]
  }

  function Labels(entries: seq<Scored>, key: Labelling): seq<string> {
    Sort(StringLe, DistinctLabels(entries, key))
  }

  lemma {:induction false} DistinctLabelsMembers(entries: seq<Scored>, key: Labelling)
    ensures Distinct(DistinctLabels(entries, key))
    ensures forall e :: e in entries ==> key(e) in DistinctLabels(entries, key)
  {
    if entries != [] {
      DistinctLabelsMembers(entries[..|entries| - 1], key);
      assert entries == entries[..|entries| - 1] + [entries[|entries| - 1]];
    }
  }

  lemma LabelsMembers(entries: seq<Scored>, key: Labelling)
    ensures Distinct(Labels(entries, key))
    ensures forall e :: e in entries ==> key(e) in Labels(entries, key)
    ensures SortedBy(StringLe, Labels(entries, key))
  {
    DistinctLabelsMembers(entries, key);
    SortMembers(StringLe, DistinctLabels(entries, key));
    SortMultiset(StringLe, DistinctLabels(entries, key));
    SameMultisetDistinct(DistinctLabels(entries, key), Labels(entries, key));
    StringOrder();
    SortSorted(StringLe, DistinctLabels(entries, key));
  }

  ghost function BlockAt(entries: seq<Scored>, key: Labelling, name: string): (string, Block) {
    (name, BlockOf(WithLabel(entries, key, name)))
  }

  /** The blocks of a partition: one per label, labels sorted. */
  method Grouped(entries: seq<Scored>, key: Labelling) returns (blocks: seq<(string, Block)>)
    ensures |blocks| == |Labels(entries, key)|
    ensures forall i :: 0 <= i < |blocks| ==> blocks[i] == BlockAt(entries, key, Labels(entries, key)[i])
  {
    var names := Labels(entries, key);
    blocks := [];
    for i := 0 to |names|
      invariant |blocks| == i
      invariant forall j :: 0 <= j < i ==> blocks[j] == BlockAt(entries, key, names[j])
    {
      var block := RecallBlock(WithLabel(entries, key, names[i]));
      blocks := blocks + [(names[i], block)];
    }
  }

  ghost function SumOver(entries: seq<Scored>, key: Labelling, names: seq<string>): Block {
    if names == [] then Block(0, 0, 0, 0, 0)
    else Plus(BlockOf(WithLabel(entries, key, names[0])), SumOver(entries, key, names[1..]))
  }

  /** The same sum for one grade. */
  ghost function CountOver(entries: seq<Scored>, key: Labelling, names: seq<string>, g: GradeValue): nat {
    if names == [] then 0
    else CountOf(WithLabel(entries, key, names[0]), g) + CountOver(entries, key, names[1..], g)
  }

  lemma {:induction false} SumOverCounts(entries: seq<Scored>, key: Labelling, names: seq<string>)
    ensures var s := SumOver(entries, key, names);
            && s.full == CountOver(entries, key, names, Full) && s.partial == CountOver(entries, key, names, Partial)
            && s.none == CountOver(entries, key, names, NoMatch)
            && s.judgeError == CountOver(entries, key, names, JudgeError)
            && s.halves == 2 * s.full + s.partial
  {
    if names != [] {
      var here := WithLabel(entries, key, names[0]);
      SumOverCounts(entries, key, names[1..]);
      CountsHere(entries, key, names, Full);
      CountsHere(entries, key, names, Partial);
      CountsHere(entries, key, names, NoMatch);
      CountsHere(entries, key, names, JudgeError);
      SumHere(entries, key, names);
    }
  }

  lemma CountsHere(entries: seq<Scored>, key: Labelling, names: seq<string>, g: GradeValue)
    requires names != []
    ensures CountOver(entries, key, names, g)
         == CountOf(WithLabel(entries, key, names[0]), g) + CountOver(entries, key, names[1..], g)
  {
  }

  lemma SumHere(entries: seq<Scored>, key: Labelling, names: seq<string>)
    requires names != []
    ensures var here := WithLabel(entries, key, names[0]);
            var s, rest := SumOver(entries, key, names), SumOver(entries, key, names[1..]);
            && s.full == CountOf(here, Full) + rest.full && s.partial == CountOf(here, Partial) + rest.partial
            && s.none == CountOf(here, NoMatch) + rest.none
            && s.judgeError == CountOf(here, JudgeError) + rest.judgeError
            && s.halves == 2 * CountOf(here, Full) + CountOf(here, Partial) + rest.halves
  {
  }

  lemma {:induction false} CountOverEmpty(key: Labelling, names: seq<string>, g: GradeValue)
    ensures CountOver([], key, names, g) == 0
  {
    if names != [] { CountOverEmpty(key, names[1..], g); }
  }

  lemma {:induction false} CountOverCons(entries: seq<Scored>, key: Labelling, names: seq<string>, g: GradeValue)
    requires Distinct(names) && entries != []
    ensures CountOver(entries, key, names, g)
         == CountOver(entries[1..], key, names, g) + if key(entries[0]) in names && entries[0].grade == g then 1 else 0
  {
    if names != [] {
      var name, rest := names[0], names[1..];
      CountOverCons(entries, key, rest, g);
      assert names == [name] + rest && name !in rest;
      if key(entries[0]) == name {
        assert key(entries[0]) !in rest;
        assert WithLabel(entries, key, name)[1..] == WithLabel(entries[1..], key, name);
      }
    }
  }

  lemma {:induction false} CountOverAll(entries: seq<Scored>, key: Labelling, names: seq<string>, g: GradeValue)
    requires Distinct(names) && forall e :: e in entries ==> key(e) in names
    ensures CountOver(entries, key, names, g) == CountOf(entries, g)
  {
    if entries == [] {
      CountOverEmpty(key, names, g);
    } else {
      CountOverAll(entries[1..], key, names, g);
      CountOverCons(entries, key, names, g);
      assert entries[0] in entries;
    }
  }

  /** The blocks of a partition sum to the headline, for any labelling. */
  lemma PartitionSumsToHeadline(entries: seq<Scored>, key: Labelling)
    ensures SumOver(entries, key, Labels(entries, key)) == BlockOf(entries)
  {
    LabelsMembers(entries, key);
    SumOverAll(entries, key, Labels(entries, key));
  }

  lemma SumOverAll(entries: seq<Scored>, key: Labelling, names: seq<string>)
    requires Distinct(names) && forall e :: e in entries ==> key(e) in names
    ensures SumOver(entries, key, names) == BlockOf(entries)
  {
    SumOverCounts(entries, key, names);
    CountOverAll(entries, key, names, Full);
    CountOverAll(entries, key, names, Partial);
    CountOverAll(entries, key, names, NoMatch);
    CountOverAll(entries, key, names, JudgeError);
  }

  // ---------------------------------------------------------------------------------
  // Severity agreement
  // ---------------------------------------------------------------------------------

  const MISSING_LABEL := "(none)"

  /** The severity compared for agreement; `fold` trims and lowercases. */
  function AgreementSeverity(fold: string -> string, severity: Option<string>): string {
    var value := if severity.Some? then fold(severity.value) else "";
    if value == "minor" then "warning" else value
  }

  function Cell(fold: string -> string, severity: Option<string>): string {
    var value := AgreementSeverity(fold, severity);
    if value == "" then MISSING_LABEL else value
  }

  /** A severity as agreement reads it: folded, with `minor` read as `warning` and a missing one as nothing. */
  ghost function ReadSeverity(fold: string -> string, severity: Option<string>): string {
    if severity == None then ""
    else if fold(severity.value) == "minor" then "warning"
    else fold(severity.value)
  }

  /** ... and as the confusion table names it. */
  ghost function CellName(fold: string -> string, severity: Option<string>): string {
    if ReadSeverity(fold, severity) == "" then "(none)" else ReadSeverity(fold, severity)
  }

  type Confusion = map<string, map<string, nat>>

  function CellOf(confusion: Confusion, human: string, ai: string): nat {
    if human in confusion && ai in confusion[human] then confusion[human][ai] else 0
  }

  ghost function SumMap(m: map<string, nat>): nat {
    if m == map[] then 0
    else var k :| k in m; m[k] + SumMap(m - {k})
  }

  lemma {:induction false} SumMapPick(m: map<string, nat>, k: string)
    requires k in m
    ensures SumMap(m) == m[k] + SumMap(m - {k})
    decreases |m|
  {
    var c :| c in m && SumMap(m) == m[c] + SumMap(m - {c});
    if c != k {
      SumMapPick(m - {c}, k);
      SumMapPick(m - {k}, c);
      assert m - {c} - {k} == m - {k} - {c};
    }
  }

  lemma SumMapSet(m: map<string, nat>, k: string, v: nat)
    ensures SumMap(m[k := v]) == SumMap(m) - (if k in m then m[k] else 0) + v
  {
    SumMapPick(m[k := v], k);
    assert m[k := v] - {k} == m - {k};
    if k in m { SumMapPick(m, k); } else { assert m - {k} == m; }
  }

  ghost function RowTotals(confusion: Confusion): map<string, nat> {
    map h | h in confusion :: SumMap(confusion[h])
  }

  /** All cells of the table together. */
  ghost function CellTotal(confusion: Confusion): nat {
    SumMap(RowTotals(confusion))
  }

  function Compared(entries: seq<Scored>): nat {
    if entries == [] then 0 else (if entries[0].agrees.Some? then 1 else 0) + Compared(entries[1..])
  }

  function Agreed(entries: seq<Scored>): nat {
    if entries == [] then 0 else (if entries[0].agrees == Some(true) then 1 else 0) + Agreed(entries[1..])
  }

  /** The compared entries of one pair of severities. */
  ghost function InCell(fold: string -> string, entries: seq<Scored>, human: string, ai: string): nat {
    if entries == [] then 0
    else (if entries[0].agrees.Some? && CellName(fold, entries[0].severity) == human
             && CellName(fold, entries[0].aiSeverity) == ai then 1 else 0)
         + InCell(fold, entries[1..], human, ai)
  }

  /** The compared entries whose two severities share a name. */
  ghost function OnDiagonal(fold: string -> string, entries: seq<Scored>): nat {
    if entries == [] then 0
    else (if entries[0].agrees.Some?
             && CellName(fold, entries[0].severity) == CellName(fold, entries[0].aiSeverity) then 1 else 0)
         + OnDiagonal(fold, entries[1..])
  }

  ghost function DiagonalCells(confusion: Confusion): map<string, nat> {
    map h | h in confusion :: CellOf(confusion, h, h)
  }

  /** The cells of equal severities together. */
  ghost function DiagonalTotal(confusion: Confusion): nat {
    SumMap(DiagonalCells(confusion))
  }

  /** `row = confusion.setdefault(human, {}); row[ai] = row.get(ai, 0) + 1` */
  function Bump(confusion: Confusion, human: string, ai: string): Confusion {
    var row := if human in confusion then confusion[human] else map[];
    confusion[human := row[ai := (if ai in row then row[ai] else 0) + 1]]
  }

  lemma BumpCounts(confusion: Confusion, human: string, ai: string)
    ensures CellTotal(Bump(confusion, human, ai)) == CellTotal(confusion) + 1
    ensures DiagonalTotal(Bump(confusion, human, ai)) == DiagonalTotal(confusion) + if human == ai then 1 else 0
    ensures forall h, a :: CellOf(Bump(confusion, human, ai), h, a)
              == CellOf(confusion, h, a) + if h == human && a == ai then 1 else 0
  {
    BumpAddsOne(confusion, human, ai);
    BumpDiagonal(confusion, human, ai);
  }

  lemma BumpDiagonal(confusion: Confusion, human: string, ai: string)
    ensures DiagonalTotal(Bump(confusion, human, ai)) == DiagonalTotal(confusion) + if human == ai then 1 else 0
  {
    var after := Bump(confusion, human, ai);
    SumMapSet(DiagonalCells(confusion), human, CellOf(after, human, human));
    assert DiagonalCells(after) == DiagonalCells(confusion)[human := CellOf(after, human, human)];
  }

  lemma BumpAddsOne(confusion: Confusion, human: string, ai: string)
    ensures CellTotal(Bump(confusion, human, ai)) == CellTotal(confusion) + 1
  {
    var row: map<string, nat> := if human in confusion then confusion[human] else map[];
    var count := (if ai in row then row[ai] else 0) + 1;
    SumMapSet(row, ai, count);
    SumMapSet(RowTotals(confusion), human, SumMap(row[ai := count]));
    assert RowTotals(Bump(confusion, human, ai)) == RowTotals(confusion)[human := SumMap(row[ai := count])];
  }

  /** The table holds what the entries before `rest` put into it. */
  ghost predicate TalliedTo(fold: string -> string, entries: seq<Scored>, rest: seq<Scored>, compared: nat,
                            confusion: Confusion)
  {
    && CellTotal(confusion) == compared
    && DiagonalTotal(confusion) + OnDiagonal(fold, rest) == OnDiagonal(fold, entries)
    && forall human, ai ::
         CellOf(confusion, human, ai) + InCell(fold, rest, human, ai) == InCell(fold, entries, human, ai)
  }

  lemma TallyStep(fold: string -> string, entries: seq<Scored>, rest: seq<Scored>, compared: nat,
                  confusion: Confusion)
    requires rest != [] && TalliedTo(fold, entries, rest, compared, confusion)
    ensures if rest[0].agrees.Some? then
              TalliedTo(fold, entries, rest[1..], compared + 1,
                        Bump(confusion, Cell(fold, rest[0].severity), Cell(fold, rest[0].aiSeverity)))
            else TalliedTo(fold, entries, rest[1..], compared, confusion)
  {
    if rest[0].agrees.Some? {
      BumpCounts(confusion, Cell(fold, rest[0].severity), Cell(fold, rest[0].aiSeverity));
    }
  }

  /** The cells count the compared entries: each cell its own pair, all cells together `compared`. */
  method AgreementBlock(fold: string -> string, entries: seq<Scored>)
    returns (compared: nat, agreed: nat, confusion: Confusion)
    ensures compared == Compared(entries) && agreed == Agreed(entries)
    ensures CellTotal(confusion) == compared && DiagonalTotal(confusion) == OnDiagonal(fold, entries)
    ensures forall human, ai :: CellOf(confusion, human, ai) == InCell(fold, entries, human, ai)
  {
    compared, agreed, confusion := 0, 0, map[];
    assert RowTotals(confusion) == map[] && DiagonalCells(confusion) == map[];
    for i := 0 to |entries|
      invariant compared + Compared(entries[i..]) == Compared(entries)
      invariant agreed + Agreed(entries[i..]) == Agreed(entries)
      invariant TalliedTo(fold, entries, entries[i..], compared, confusion)
    {
      var entry := entries[i];
      assert entries[i..][0] == entry && entries[i..][1..] == entries[i + 1..];
      TallyStep(fold, entries, entries[i..], compared, confusion);
      if entry.agrees.Some? {
        compared := compared + 1;
        if entry.agrees.value { agreed := agreed + 1; }
        confusion := Bump(confusion, Cell(fold, entry.severity), Cell(fold, entry.aiSeverity));
      }
    }
  }

  // ---------------------------------------------------------------------------------
  // One case
  // ---------------------------------------------------------------------------------

  datatype ScoreError =
    | DuplicateLabel | UnknownLabel(id: string) | SecondGrade(id: string)
    | BadReference(id: string) | DroppedReference(id: string) | MissingGrade

  ghost predicate HasLabel(expected: seq<Human>, id: string) {
    exists h :: h in expected && h.id == id
  }

  ghost predicate GoodReference(findings: seq<Finding>, g: Grade) {
    CreditedValue(g.value) ==>
      g.aiRef.Some? && g.aiRef.value < |findings| && findings[g.aiRef.value].dropReason.None?
  }

  /** Exactly one grade per label, and every credit names an active finding. */
  ghost predicate ValidGrades(expected: seq<Human>, findings: seq<Finding>, grades: seq<Grade>) {
    && UniqueIds(expected)
    && (forall i :: 0 <= i < |grades| ==> HasLabel(expected, grades[i].humanId) && GoodReference(findings, grades[i]))
    && (forall i, j :: 0 <= i < j < |grades| ==> grades[i].humanId != grades[j].humanId)
    && (forall h :: h in expected ==> exists i :: 0 <= i < |grades| && grades[i].humanId == h.id)
  }

  /** The grades by the label they grade. */
  ghost function ById(grades: seq<Grade>): (r: map<string, Grade>)
    ensures forall id :: id in r ==> r[id] in grades && r[id].humanId == id
    ensures forall i :: 0 <= i < |grades| ==> grades[i].humanId in r
  {
    if grades == [] then map[]
    else
      var last := |grades| - 1;
      ById(grades[..last])[grades[last].humanId := grades[last]]
  }

  lemma ByIdSnoc(grades: seq<Grade>, i: nat)
    requires i < |grades|
    ensures ById(grades[..i + 1]) == ById(grades[..i])[grades[i].humanId := grades[i]]
  {
    assert grades[..i + 1][..i] == grades[..i];
  }

  lemma ByIdFinds(grades: seq<Grade>, i: nat)
    requires i < |grades| && forall j, k :: 0 <= j < k < |grades| ==> grades[j].humanId != grades[k].humanId
    ensures ById(grades)[grades[i].humanId] == grades[i]
  {
    var g := ById(grades)[grades[i].humanId];
    var j :| 0 <= j < |grades| && grades[j] == g;
  }

  /** What is wrong with one grade, given the ones before it. */
  method CheckGrade(expected: seq<Human>, findings: seq<Finding>, g: Grade, byId: map<string, Grade>)
    returns (problem: Option<ScoreError>)
    ensures problem.None? <==> HasLabel(expected, g.humanId) && g.humanId !in byId && GoodReference(findings, g)
  {
    if forall h :: h in expected ==> h.id != g.humanId {
      return Some(UnknownLabel(g.humanId));
    }
    if g.humanId in byId {
      return Some(SecondGrade(g.humanId));
    }
    if CreditedValue(g.value) {
      if g.aiRef.None? || g.aiRef.value >= |findings| {
        return Some(BadReference(g.humanId));
      }
      if findings[g.aiRef.value].dropReason.Some? {
        return Some(DroppedReference(g.humanId));
      }
    }
    return None;
  }

  /** The first `i` grades have nothing wrong. */
  ghost predicate GoodSoFar(expected: seq<Human>, findings: seq<Finding>, grades: seq<Grade>, i: nat) {
    && i <= |grades|
    && (forall j :: 0 <= j < i ==> HasLabel(expected, grades[j].humanId) && GoodReference(findings, grades[j]))
    && forall j, k :: 0 <= j < k < i ==> grades[j].humanId != grades[k].humanId
  }

  ghost predicate GoodGrade(expected: seq<Human>, findings: seq<Finding>, grades: seq<Grade>, i: nat)
    requires i < |grades|
  {
    && HasLabel(expected, grades[i].humanId) && grades[i].humanId !in ById(grades[..i])
    && GoodReference(findings, grades[i])
  }

  lemma GoodNext(expected: seq<Human>, findings: seq<Finding>, grades: seq<Grade>, i: nat)
    requires GoodSoFar(expected, findings, grades, i) && i < |grades| && GoodGrade(expected, findings, grades, i)
    ensures GoodSoFar(expected, findings, grades, i + 1)
  {
    forall j | 0 <= j < i ensures grades[j].humanId != grades[i].humanId {
      assert grades[..i][j].humanId in ById(grades[..i]);
    }
  }

  lemma BadGrade(expected: seq<Human>, findings: seq<Finding>, grades: seq<Grade>, i: nat)
    requires i < |grades| && !GoodGrade(expected, findings, grades, i)
    ensures !ValidGrades(expected, findings, grades)
  {
    if grades[i].humanId in ById(grades[..i]) {
      var g := ById(grades[..i])[grades[i].humanId];
      var j :| 0 <= j < i && grades[..i][j] == g;
      assert grades[j].humanId == grades[i].humanId;
    }
  }

  lemma AllGood(expected: seq<Human>, findings: seq<Finding>, grades: seq<Grade>)
    requires UniqueIds(expected) && GoodSoFar(expected, findings, grades, |grades|)
    ensures ValidGrades(expected, findings, grades) <==> forall h :: h in expected ==> h.id in ById(grades)
  {
    forall h | h in expected
      ensures h.id in ById(grades) <==> exists i :: 0 <= i < |grades| && grades[i].humanId == h.id
    {
      if h.id in ById(grades) {
        var g := ById(grades)[h.id];
        var i :| 0 <= i < |grades| && grades[i] == g;
      }
    }
  }

  method CheckGrades(expected: seq<Human>, findings: seq<Finding>, grades: seq<Grade>)
    returns (r: Result<map<string, Grade>, ScoreError>)
    ensures r.Ok? <==> ValidGrades(expected, findings, grades)
    ensures r.Ok? ==> r.value == ById(grades)
  {
    if !UniqueIds(expected) {
      return Err(DuplicateLabel);
    }
    var byId: map<string, Grade> := map[];
    for i := 0 to |grades|
      invariant GoodSoFar(expected, findings, grades, i) && byId == ById(grades[..i])
    {
      var problem := CheckGrade(expected, findings, grades[i], byId);
      if problem.Some? {
        BadGrade(expected, findings, grades, i);
        return Err(problem.value);
      }
      GoodNext(expected, findings, grades, i);
      ByIdSnoc(grades, i);
      byId := byId[grades[i].humanId := grades[i]];
    }
    assert grades[..|grades|] == grades;
    AllGood(expected, findings, grades);
    if !(forall h :: h in expected ==> h.id in byId) {
      return Err(MissingGrade);
    }
    r := Ok(byId);
  }

  predicate IdLe(a: Human, b: Human) {
    StringLe(a.id, b.id)
  }

  function ScoredOf(fold: string -> string, h: Human, g: Grade, findings: seq<Finding>): Scored
    requires GoodReference(findings, g)
  {
    if CreditedValue(g.value) then
      var ai := findings[g.aiRef.value].severity;
      Scored(h.id, h.file, h.line, h.severity, h.category, h.accepted, g.value, g.aiRef, g.aiLine, ai,
             Some(AgreementSeverity(fold, ai) == AgreementSeverity(fold, h.severity)))
    else
      Scored(h.id, h.file, h.line, h.severity, h.category, h.accepted, g.value, None, None, None, None)
  }

  ghost predicate GradesFor(expected: seq<Human>, findings: seq<Finding>, byId: map<string, Grade>) {
    forall h :: h in expected ==> h.id in byId && GoodReference(findings, byId[h.id])
  }

  function ScoredAll(fold: string -> string, humans: seq<Human>, byId: map<string, Grade>, findings: seq<Finding>)
    : (r: seq<Scored>)
    requires GradesFor(humans, findings, byId)
    ensures |r| == |humans|
    ensures forall i :: 0 <= i < |r| ==>
              humans[i] in humans && r[i] == ScoredOf(fold, humans[i], byId[humans[i].id], findings)
  {
    seq(|humans|, i requires 0 <= i < |humans| =>
      assert humans[i] in humans;
      ScoredOf(fold, humans[i], byId[humans[i].id], findings))
  }

  /** The findings after every gate, by index. */
  function ActiveFrom(findings: seq<Finding>, k: nat): seq<nat>
    requires k <= |findings|
    decreases |findings| - k
  {
    if k == |findings| then []
    else if findings[k].dropReason.None? then [k] + ActiveFrom(findings, k + 1)
    else ActiveFrom(findings, k + 1)
  }

  /** The record indexes of the active findings no credited grade names. */
  function UnitIndexesFrom(findings: seq<Finding>, credited: set<nat>, k: nat): seq<nat>
    requires k <= |findings|
    decreases |findings| - k
  {
    if k == |findings| then []
    else if findings[k].dropReason.None? && k !in credited then [k] + UnitIndexesFrom(findings, credited, k + 1)
    else UnitIndexesFrom(findings, credited, k + 1)
  }

  function UnitIndexes(findings: seq<Finding>, credited: set<nat>): seq<nat> {
    UnitIndexesFrom(findings, credited, 0)
  }

  lemma {:induction false} UnitIndexesMembers(findings: seq<Finding>, credited: set<nat>, k: nat)
    requires k <= |findings|
    ensures forall i :: i in UnitIndexesFrom(findings, credited, k) <==>
              k <= i < |findings| && findings[i].dropReason.None? && i !in credited
    ensures forall a, b :: 0 <= a < b < |UnitIndexesFrom(findings, credited, k)| ==>
              UnitIndexesFrom(findings, credited, k)[a] < UnitIndexesFrom(findings, credited, k)[b]
    decreases |findings| - k
  {
    if k < |findings| {
      UnitIndexesMembers(findings, credited, k + 1);
      var rest := UnitIndexesFrom(findings, credited, k + 1);
      assert forall a :: 0 <= a < |rest| ==> rest[a] in rest;
    }
  }

  ghost predicate AllActive(findings: seq<Finding>, refs: set<nat>) {
    forall r :: r in refs ==> r < |findings| && findings[r].dropReason.None?
  }

  ghost function From(refs: set<nat>, k: nat): set<nat> {
    set r | r in refs && r >= k
  }

  lemma {:induction false} UnitsAndCreditsCoverActive(findings: seq<Finding>, credited: set<nat>, k: nat)
    requires k <= |findings| && AllActive(findings, credited)
    ensures |From(credited, k)| + |UnitIndexesFrom(findings, credited, k)| == |ActiveFrom(findings, k)|
    decreases |findings| - k
  {
    if k == |findings| {
      assert From(credited, k) == {};
    } else {
      UnitsAndCreditsCoverActive(findings, credited, k + 1);
      assert From(credited, k) == From(credited, k + 1) + if k in credited then {k} else {};
    }
  }

  /** The references the entries of a row credit. */
  function RowRefs(entries: seq<Scored>): (r: set<nat>) {
    set i | 0 <= i < |entries| && entries[i].aiRef.Some? :: entries[i].aiRef.value
  }

  /** The references the grades credit, as the precision pass collects them. */
  function CreditedRefs(grades: seq<Grade>): (r: set<nat>) {
    set i | 0 <= i < |grades| && CreditedValue(grades[i].value) && grades[i].aiRef.Some? :: grades[i].aiRef.value
  }

  function UnmatchedCount(findings: seq<Finding>, credited: set<nat>, active: seq<nat>): nat {
    if active == [] then 0
    else (if active[0] !in credited then 1 else 0) + UnmatchedCount(findings, credited, active[1..])
  }

  lemma {:induction false} UnmatchedIsUnits(findings: seq<Finding>, credited: set<nat>, k: nat)
    requires k <= |findings|
    ensures UnmatchedCount(findings, credited, ActiveFrom(findings, k)) == |UnitIndexesFrom(findings, credited, k)|
    decreases |findings| - k
  {
    if k < |findings| {
      UnmatchedIsUnits(findings, credited, k + 1);
      if findings[k].dropReason.None? {
        assert ActiveFrom(findings, k)[1..] == ActiveFrom(findings, k + 1);
      }
    }
  }

  datatype CaseRow = CaseRow(
    caseId: string, entries: seq<Scored>, block: Block, aiFindings: nat, unmatched: nat, compared: nat, agreed: nat)

  /** One case with its grades. */
  datatype GradedCase = GradedCase(
    caseId: string, expected: seq<Human>, findings: seq<Finding>, grades: seq<Grade>)

  ghost predicate ValidCase(c: GradedCase) {
    ValidGrades(c.expected, c.findings, c.grades)
  }

  ghost function EntriesOf(fold: string -> string, c: GradedCase): seq<Scored>
    requires ValidCase(c)
  {
    GradesCover(c);
    ScoredAll(fold, Sort(IdLe, c.expected), ById(c.grades), c.findings)
  }

  ghost function RowOf(fold: string -> string, c: GradedCase): CaseRow
    requires ValidCase(c)
  {
    var entries := EntriesOf(fold, c);
    var active := ActiveFrom(c.findings, 0);
    CaseRow(c.caseId, entries, BlockOf(entries), |active|, UnmatchedCount(c.findings, RowRefs(entries), active),
            Compared(entries), Agreed(entries))
  }

  lemma GradesCover(c: GradedCase)
    requires ValidCase(c)
    ensures GradesFor(Sort(IdLe, c.expected), c.findings, ById(c.grades))
  {
    SortMembers(IdLe, c.expected);
    forall h | h in Sort(IdLe, c.expected)
      ensures h.id in ById(c.grades) && GoodReference(c.findings, ById(c.grades)[h.id])
    {
      var i :| 0 <= i < |c.grades| && c.grades[i].humanId == h.id;
      ByIdFinds(c.grades, i);
    }
  }

  method ScoreCase(fold: string -> string, c: GradedCase) returns (r: Result<CaseRow, ScoreError>)
    ensures r.Ok? <==> ValidCase(c)
    ensures r.Ok? ==> r.value == RowOf(fold, c)
  {
    var checked := CheckGrades(c.expected, c.findings, c.grades);
    if checked.Err? {
      return Err(checked.error);
    }
    GradesCover(c);
    var entries := ScoredAll(fold, Sort(IdLe, c.expected), checked.value, c.findings);
    var block := RecallBlock(entries);
    var active := ActiveFrom(c.findings, 0);
    r := Ok(CaseRow(c.caseId, entries, block, |active|, UnmatchedCount(c.findings, RowRefs(entries), active),
                    Compared(entries), Agreed(entries)));
  }

  lemma {:induction false} ComparedAreCredited(entries: seq<Scored>)
    requires forall i :: 0 <= i < |entries| ==> (entries[i].agrees.Some? <==> CreditedValue(entries[i].grade))
    ensures Compared(entries) == CountOf(entries, Full) + CountOf(entries, Partial)
    ensures Agreed(entries) <= Compared(entries)
  {
    if entries != [] { ComparedAreCredited(entries[1..]); }
  }

  lemma EntriesSplit(fold: string -> string, c: GradedCase)
    requires ValidCase(c)
    ensures var entries, b := EntriesOf(fold, c), BlockOf(EntriesOf(fold, c));
            && |entries| == |c.expected| && b.ScoredCount() + b.judgeError == |c.expected|
            && Compared(entries) == b.full + b.partial && Agreed(entries) <= Compared(entries)
  {
    GradesCover(c);
    var entries := EntriesOf(fold, c);
    SortMultiset(IdLe, c.expected);
    assert |multiset(c.expected)| == |c.expected| && |multiset(Sort(IdLe, c.expected))| == |Sort(IdLe, c.expected)|;
    CountsAddUp(entries);
    ComparedAreCredited(entries);
  }

  lemma ActiveSplit(findings: seq<Finding>, credited: set<nat>)
    requires AllActive(findings, credited)
    ensures var active := ActiveFrom(findings, 0);
            && |credited| + UnmatchedCount(findings, credited, active) == |active|
            && UnmatchedCount(findings, credited, active) == |UnitIndexes(findings, credited)|
  {
    UnitsAndCreditsCoverActive(findings, credited, 0);
    assert From(credited, 0) == credited;
    UnmatchedIsUnits(findings, credited, 0);
  }

  /** One case row: every active finding is credited or unmatched, never both; every label is in
      the block; agreement is compared exactly on the credited labels; and the precision pass
      grades exactly the unmatched findings. */
  lemma RowConserves(fold: string -> string, c: GradedCase)
    requires ValidCase(c)
    ensures var row, credited := RowOf(fold, c), CreditedRefs(c.grades);
            && credited == RowRefs(row.entries) && AllActive(c.findings, credited)
            && |credited| + row.unmatched == row.aiFindings
            && row.unmatched == |UnitIndexes(c.findings, credited)|
            && row.block.ScoredCount() + row.block.judgeError == |c.expected|
            && row.compared == row.block.full + row.block.partial && row.agreed <= row.compared
  {
    SameRefs(fold, c);
    ActiveSplit(c.findings, CreditedRefs(c.grades));
    EntriesSplit(fold, c);
  }

  lemma SameRefs(fold: string -> string, c: GradedCase)
    requires ValidCase(c)
    ensures CreditedRefs(c.grades) == RowRefs(EntriesOf(fold, c))
    ensures AllActive(c.findings, CreditedRefs(c.grades))
  {
    forall r | r in CreditedRefs(c.grades) ensures r in RowRefs(EntriesOf(fold, c)) {
      var i :| 0 <= i < |c.grades| && CreditedValue(c.grades[i].value) && c.grades[i].aiRef == Some(r);
      RefInRow(fold, c, i);
    }
    forall r | r in RowRefs(EntriesOf(fold, c)) ensures r in CreditedRefs(c.grades) {
      RefInGrades(fold, c, r);
    }
    forall r | r in CreditedRefs(c.grades) ensures r < |c.findings| && c.findings[r].dropReason.None? {
      var i :| 0 <= i < |c.grades| && CreditedValue(c.grades[i].value) && c.grades[i].aiRef == Some(r);
      assert GoodReference(c.findings, c.grades[i]);
    }
  }

  lemma RefInGrades(fold: string -> string, c: GradedCase, r: nat)
    requires ValidCase(c) && r in RowRefs(EntriesOf(fold, c))
    ensures r in CreditedRefs(c.grades)
  {
    GradesCover(c);
    var humans, entries := Sort(IdLe, c.expected), EntriesOf(fold, c);
    var j :| 0 <= j < |entries| && entries[j].aiRef == Some(r);
    var g := ById(c.grades)[humans[j].id];
    assert entries[j] == ScoredOf(fold, humans[j], g, c.findings);
    var i :| 0 <= i < |c.grades| && c.grades[i] == g;
  }

  lemma RefInRow(fold: string -> string, c: GradedCase, i: nat)
    requires ValidCase(c) && i < |c.grades| && CreditedValue(c.grades[i].value) && c.grades[i].aiRef.Some?
    ensures c.grades[i].aiRef.value in RowRefs(EntriesOf(fold, c))
  {
    GradesCover(c);
    SortMembers(IdLe, c.expected);
    var humans := Sort(IdLe, c.expected);
    assert HasLabel(c.expected, c.grades[i].humanId);
    var h :| h in c.expected && h.id == c.grades[i].humanId;
    var j :| 0 <= j < |humans| && humans[j] == h;
    ByIdFinds(c.grades, i);
    assert EntriesOf(fold, c)[j].aiRef == c.grades[i].aiRef;
  }

  // ---------------------------------------------------------------------------------
  // The precision pass
  // ---------------------------------------------------------------------------------

  datatype Verdict = Valid | Nit | Invalid | Duplicate | Unverifiable

  /** No call (no unit to grade), a judge error, or one verdict per unit in unit order. */
  datatype PrecisionOutcome = NoCall | Failed | Graded(verdicts: seq<Verdict>)

  datatype PrecisionBlock = PrecisionBlock(
    graded: nat, matched: nat, valid: nat, nit: nat, invalid: nat, duplicate: nat, unverifiable: nat, judgeError: nat)

  ghost function VerdictCount(verdicts: seq<Verdict>, v: Verdict): nat {
    if verdicts == [] then 0 else (if verdicts[0] == v then 1 else 0) + VerdictCount(verdicts[1..], v)
  }

  lemma {:induction false} VerdictCountsAddUp(verdicts: seq<Verdict>)
    ensures VerdictCount(verdicts, Valid) + VerdictCount(verdicts, Nit) + VerdictCount(verdicts, Invalid)
            + VerdictCount(verdicts, Duplicate) + VerdictCount(verdicts, Unverifiable) == |verdicts|
  {
    if verdicts != [] { VerdictCountsAddUp(verdicts[1..]); }
  }

  /** The places of a verdict. */
  ghost function VerdictsThat(verdicts: seq<Verdict>, v: Verdict): set<nat> {
    set i: nat | i < |verdicts| && verdicts[i] == v
  }

  lemma {:induction false} VerdictCountIs(verdicts: seq<Verdict>, v: Verdict)
    ensures VerdictCount(verdicts, v) == |VerdictsThat(verdicts, v)|
  {
    var same := (x: Verdict) => x == v;
    assert VerdictsThat(verdicts, v) == Passing(same, verdicts);
    if verdicts != [] {
      VerdictCountIs(verdicts[1..], v);
      assert VerdictsThat(verdicts[1..], v) == Passing(same, verdicts[1..]);
      PassingHead(same, verdicts);
    }
  }

  lemma ThatSnoc(verdicts: seq<Verdict>, some: seq<Verdict>, more: seq<Verdict>, i: nat, v: Verdict)
    requires i < |verdicts| && |some| == i && |more| == i + 1
    requires forall j :: 0 <= j <= i ==> more[j] == verdicts[j] && (j < i ==> some[j] == verdicts[j])
    ensures |VerdictsThat(more, v)| == |VerdictsThat(some, v)| + if verdicts[i] == v then 1 else 0
  {
    CountOneMore(VerdictsThat(more, v), VerdictsThat(some, v), i, verdicts[i] == v);
  }

  lemma VerdictCountSnoc(verdicts: seq<Verdict>, i: nat, v: Verdict)
    requires i < |verdicts|
    ensures VerdictCount(verdicts[..i + 1], v) == VerdictCount(verdicts[..i], v) + if verdicts[i] == v then 1 else 0
  {
    VerdictCountIs(verdicts[..i + 1], v);
    VerdictCountIs(verdicts[..i], v);
    ThatSnoc(verdicts, verdicts[..i], verdicts[..i + 1], i, v);
  }

  ghost function PrecisionBlockOf(outcome: PrecisionOutcome, units: seq<nat>, matched: nat): PrecisionBlock
    requires outcome.Graded? ==> |outcome.verdicts| == |units|
  {
    match outcome
    case Graded(vs) =>
      PrecisionBlock(|units|, matched, VerdictCount(vs, Valid), VerdictCount(vs, Nit), VerdictCount(vs, Invalid),
                     VerdictCount(vs, Duplicate), VerdictCount(vs, Unverifiable), 0)
    case _ => PrecisionBlock(0, matched, 0, 0, 0, 0, 0, |units|)
  }

  /** Count the verdicts of one case; without any, every unit is a judge error. */
  method CountVerdicts(outcome: PrecisionOutcome, units: seq<nat>, matched: nat) returns (block: PrecisionBlock)
    requires outcome.Graded? ==> |outcome.verdicts| == |units|
    ensures block == PrecisionBlockOf(outcome, units, matched)
  {
    if !outcome.Graded? {
      return PrecisionBlock(0, matched, 0, 0, 0, 0, 0, |units|);
    }
    var verdicts := outcome.verdicts;
    var counts: map<Verdict, nat> := map[Valid := 0, Nit := 0, Invalid := 0, Duplicate := 0, Unverifiable := 0];
    forall v: Verdict ensures v in counts && counts[v] == VerdictCount(verdicts[..0], v) {
      assert v == Valid || v == Nit || v == Invalid || v == Duplicate || v == Unverifiable;
    }
    for i := 0 to |verdicts|
      invariant forall v :: v in counts && counts[v] == VerdictCount(verdicts[..i], v)
    {
      forall v
        ensures VerdictCount(verdicts[..i + 1], v)
             == VerdictCount(verdicts[..i], v) + if verdicts[i] == v then 1 else 0
      {
        VerdictCountSnoc(verdicts, i, v);
      }
      counts := counts[verdicts[i] := counts[verdicts[i]] + 1];
    }
    assert verdicts[..|verdicts|] == verdicts;
    VerdictCountsAddUp(verdicts);
    var graded := counts[Valid] + counts[Nit] + counts[Invalid] + counts[Duplicate] + counts[Unverifiable];
    block := PrecisionBlock(graded, matched, counts[Valid], counts[Nit], counts[Invalid], counts[Duplicate],
                            counts[Unverifiable], 0);
  }

  function Denominator(b: PrecisionBlock): nat {
    b.matched + b.valid + b.nit + b.invalid + b.duplicate
  }

  /** Strict and lenient precision, or nothing when nothing counts. */
  function Rates(b: PrecisionBlock): Option<(real, real)> {
    if Denominator(b) == 0 then None
    else Some(((b.matched + b.valid) as real / Denominator(b) as real,
               (b.matched + b.valid + b.nit) as real / Denominator(b) as real))
  }

  /** The two precisions: matched and valid findings, and with the nits, out of all that were matched or graded
      valid, nit, invalid or duplicate. */
  lemma RatesAre(b: PrecisionBlock)
    ensures var counted := b.matched + b.valid + b.nit + b.invalid + b.duplicate;
            if counted == 0 then Rates(b) == None
            else && Rates(b).Some?
                 && Rates(b).value.0 * counted as real == (b.matched + b.valid) as real
                 && Rates(b).value.1 * counted as real == (b.matched + b.valid + b.nit) as real
  {
    if Denominator(b) > 0 {
      Quotient((b.matched + b.valid) as real, Denominator(b) as real, Rates(b).value.0);
      Quotient((b.matched + b.valid + b.nit) as real, Denominator(b) as real, Rates(b).value.1);
    }
  }

  lemma RatesAreOrdered(b: PrecisionBlock)
    ensures Rates(b).None? <==> Denominator(b) == 0
    ensures Rates(b).Some? ==> 0.0 <= Rates(b).value.0 <= Rates(b).value.1 <= 1.0
  {
    if Denominator(b) > 0 {
      FractionBounds(b.matched + b.valid, Denominator(b));
      FractionBounds(b.matched + b.valid + b.nit, Denominator(b));
      FractionOrder(b.matched + b.valid, b.matched + b.valid + b.nit, Denominator(b));
    }
  }

  function PlusPrecision(a: PrecisionBlock, b: PrecisionBlock): PrecisionBlock {
    PrecisionBlock(a.graded + b.graded, a.matched + b.matched, a.valid + b.valid, a.nit + b.nit,
                   a.invalid + b.invalid, a.duplicate + b.duplicate, a.unverifiable + b.unverifiable,
                   a.judgeError + b.judgeError)
  }

  ghost function TotalPrecision(blocks: seq<PrecisionBlock>): PrecisionBlock {
    if blocks == [] then PrecisionBlock(0, 0, 0, 0, 0, 0, 0, 0)
    else PlusPrecision(blocks[0], TotalPrecision(blocks[1..]))
  }

  method Summarize(blocks: seq<PrecisionBlock>) returns (total: PrecisionBlock, rates: Option<(real, real)>)
    ensures total == TotalPrecision(blocks) && rates == Rates(total)
  {
    total := PrecisionBlock(0, 0, 0, 0, 0, 0, 0, 0);
    for i := 0 to |blocks|
      invariant PlusPrecision(total, TotalPrecision(blocks[i..])) == TotalPrecision(blocks)
    {
      assert blocks[i..][1..] == blocks[i + 1..];
      total := PlusPrecision(total, blocks[i]);
    }
    rates := Rates(total);
  }
}
