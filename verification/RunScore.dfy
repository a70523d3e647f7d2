/** The metrics of a whole run: the cases are scored and summed, and nothing is lost between the tables. */
module RunScore {
  import opened Prelude
  import opened Sorting
  import opened Grading
  import opened Scoring

  datatype CasesError = BadCase(caseId: string, problem: ScoreError) | DuplicateCase

  datatype Metrics = Metrics(
    caseCount: nat, recall: Block, bySeverity: seq<(string, Block)>, byCategory: seq<(string, Block)>,
    accepted: Block, unmatched: nat, aiFindings: nat, compared: nat, agreed: nat, confusion: Confusion)

  // ---------------------------------------------------------------------------------
  // Sums over the rows
  // ---------------------------------------------------------------------------------

  function AllEntries(rows: seq<CaseRow>): seq<Scored> {
    if rows == [] then [] else rows[0].entries + AllEntries(rows[1..])
  }

  function SumRows(rows: seq<CaseRow>, count: CaseRow -> nat): nat {
    if rows == [] then 0 else count(rows[0]) + SumRows(rows[1..], count)
  }

  function UnmatchedOf(row: CaseRow): nat {
    row.unmatched
  }

  function FindingsOf(row: CaseRow): nat {
    row.aiFindings
  }

  function ComparedOf(row: CaseRow): nat {
    row.compared
  }

  function AgreedOf(row: CaseRow): nat {
    row.agreed
  }

  ghost function SumBlocks(rows: seq<CaseRow>): Block {
    if rows == [] then Block(0, 0, 0, 0, 0) else Plus(rows[0].block, SumBlocks(rows[1..]))
  }

  /** The blocks of a partition, summed. */
  ghost function SumGroups(groups: seq<(string, Block)>): Block {
    if groups == [] then Block(0, 0, 0, 0, 0) else Plus(groups[0].1, SumGroups(groups[1..]))
  }

  lemma {:induction false} SumRowsConcat(a: seq<CaseRow>, b: seq<CaseRow>, count: CaseRow -> nat)
    ensures SumRows(a + b, count) == SumRows(a, count) + SumRows(b, count)
  {
    if a == [] {
      assert a + b == b;
    } else {
      assert (a + b)[1..] == a[1..] + b;
      SumRowsConcat(a[1..], b, count);
    }
  }

  /** A sum does not depend on the order of the rows. */
  lemma {:induction false} SumRowsPermute(a: seq<CaseRow>, b: seq<CaseRow>, count: CaseRow -> nat)
    requires multiset(a) == multiset(b)
    ensures SumRows(a, count) == SumRows(b, count)
  {
    if a == [] {
      assert |multiset(b)| == 0;
    } else {
      var j := PullOut(a, b);
      var before, after := b[..j], b[j + 1..];
      SumRowsPermute(a[1..], before + after, count);
      SumRowsConcat(before, after, count);
      SumRowsConcat(before, [a[0]] + after, count);
      assert ([a[0]] + after)[1..] == after;
    }
  }

  // ---------------------------------------------------------------------------------
  // The rows of a run
  // ---------------------------------------------------------------------------------

  /** Every case has valid grades. */
  ghost predicate ValidCases(cases: seq<GradedCase>) {
    cases == [] || (ValidCases(cases[..|cases| - 1]) && ValidCase(cases[|cases| - 1]))
  }

  predicate UniqueCases(cases: seq<GradedCase>) {
    forall i, j :: 0 <= i < j < |cases| ==> cases[i].caseId != cases[j].caseId
  }

  predicate RowLe(a: CaseRow, b: CaseRow) {
    StringLe(a.caseId, b.caseId)
  }

  ghost function RowsOf(fold: string -> string, cases: seq<GradedCase>): (r: seq<CaseRow>)
    requires ValidCases(cases)
  {
    if cases == [] then []
    else RowsOf(fold, cases[..|cases| - 1]) + [RowOf(fold, cases[|cases| - 1])]
  }

  /** The rows of the score, by case id. */
  ghost function Rows(fold: string -> string, cases: seq<GradedCase>): seq<CaseRow>
    requires ValidCases(cases)
  {
    Sort(RowLe, RowsOf(fold, cases))
  }

  /** A row whose block and agreement are those of its entries. */
  ghost predicate GoodRow(row: CaseRow) {
    && row.block == BlockOf(row.entries)
    && row.compared == Compared(row.entries) && row.agreed == Agreed(row.entries)
    && Compared(row.entries) == row.block.full + row.block.partial && Agreed(row.entries) <= Compared(row.entries)
  }

  lemma {:induction false} RowsOfAreGood(fold: string -> string, cases: seq<GradedCase>)
    requires ValidCases(cases)
    ensures forall row :: row in RowsOf(fold, cases) ==> GoodRow(row)
  {
    if cases != [] {
      RowsOfAreGood(fold, cases[..|cases| - 1]);
      EntriesSplit(fold, cases[|cases| - 1]);
    }
  }

  lemma RowsAreGood(fold: string -> string, cases: seq<GradedCase>)
    requires ValidCases(cases)
    ensures forall row :: row in Rows(fold, cases) ==> GoodRow(row)
  {
    SortMembers(RowLe, RowsOf(fold, cases));
    RowsOfAreGood(fold, cases);
  }

  lemma {:induction false} BlocksSumToHeadline(rows: seq<CaseRow>)
    requires forall row :: row in rows ==> GoodRow(row)
    ensures SumBlocks(rows) == BlockOf(AllEntries(rows))
  {
    if rows != [] {
      assert GoodRow(rows[0]);
      BlocksSumToHeadline(rows[1..]);
      BlockConcat(rows[0].entries, AllEntries(rows[1..]));
    }
  }

  lemma {:induction false} ComparedConcat(a: seq<Scored>, b: seq<Scored>)
    ensures Compared(a + b) == Compared(a) + Compared(b) && Agreed(a + b) == Agreed(a) + Agreed(b)
  {
    if a == [] {
      assert a + b == b;
    } else {
      assert (a + b)[1..] == a[1..] + b;
      ComparedConcat(a[1..], b);
    }
  }

  lemma {:induction false} ComparedSums(rows: seq<CaseRow>)
    requires forall row :: row in rows ==> GoodRow(row)
    ensures var entries := AllEntries(rows);
            && Compared(entries) == SumBlocks(rows).full + SumBlocks(rows).partial == SumRows(rows, ComparedOf)
            && Agreed(entries) == SumRows(rows, AgreedOf) <= Compared(entries)
  {
    if rows != [] {
      assert GoodRow(rows[0]);
      ComparedSums(rows[1..]);
      ComparedConcat(rows[0].entries, AllEntries(rows[1..]));
    }
  }

  // ---------------------------------------------------------------------------------
  // The metrics
  // ---------------------------------------------------------------------------------

  /** A label as given, or the mark of a missing one; `fold` leaves nothing of a blank one. */
  function LabelOf(fold: string -> string, value: Option<string>): string {
    if value.Some? && fold(value.value) != "" then value.value else MISSING_LABEL
  }

  function SeverityLabel(fold: string -> string): Labelling {
    (e: Scored) => LabelOf(fold, e.severity)
  }

  function CategoryLabel(fold: string -> string): Labelling {
    (e: Scored) => LabelOf(fold, e.category)
  }

  function Accepted(entries: seq<Scored>): seq<Scored> {
    if entries == [] then []
    else if entries[0].accepted == Some(true) then [entries[0]] + Accepted(entries[1..])
    else Accepted(entries[1..])
  }

  ghost predicate IsPartition(groups: seq<(string, Block)>, entries: seq<Scored>, key: Labelling) {
    && |groups| == |Labels(entries, key)|
    && forall i :: 0 <= i < |groups| ==> groups[i] == BlockAt(entries, key, Labels(entries, key)[i])
  }

  lemma {:induction false} GroupsSum(groups: seq<(string, Block)>, entries: seq<Scored>, key: Labelling,
                                     names: seq<string>)
    requires |groups| == |names| && forall i :: 0 <= i < |groups| ==> groups[i] == BlockAt(entries, key, names[i])
    ensures SumGroups(groups) == SumOver(entries, key, names)
    decreases |names|
  {
    if names != [] {
      GroupsSum(groups[1..], entries, key, names[1..]);
    }
  }

  lemma PartitionSums(groups: seq<(string, Block)>, entries: seq<Scored>, key: Labelling)
    requires IsPartition(groups, entries, key)
    ensures SumGroups(groups) == BlockOf(entries)
  {
    GroupsSum(groups, entries, key, Labels(entries, key));
    PartitionSumsToHeadline(entries, key);
  }

  /** The metrics of the rows: every table is a sum of the rows, and the tables agree. */
  ghost predicate MetricsOf(fold: string -> string, rows: seq<CaseRow>, m: Metrics) {
    var entries := AllEntries(rows);
    && m.caseCount == |rows|
    && m.recall == BlockOf(entries) == SumBlocks(rows)
    && IsPartition(m.bySeverity, entries, SeverityLabel(fold)) && SumGroups(m.bySeverity) == m.recall
    && IsPartition(m.byCategory, entries, CategoryLabel(fold)) && SumGroups(m.byCategory) == m.recall
    && m.accepted == BlockOf(Accepted(entries))
    && m.unmatched == SumRows(rows, UnmatchedOf) && m.aiFindings == SumRows(rows, FindingsOf)
    && m.compared == m.recall.full + m.recall.partial == SumRows(rows, ComparedOf)
    && m.agreed == SumRows(rows, AgreedOf) <= m.compared
    && CellTotal(m.confusion) == m.compared && DiagonalTotal(m.confusion) == OnDiagonal(fold, entries)
    && forall human, ai :: CellOf(m.confusion, human, ai) == InCell(fold, entries, human, ai)
  }

  method Measure(fold: string -> string, rows: seq<CaseRow>) returns (m: Metrics)
    requires forall row :: row in rows ==> GoodRow(row)
    ensures MetricsOf(fold, rows, m)
  {
    var entries := AllEntries(rows);
    var recall := RecallBlock(entries);
    var bySeverity := Grouped(entries, SeverityLabel(fold));
    var byCategory := Grouped(entries, CategoryLabel(fold));
    var accepted := RecallBlock(Accepted(entries));
    var compared, agreed, confusion := AgreementBlock(fold, entries);
    BlocksSumToHeadline(rows);
    ComparedSums(rows);
    PartitionSums(bySeverity, entries, SeverityLabel(fold));
    PartitionSums(byCategory, entries, CategoryLabel(fold));
    m := Metrics(|rows|, recall, bySeverity, byCategory, accepted, SumRows(rows, UnmatchedOf),
                 SumRows(rows, FindingsOf), compared, agreed, confusion);
  }

  lemma RowsSnoc(fold: string -> string, cases: seq<GradedCase>, i: nat)
    requires i < |cases| && ValidCases(cases[..i]) && ValidCase(cases[i])
    ensures ValidCases(cases[..i + 1])
    ensures RowsOf(fold, cases[..i + 1]) == RowsOf(fold, cases[..i]) + [RowOf(fold, cases[i])]
  {
    assert cases[..i + 1][..i] == cases[..i];
  }

  lemma {:induction false} BadCaseShows(cases: seq<GradedCase>, i: nat)
    requires i < |cases| && !ValidCase(cases[i])
    ensures !ValidCases(cases)
    decreases |cases|
  {
    if i < |cases| - 1 {
      BadCaseShows(cases[..|cases| - 1], i);
    }
  }

  method ScoreRows(fold: string -> string, cases: seq<GradedCase>) returns (r: Result<seq<CaseRow>, CasesError>)
    ensures r.Ok? <==> ValidCases(cases)
    ensures r.Ok? ==> r.value == RowsOf(fold, cases)
  {
    var rows: seq<CaseRow> := [];
    for i := 0 to |cases|
      invariant ValidCases(cases[..i]) && rows == RowsOf(fold, cases[..i])
    {
      var row := ScoreCase(fold, cases[i]);
      if row.Err? {
        BadCaseShows(cases, i);
        return Err(BadCase(cases[i].caseId, row.error));
      }
      RowsSnoc(fold, cases, i);
      rows := rows + [row.value];
    }
    assert cases[..|cases|] == cases;
    r := Ok(rows);
  }

  /** Score the cases of a run: refused exactly when a case has bad grades or two share an id; otherwise one
      row per case, by id, and metrics that sum them. */
  method ScoreCases(fold: string -> string, cases: seq<GradedCase>)
    returns (r: Result<(Metrics, seq<CaseRow>), CasesError>)
    ensures r.Ok? <==> ValidCases(cases) && UniqueCases(cases)
    ensures r.Ok? ==> r.value.1 == Rows(fold, cases) && MetricsOf(fold, r.value.1, r.value.0)
  {
    var scored := ScoreRows(fold, cases);
    if scored.Err? {
      return Err(scored.error);
    }
    if !UniqueCases(cases) {
      return Err(DuplicateCase);
    }
    var rows := Sort(RowLe, scored.value);
    RowsAreGood(fold, cases);
    var m := Measure(fold, rows);
    r := Ok((m, rows));
  }

  // ---------------------------------------------------------------------------------
  // With the precision pass
  // ---------------------------------------------------------------------------------

  /** What the precision pass came to for one case: as many verdicts as unmatched findings, if it was graded. */
  ghost predicate OutcomeFits(c: GradedCase, outcome: PrecisionOutcome) {
    outcome.Graded? ==> |outcome.verdicts| == |UnitIndexes(c.findings, CreditedRefs(c.grades))|
  }

  ghost predicate OutcomesFit(cases: seq<GradedCase>, outcomes: seq<PrecisionOutcome>) {
    |outcomes| == |cases| && forall i :: 0 <= i < |cases| ==> OutcomeFits(cases[i], outcomes[i])
  }

  ghost function CaseBlock(c: GradedCase, outcome: PrecisionOutcome): PrecisionBlock
    requires OutcomeFits(c, outcome)
  {
    var credited := CreditedRefs(c.grades);
    PrecisionBlockOf(outcome, UnitIndexes(c.findings, credited), |credited|)
  }

  ghost function PrecisionBlocks(cases: seq<GradedCase>, outcomes: seq<PrecisionOutcome>): seq<PrecisionBlock>
    requires OutcomesFit(cases, outcomes)
  {
    if cases == [] then []
    else
      var last := |cases| - 1;
      PrecisionBlocks(cases[..last], outcomes[..last]) + [CaseBlock(cases[last], outcomes[last])]
  }

  lemma {:induction false} TotalSnoc(blocks: seq<PrecisionBlock>, b: PrecisionBlock)
    ensures TotalPrecision(blocks + [b]) == PlusPrecision(TotalPrecision(blocks), b)
  {
    if blocks != [] {
      assert (blocks + [b])[1..] == blocks[1..] + [b];
      TotalSnoc(blocks[1..], b);
    }
  }

  lemma SumRowsSnoc(rows: seq<CaseRow>, row: CaseRow, count: CaseRow -> nat)
    ensures SumRows(rows + [row], count) == SumRows(rows, count) + count(row)
  {
    SumRowsConcat(rows, [row], count);
    assert [row][1..] == [];
  }

  lemma CaseBlockConserves(fold: string -> string, c: GradedCase, outcome: PrecisionOutcome)
    requires ValidCase(c) && OutcomeFits(c, outcome)
    ensures var p, row := CaseBlock(c, outcome), RowOf(fold, c);
            && p.graded + p.judgeError == row.unmatched
            && p.matched + row.unmatched == row.aiFindings
            && p.graded == p.valid + p.nit + p.invalid + p.duplicate + p.unverifiable
  {
    RowConserves(fold, c);
    if outcome.Graded? {
      VerdictCountsAddUp(outcome.verdicts);
    }
  }

  lemma {:induction false} PrecisionConserves(fold: string -> string, cases: seq<GradedCase>,
                                              outcomes: seq<PrecisionOutcome>)
    requires ValidCases(cases) && OutcomesFit(cases, outcomes)
    ensures var p, rows := TotalPrecision(PrecisionBlocks(cases, outcomes)), RowsOf(fold, cases);
            && p.graded + p.judgeError == SumRows(rows, UnmatchedOf)
            && p.matched + SumRows(rows, UnmatchedOf) == SumRows(rows, FindingsOf)
            && p.graded == p.valid + p.nit + p.invalid + p.duplicate + p.unverifiable
    decreases |cases|
  {
    if cases != [] {
      var last := |cases| - 1;
      var row := RowOf(fold, cases[last]);
      PrecisionConserves(fold, cases[..last], outcomes[..last]);
      CaseBlockConserves(fold, cases[last], outcomes[last]);
      TotalSnoc(PrecisionBlocks(cases[..last], outcomes[..last]), CaseBlock(cases[last], outcomes[last]));
      SumRowsSnoc(RowsOf(fold, cases[..last]), row, UnmatchedOf);
      SumRowsSnoc(RowsOf(fold, cases[..last]), row, FindingsOf);
    }
  }

  /** Nothing is lost between the tables of a run: the findings the precision pass graded or failed on are the
      unmatched ones of the metrics, and with the matched ones they are all active findings. */
  lemma RunConserves(fold: string -> string, cases: seq<GradedCase>, outcomes: seq<PrecisionOutcome>, m: Metrics)
    requires ValidCases(cases) && OutcomesFit(cases, outcomes) && MetricsOf(fold, Rows(fold, cases), m)
    ensures var p := TotalPrecision(PrecisionBlocks(cases, outcomes));
            && p.graded + p.judgeError == m.unmatched
            && p.matched + p.graded + p.judgeError == m.aiFindings
            && p.graded == p.valid + p.nit + p.invalid + p.duplicate + p.unverifiable
  {
    PrecisionConserves(fold, cases, outcomes);
    SortMultiset(RowLe, RowsOf(fold, cases));
    SumRowsPermute(Rows(fold, cases), RowsOf(fold, cases), UnmatchedOf);
    SumRowsPermute(Rows(fold, cases), RowsOf(fold, cases), FindingsOf);
  }
}
