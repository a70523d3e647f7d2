/** What the metrics of a run count, label by label: every number of the headline, of the partitions and of
    the agreement is a number of labels, told from the labels, their grades and the findings alone. */
module RunCounts {
  import opened Prelude
  import opened Sorting
  import opened Grading
  import opened Scoring
  import opened RunScore

  // ---------------------------------------------------------------------------------
  // Counting labels
  // ---------------------------------------------------------------------------------

  /** A question about a label and its grade. */
  type Question = (Human, Grade) -> bool

  /** Label `k` of the case has a grade, and the answer is yes. */
  ghost predicate GradedSo(c: GradedCase, question: Question, k: nat)
    requires k < |c.expected|
  {
    exists g :: g in c.grades && g.humanId == c.expected[k].id && question(c.expected[k], g)
  }

  ghost function LabelsThat(c: GradedCase, question: Question): set<nat> {
    set k: nat | k < |c.expected| && GradedSo(c, question, k)
  }

  /** The labels of the cases, together. */
  ghost function CountLabels(cases: seq<GradedCase>, question: GradedCase -> Question): nat {
    if cases == [] then 0
    else
      var last := |cases| - 1;
      CountLabels(cases[..last], question) + |LabelsThat(cases[last], question(cases[last]))|
  }

  // ---------------------------------------------------------------------------------
  // ... as entries of the rows
  // ---------------------------------------------------------------------------------

  type EntryTest = Scored -> bool

  /** As many are filtered as there are places that pass. */
  lemma {:induction false} FilterSize<T>(p: T -> bool, s: seq<T>)
    ensures |Filter(p, s)| == |Passing(p, s)|
  {
    if s == [] {
      assert Passing(p, s) == {};
    } else {
      FilterSize(p, s[1..]);
      PassingHead(p, s);
    }
  }

  ghost function IndexOfLabel(expected: seq<Human>, h: Human): (k: nat)
    requires h in expected
    ensures k < |expected| && expected[k] == h
  {
    var k: nat :| k < |expected| && expected[k] == h; k
  }

  /** A test of entries asks what a question asks of the label and the grade behind the entry. */
  ghost predicate Asks(fold: string -> string, c: GradedCase, test: EntryTest, question: Question) {
    forall h, g :: GoodReference(c.findings, g) ==>
      (test(ScoredOf(fold, h, g, c.findings)) <==> question(h, g))
  }

  lemma EntryAsks(fold: string -> string, c: GradedCase, test: EntryTest, question: Question, j: nat)
    requires ValidCase(c) && Asks(fold, c, test, question) && j < |c.expected|
    ensures |EntriesOf(fold, c)| == |Sort(IdLe, c.expected)| == |c.expected|
    ensures Sort(IdLe, c.expected)[j] in c.expected
    ensures test(EntriesOf(fold, c)[j])
       <==> GradedSo(c, question, IndexOfLabel(c.expected, Sort(IdLe, c.expected)[j]))
  {
    var humans, byId := Sort(IdLe, c.expected), ById(c.grades);
    GradesCover(c);
    SortMembers(IdLe, c.expected);
    var h := humans[j];
    assert h in humans;
    var g := byId[h.id];
    assert EntriesOf(fold, c)[j] == ScoredOf(fold, h, g, c.findings);
    assert g in c.grades && g.humanId == h.id;
    forall g' | g' in c.grades && g'.humanId == h.id ensures g' == g {
      var i :| 0 <= i < |c.grades| && c.grades[i] == g';
      ByIdFinds(c.grades, i);
    }
  }

  /** For each entry of the row, where its label stands in the case. */
  ghost function LabelTable(c: GradedCase): (r: seq<nat>)
    ensures |r| == |c.expected|
    ensures forall j :: 0 <= j < |r| ==>
              Sort(IdLe, c.expected)[j] in c.expected
              && r[j] == IndexOfLabel(c.expected, Sort(IdLe, c.expected)[j])
  {
    SortMembers(IdLe, c.expected);
    var humans := Sort(IdLe, c.expected);
    assert forall j :: 0 <= j < |humans| ==> humans[j] in humans;
    seq(|humans|, j requires 0 <= j < |humans| => IndexOfLabel(c.expected, humans[j]))
  }

  lemma TableIsOneToOne(c: GradedCase)
    requires UniqueIds(c.expected)
    ensures Distinct(LabelTable(c)) && forall i: nat :: i < |c.expected| ==> i in LabelTable(c)
  {
    var humans, table := Sort(IdLe, c.expected), LabelTable(c);
    SortMembers(IdLe, c.expected);
    LabelsStayApart(c.expected);
    forall j, k | 0 <= j < k < |table| ensures table[j] != table[k] {
      assert humans[j] != humans[k];
    }
    forall i: nat | i < |c.expected| ensures i in table {
      assert c.expected[i] in humans;
      var j :| 0 <= j < |humans| && humans[j] == c.expected[i];
      assert table[j] == i;
    }
  }

  lemma PassingAreLabels(c: GradedCase, test: EntryTest, question: Question, entries: seq<Scored>, table: seq<nat>)
    requires |entries| == |table| && Distinct(table)
    requires forall j :: 0 <= j < |table| ==>
               table[j] < |c.expected| && (test(entries[j]) <==> GradedSo(c, question, table[j]))
    requires forall i: nat :: i < |c.expected| ==> i in table
    ensures |Passing(test, entries)| == |LabelsThat(c, question)|
  {
    var passing, labels := Passing(test, entries), LabelsThat(c, question);
    forall i | i in labels ensures exists j :: j in passing && table[j] == i {
      assert i in table;
      var j: nat :| j < |table| && table[j] == i;
      assert j in passing;
    }
    ImageSize(passing, labels, table);
  }

  /** The entries of a row that pass a test are the labels with a yes. */
  lemma EntriesCount(fold: string -> string, c: GradedCase, test: EntryTest, question: Question)
    requires ValidCase(c) && Asks(fold, c, test, question)
    ensures |Filter(test, EntriesOf(fold, c))| == |LabelsThat(c, question)|
  {
    var entries, table := EntriesOf(fold, c), LabelTable(c);
    EntriesLength(fold, c);
    TableIsOneToOne(c);
    forall j: nat | j < |entries|
      ensures table[j] < |c.expected| && (test(entries[j]) <==> GradedSo(c, question, table[j]))
    {
      EntryAsks(fold, c, test, question, j);
    }
    FilterSize(test, entries);
    PassingAreLabels(c, test, question, entries, table);
  }

  lemma EntriesLength(fold: string -> string, c: GradedCase)
    requires ValidCase(c)
    ensures |EntriesOf(fold, c)| == |c.expected|
  {
    GradesCover(c);
  }

  lemma LabelsStayApart(expected: seq<Human>)
    requires UniqueIds(expected)
    ensures Distinct(Sort(IdLe, expected)) && Distinct(expected)
  {
    assert Distinct(expected);
    SortMultiset(IdLe, expected);
    SameMultisetDistinct(expected, Sort(IdLe, expected));
  }

  // ---------------------------------------------------------------------------------
  // Over the rows of a run
  // ---------------------------------------------------------------------------------

  ghost function PassingIn(test: EntryTest): CaseRow -> nat {
    (row: CaseRow) => |Filter(test, row.entries)|
  }

  lemma {:induction false} AllEntriesFilter(test: EntryTest, rows: seq<CaseRow>)
    ensures |Filter(test, AllEntries(rows))| == SumRows(rows, PassingIn(test))
  {
    if rows != [] {
      AllEntriesFilter(test, rows[1..]);
      FilterConcat(test, rows[0].entries, AllEntries(rows[1..]));
    }
  }

  /** A test that asks the same question of every case. */
  ghost predicate AsksAll(fold: string -> string, cases: seq<GradedCase>, test: EntryTest,
                          question: GradedCase -> Question)
  {
    forall c :: c in cases ==> Asks(fold, c, test, question(c))
  }

  lemma {:induction false} RowsOfCount(fold: string -> string, cases: seq<GradedCase>, test: EntryTest,
                                       question: GradedCase -> Question)
    requires ValidCases(cases) && AsksAll(fold, cases, test, question)
    ensures SumRows(RowsOf(fold, cases), PassingIn(test)) == CountLabels(cases, question)
  {
    if cases != [] {
      var last := |cases| - 1;
      assert forall c :: c in cases[..last] ==> c in cases;
      RowsOfCount(fold, cases[..last], test, question);
      assert cases[last] in cases;
      EntriesCount(fold, cases[last], test, question(cases[last]));
      SumRowsSnoc(RowsOf(fold, cases[..last]), RowOf(fold, cases[last]), PassingIn(test));
    }
  }

  /** The entries of a run that pass a test are the labels of its cases with a yes. */
  lemma RunCount(fold: string -> string, cases: seq<GradedCase>, test: EntryTest, question: GradedCase -> Question)
    requires ValidCases(cases) && AsksAll(fold, cases, test, question)
    ensures |Filter(test, AllEntries(Rows(fold, cases)))| == CountLabels(cases, question)
  {
    AllEntriesFilter(test, Rows(fold, cases));
    SortMultiset(RowLe, RowsOf(fold, cases));
    SumRowsPermute(Rows(fold, cases), RowsOf(fold, cases), PassingIn(test));
    RowsOfCount(fold, cases, test, question);
  }

  // ---------------------------------------------------------------------------------
  // The blocks
  // ---------------------------------------------------------------------------------

  ghost function WithValue(which: Human -> bool, value: GradeValue): GradedCase -> Question {
    (c: GradedCase) => (h: Human, g: Grade) => which(h) && g.value == value
  }

  /** The counts of a block are the numbers of its labels with each grade, and a full grade counts two halves
      of credit, a partial one one. */
  ghost predicate CountsLabels(cases: seq<GradedCase>, which: Human -> bool, block: Block) {
    && block.full == CountLabels(cases, WithValue(which, Full))
    && block.partial == CountLabels(cases, WithValue(which, Partial))
    && block.none == CountLabels(cases, WithValue(which, NoMatch))
    && block.judgeError == CountLabels(cases, WithValue(which, JudgeError))
    && block.halves == 2 * block.full + block.partial
  }

  /** A test that looks at the label of an entry alone. */
  ghost predicate OnLabel(fold: string -> string, test: EntryTest, which: Human -> bool) {
    forall h, g, findings :: GoodReference(findings, g) ==> (test(ScoredOf(fold, h, g, findings)) <==> which(h))
  }

  ghost function AndValue(test: EntryTest, value: GradeValue): EntryTest {
    (e: Scored) => test(e) && e.grade == value
  }

  lemma {:induction false} CountWhere(test: EntryTest, entries: seq<Scored>, value: GradeValue)
    ensures CountOf(Filter(test, entries), value) == |Filter(AndValue(test, value), entries)|
  {
    if entries != [] {
      CountWhere(test, entries[1..], value);
      if test(entries[0]) {
        assert ([entries[0]] + Filter(test, entries[1..]))[1..] == Filter(test, entries[1..]);
      }
    }
  }

  lemma ValueCounts(fold: string -> string, cases: seq<GradedCase>, test: EntryTest, which: Human -> bool,
                    value: GradeValue)
    requires ValidCases(cases) && OnLabel(fold, test, which)
    ensures CountOf(Filter(test, AllEntries(Rows(fold, cases))), value) == CountLabels(cases, WithValue(which, value))
  {
    CountWhere(test, AllEntries(Rows(fold, cases)), value);
    RunCount(fold, cases, AndValue(test, value), WithValue(which, value));
  }

  lemma BlockCounts(fold: string -> string, cases: seq<GradedCase>, test: EntryTest, which: Human -> bool)
    requires ValidCases(cases) && OnLabel(fold, test, which)
    ensures CountsLabels(cases, which, BlockOf(Filter(test, AllEntries(Rows(fold, cases)))))
  {
    ValueCounts(fold, cases, test, which, Full);
    ValueCounts(fold, cases, test, which, Partial);
    ValueCounts(fold, cases, test, which, NoMatch);
    ValueCounts(fold, cases, test, which, JudgeError);
  }

  ghost function AnyLabel(): Human -> bool {
    (h: Human) => true
  }

  ghost function AcceptedLabel(): Human -> bool {
    (h: Human) => h.accepted == Some(true)
  }

  /** The name a severity or category goes by in the tables: as given, and "(none)" when it is missing or
      folds to nothing. */
  ghost function NameOf(fold: string -> string, value: Option<string>): string {
    if value == None || fold(value.value) == "" then "(none)" else value.value
  }

  ghost function OfSeverity(fold: string -> string, name: string): Human -> bool {
    (h: Human) => NameOf(fold, h.severity) == name
  }

  ghost function OfCategory(fold: string -> string, name: string): Human -> bool {
    (h: Human) => NameOf(fold, h.category) == name
  }

  ghost function HasName(key: Labelling, name: string): EntryTest {
    (e: Scored) => key(e) == name
  }

  ghost function IsAccepted(): EntryTest {
    (e: Scored) => e.accepted == Some(true)
  }

  ghost function AnyEntry(): EntryTest {
    (e: Scored) => true
  }

  lemma {:induction false} SameAsFiltered(entries: seq<Scored>, key: Labelling, name: string)
    ensures WithLabel(entries, key, name) == Filter(HasName(key, name), entries)
    ensures Accepted(entries) == Filter(IsAccepted(), entries)
    ensures entries == Filter(AnyEntry(), entries)
  {
    if entries != [] {
      SameAsFiltered(entries[1..], key, name);
      assert entries == [entries[0]] + entries[1..];
    }
  }

  lemma AllCounts(fold: string -> string, cases: seq<GradedCase>)
    requires ValidCases(cases)
    ensures CountsLabels(cases, AnyLabel(), BlockOf(AllEntries(Rows(fold, cases))))
    ensures CountsLabels(cases, AcceptedLabel(), BlockOf(Accepted(AllEntries(Rows(fold, cases)))))
  {
    SameAsFiltered(AllEntries(Rows(fold, cases)), SeverityLabel(fold), "");
    BlockCounts(fold, cases, AnyEntry(), AnyLabel());
    BlockCounts(fold, cases, IsAccepted(), AcceptedLabel());
  }

  lemma SeverityCounts(fold: string -> string, cases: seq<GradedCase>, name: string)
    requires ValidCases(cases)
    ensures CountsLabels(cases, OfSeverity(fold, name),
                         BlockOf(WithLabel(AllEntries(Rows(fold, cases)), SeverityLabel(fold), name)))
  {
    SameAsFiltered(AllEntries(Rows(fold, cases)), SeverityLabel(fold), name);
    BlockCounts(fold, cases, HasName(SeverityLabel(fold), name), OfSeverity(fold, name));
  }

  lemma CategoryCounts(fold: string -> string, cases: seq<GradedCase>, name: string)
    requires ValidCases(cases)
    ensures CountsLabels(cases, OfCategory(fold, name),
                         BlockOf(WithLabel(AllEntries(Rows(fold, cases)), CategoryLabel(fold), name)))
  {
    SameAsFiltered(AllEntries(Rows(fold, cases)), CategoryLabel(fold), name);
    BlockCounts(fold, cases, HasName(CategoryLabel(fold), name), OfCategory(fold, name));
  }

  /** Each block of a table counts the labels of its name. */
  ghost predicate TableCounts(cases: seq<GradedCase>, groups: seq<(string, Block)>, of: string -> (Human -> bool)) {
    forall i :: 0 <= i < |groups| ==> CountsLabels(cases, of(groups[i].0), groups[i].1)
  }

  lemma SeverityTable(fold: string -> string, cases: seq<GradedCase>, groups: seq<(string, Block)>)
    requires ValidCases(cases) && IsPartition(groups, AllEntries(Rows(fold, cases)), SeverityLabel(fold))
    ensures TableCounts(cases, groups, name => OfSeverity(fold, name))
  {
    forall i | 0 <= i < |groups| ensures CountsLabels(cases, OfSeverity(fold, groups[i].0), groups[i].1) {
      SeverityCounts(fold, cases, groups[i].0);
    }
  }

  lemma CategoryTable(fold: string -> string, cases: seq<GradedCase>, groups: seq<(string, Block)>)
    requires ValidCases(cases) && IsPartition(groups, AllEntries(Rows(fold, cases)), CategoryLabel(fold))
    ensures TableCounts(cases, groups, name => OfCategory(fold, name))
  {
    forall i | 0 <= i < |groups| ensures CountsLabels(cases, OfCategory(fold, groups[i].0), groups[i].1) {
      CategoryCounts(fold, cases, groups[i].0);
    }
  }

  // ---------------------------------------------------------------------------------
  // Severity agreement
  // ---------------------------------------------------------------------------------

  /** The severity of the finding a grade names. */
  ghost function NamedSeverity(c: GradedCase, g: Grade): Option<string> {
    if g.aiRef.Some? && g.aiRef.value < |c.findings| then c.findings[g.aiRef.value].severity else None
  }

  /** Full or partial credit, and the two severities read the same. */
  ghost function Agreeing(fold: string -> string): GradedCase -> Question {
    (c: GradedCase) => (h: Human, g: Grade) =>
      g.value in {Full, Partial} && ReadSeverity(fold, h.severity) == ReadSeverity(fold, NamedSeverity(c, g))
  }

  ghost function Credited(): GradedCase -> Question {
    (c: GradedCase) => (h: Human, g: Grade) => g.value in {Full, Partial}
  }

  ghost function Paired(fold: string -> string, human: string, ai: string): GradedCase -> Question {
    (c: GradedCase) => (h: Human, g: Grade) =>
      && g.value in {Full, Partial}
      && CellName(fold, h.severity) == human && CellName(fold, NamedSeverity(c, g)) == ai
  }

  /** Full or partial credit, and one severity is missing while the other reads "(none)". */
  ghost function TakenForMissing(fold: string -> string): GradedCase -> Question {
    (c: GradedCase) => (h: Human, g: Grade) =>
      && g.value in {Full, Partial}
      && {ReadSeverity(fold, h.severity), ReadSeverity(fold, NamedSeverity(c, g))} == {"", "(none)"}
  }

  ghost function Agrees(): EntryTest {
    (e: Scored) => e.agrees == Some(true)
  }

  ghost function IsCompared(): EntryTest {
    (e: Scored) => e.agrees.Some?
  }

  ghost function InPair(fold: string -> string, human: string, ai: string): EntryTest {
    (e: Scored) => e.agrees.Some? && CellName(fold, e.severity) == human && CellName(fold, e.aiSeverity) == ai
  }

  ghost function SharesName(fold: string -> string): EntryTest {
    (e: Scored) => e.agrees.Some? && CellName(fold, e.severity) == CellName(fold, e.aiSeverity)
  }

  ghost function LooksMissing(fold: string -> string): EntryTest {
    (e: Scored) => e.agrees == Some(false) && CellName(fold, e.severity) == CellName(fold, e.aiSeverity)
  }

  lemma {:induction false} AgreementFilters(fold: string -> string, entries: seq<Scored>, human: string, ai: string)
    ensures Compared(entries) == |Filter(IsCompared(), entries)| && Agreed(entries) == |Filter(Agrees(), entries)|
    ensures InCell(fold, entries, human, ai) == |Filter(InPair(fold, human, ai), entries)|
    ensures OnDiagonal(fold, entries) == |Filter(SharesName(fold), entries)|
  {
    if entries != [] {
      AgreementFilters(fold, entries[1..], human, ai);
    }
  }

  lemma YesOrNo(agrees: Option<bool>)
    ensures agrees == None || agrees == Some(true) || agrees == Some(false)
  {
    if agrees.Some? {
      if agrees.value { assert agrees == Some(true); } else { assert agrees == Some(false); }
    }
  }

  lemma {:induction false} DiagonalSplits(fold: string -> string, entries: seq<Scored>)
    requires forall e :: e in entries && e.agrees == Some(true) ==>
               CellName(fold, e.severity) == CellName(fold, e.aiSeverity)
    ensures OnDiagonal(fold, entries) == Agreed(entries) + |Filter(LooksMissing(fold), entries)|
  {
    if entries != [] {
      assert entries[0] in entries && forall e :: e in entries[1..] ==> e in entries;
      DiagonalSplits(fold, entries[1..]);
      YesOrNo(entries[0].agrees);
    }
  }

  lemma AgreeingEntriesShareNames(fold: string -> string, cases: seq<GradedCase>)
    requires ValidCases(cases)
    ensures forall e :: e in AllEntries(Rows(fold, cases)) && e.agrees == Some(true) ==>
              CellName(fold, e.severity) == CellName(fold, e.aiSeverity)
  {
    forall e | e in AllEntries(Rows(fold, cases)) && e.agrees == Some(true)
      ensures CellName(fold, e.severity) == CellName(fold, e.aiSeverity)
    {
      var row := RowWith(Rows(fold, cases), e);
      SortMembers(RowLe, RowsOf(fold, cases));
      EntryIsScored(fold, cases, row, e);
    }
  }

  lemma {:induction false} RowWith(rows: seq<CaseRow>, e: Scored) returns (row: CaseRow)
    requires e in AllEntries(rows)
    ensures row in rows && e in row.entries
  {
    if e in rows[0].entries {
      row := rows[0];
    } else {
      row := RowWith(rows[1..], e);
    }
  }

  lemma {:induction false} EntryIsScored(fold: string -> string, cases: seq<GradedCase>, row: CaseRow, e: Scored)
    requires ValidCases(cases) && row in RowsOf(fold, cases) && e in row.entries
    ensures e.agrees == Some(true) ==> ReadSeverity(fold, e.severity) == ReadSeverity(fold, e.aiSeverity)
  {
    var last := |cases| - 1;
    if row in RowsOf(fold, cases[..last]) {
      EntryIsScored(fold, cases[..last], row, e);
    } else {
      CaseEntryIsScored(fold, cases[last], e);
    }
  }

  lemma CaseEntryIsScored(fold: string -> string, c: GradedCase, e: Scored)
    requires ValidCase(c) && e in EntriesOf(fold, c)
    ensures e.agrees == Some(true) ==> ReadSeverity(fold, e.severity) == ReadSeverity(fold, e.aiSeverity)
  {
    GradesCover(c);
    var j :| 0 <= j < |EntriesOf(fold, c)| && EntriesOf(fold, c)[j] == e;
    var h := Sort(IdLe, c.expected)[j];
    ScoredAgrees(fold, h, ById(c.grades)[h.id], c.findings);
  }

  /** The comparison of one entry, told from the label, its grade and the finding it names. */
  lemma ScoredAgrees(fold: string -> string, h: Human, g: Grade, findings: seq<Finding>)
    requires GoodReference(findings, g)
    ensures var e := ScoredOf(fold, h, g, findings);
            && (e.agrees.Some? <==> g.value in {Full, Partial}) && e.severity == h.severity
            && (e.agrees.Some? ==> g.aiRef.Some? && g.aiRef.value < |findings|
                                   && e.aiSeverity == findings[g.aiRef.value].severity)
            && (e.agrees == Some(true) <==>
                  e.agrees.Some? && ReadSeverity(fold, h.severity) == ReadSeverity(fold, e.aiSeverity))
  {
    YesOrNo(ScoredOf(fold, h, g, findings).agrees);
  }

  lemma ComparedCount(fold: string -> string, cases: seq<GradedCase>)
    requires ValidCases(cases)
    ensures |Filter(IsCompared(), AllEntries(Rows(fold, cases)))| == CountLabels(cases, Credited())
  {
    forall c | c in cases ensures Asks(fold, c, IsCompared(), Credited()(c)) {
      forall h, g | GoodReference(c.findings, g)
        ensures IsCompared()(ScoredOf(fold, h, g, c.findings)) <==> Credited()(c)(h, g)
      {
        ScoredAgrees(fold, h, g, c.findings);
      }
    }
    RunCount(fold, cases, IsCompared(), Credited());
  }

  lemma AgreedCount(fold: string -> string, cases: seq<GradedCase>)
    requires ValidCases(cases)
    ensures |Filter(Agrees(), AllEntries(Rows(fold, cases)))| == CountLabels(cases, Agreeing(fold))
  {
    forall c | c in cases ensures Asks(fold, c, Agrees(), Agreeing(fold)(c)) {
      forall h, g | GoodReference(c.findings, g)
        ensures Agrees()(ScoredOf(fold, h, g, c.findings)) <==> Agreeing(fold)(c)(h, g)
      {
        ScoredAgrees(fold, h, g, c.findings);
      }
    }
    RunCount(fold, cases, Agrees(), Agreeing(fold));
  }

  lemma PairCount(fold: string -> string, cases: seq<GradedCase>, human: string, ai: string)
    requires ValidCases(cases)
    ensures |Filter(InPair(fold, human, ai), AllEntries(Rows(fold, cases)))|
         == CountLabels(cases, Paired(fold, human, ai))
  {
    forall c | c in cases ensures Asks(fold, c, InPair(fold, human, ai), Paired(fold, human, ai)(c)) {
      forall h, g | GoodReference(c.findings, g)
        ensures InPair(fold, human, ai)(ScoredOf(fold, h, g, c.findings)) <==> Paired(fold, human, ai)(c)(h, g)
      {
        ScoredAgrees(fold, h, g, c.findings);
      }
    }
    RunCount(fold, cases, InPair(fold, human, ai), Paired(fold, human, ai));
  }

  lemma MissingCount(fold: string -> string, cases: seq<GradedCase>)
    requires ValidCases(cases)
    ensures |Filter(LooksMissing(fold), AllEntries(Rows(fold, cases)))| == CountLabels(cases, TakenForMissing(fold))
  {
    forall c | c in cases ensures Asks(fold, c, LooksMissing(fold), TakenForMissing(fold)(c)) {
      MissingAsks(fold, c);
    }
    RunCount(fold, cases, LooksMissing(fold), TakenForMissing(fold));
  }

  lemma MissingAsks(fold: string -> string, c: GradedCase)
    ensures Asks(fold, c, LooksMissing(fold), TakenForMissing(fold)(c))
  {
    forall h, g | GoodReference(c.findings, g)
      ensures LooksMissing(fold)(ScoredOf(fold, h, g, c.findings)) <==> TakenForMissing(fold)(c)(h, g)
    {
      ScoredAgrees(fold, h, g, c.findings);
    }
  }

  lemma ComparedCounts(fold: string -> string, cases: seq<GradedCase>)
    requires ValidCases(cases)
    ensures var entries := AllEntries(Rows(fold, cases));
            Compared(entries) == CountLabels(cases, Credited()) && Agreed(entries) == CountLabels(cases, Agreeing(fold))
  {
    AgreementFilters(fold, AllEntries(Rows(fold, cases)), "", "");
    ComparedCount(fold, cases);
    AgreedCount(fold, cases);
  }

  lemma DiagonalCounts(fold: string -> string, cases: seq<GradedCase>)
    requires ValidCases(cases)
    ensures var entries := AllEntries(Rows(fold, cases));
            OnDiagonal(fold, entries) == Agreed(entries) + CountLabels(cases, TakenForMissing(fold))
  {
    AgreeingEntriesShareNames(fold, cases);
    DiagonalSplits(fold, AllEntries(Rows(fold, cases)));
    MissingCount(fold, cases);
  }

  lemma ComparedIsCompared(fold: string -> string, cases: seq<GradedCase>)
    requires ValidCases(cases)
    ensures var rows := Rows(fold, cases);
            && SumRows(rows, ComparedOf) == Compared(AllEntries(rows))
            && SumRows(rows, AgreedOf) == Agreed(AllEntries(rows))
  {
    RowsAreGood(fold, cases);
    ComparedSums(Rows(fold, cases));
  }

  /** What the metrics of a run count.  The headline, the accepted table and every block of a partition count
      their labels by grade.  Severity is compared at the credited labels and agrees at those whose severity
      reads as that of the finding credited; each cell of the table counts its pair.  The diagonal of the table
      is the agreement and the labels where one severity is missing and the other reads "(none)". */
  lemma MetricsCountLabels(fold: string -> string, cases: seq<GradedCase>, m: Metrics)
    requires ValidCases(cases) && MetricsOf(fold, Rows(fold, cases), m)
    ensures CountsLabels(cases, AnyLabel(), m.recall) && CountsLabels(cases, AcceptedLabel(), m.accepted)
    ensures TableCounts(cases, m.bySeverity, name => OfSeverity(fold, name))
    ensures TableCounts(cases, m.byCategory, name => OfCategory(fold, name))
    ensures m.compared == CountLabels(cases, Credited()) && m.agreed == CountLabels(cases, Agreeing(fold))
    ensures forall human, ai :: CellOf(m.confusion, human, ai) == CountLabels(cases, Paired(fold, human, ai))
    ensures DiagonalTotal(m.confusion) == m.agreed + CountLabels(cases, TakenForMissing(fold))
  {
    AllCounts(fold, cases);
    SeverityTable(fold, cases, m.bySeverity);
    CategoryTable(fold, cases, m.byCategory);
    ComparedCounts(fold, cases);
    ComparedIsCompared(fold, cases);
    DiagonalCounts(fold, cases);
    forall human, ai ensures CellOf(m.confusion, human, ai) == CountLabels(cases, Paired(fold, human, ai)) {
      AgreementFilters(fold, AllEntries(Rows(fold, cases)), human, ai);
      PairCount(fold, cases, human, ai);
    }
  }

  // ---------------------------------------------------------------------------------
  // Findings
  // ---------------------------------------------------------------------------------

  /** The findings of a case that passed every gate. */
  ghost function ActiveFindings(c: GradedCase): set<nat> {
    set r: nat | r < |c.findings| && c.findings[r].dropReason == None
  }

  ghost predicate NamedByCredit(c: GradedCase, r: nat) {
    exists g :: g in c.grades && g.value in {Full, Partial} && g.aiRef == Some(r)
  }

  /** ... which some full or partial grade names, and which none does. */
  ghost function MatchedFindings(c: GradedCase): set<nat> {
    set r | r in ActiveFindings(c) && NamedByCredit(c, r)
  }

  ghost function UnmatchedFindings(c: GradedCase): set<nat> {
    set r | r in ActiveFindings(c) && !NamedByCredit(c, r)
  }

  lemma {:induction false} DistinctSize(s: seq<nat>, members: set<nat>)
    requires forall a, b :: 0 <= a < b < |s| ==> s[a] < s[b]
    requires forall r :: r in s <==> r in members
    ensures |s| == |members|
  {
    if s == [] {
      assert members == {};
    } else {
      assert s == [s[0]] + s[1..];
      forall r ensures r in s[1..] <==> r in members - {s[0]} {
        assert r in s <==> r == s[0] || r in s[1..];
      }
      assert s[0] in s;
      DistinctSize(s[1..], members - {s[0]});
    }
  }

  lemma CreditedRefsAre(c: GradedCase, r: nat)
    ensures r in CreditedRefs(c.grades) <==> NamedByCredit(c, r)
  {
    if g :| g in c.grades && g.value in {Full, Partial} && g.aiRef == Some(r) {
      var i :| 0 <= i < |c.grades| && c.grades[i] == g;
    }
  }

  lemma UnitIndexesSize(c: GradedCase)
    ensures |UnitIndexes(c.findings, CreditedRefs(c.grades))| == |UnmatchedFindings(c)|
  {
    UnitIndexesMembers(c.findings, CreditedRefs(c.grades), 0);
    forall r: nat ensures r in UnitIndexes(c.findings, CreditedRefs(c.grades)) <==> r in UnmatchedFindings(c) {
      CreditedRefsAre(c, r);
    }
    DistinctSize(UnitIndexes(c.findings, CreditedRefs(c.grades)), UnmatchedFindings(c));
  }

  lemma CreditedAreMatched(c: GradedCase)
    requires ValidCase(c)
    ensures CreditedRefs(c.grades) == MatchedFindings(c)
  {
    forall r: nat ensures r in CreditedRefs(c.grades) <==> r in MatchedFindings(c) {
      CreditedRefsAre(c, r);
    }
  }

  /** The row of a case counts its findings, and those a credit names and names not. */
  lemma RowCountsFindings(fold: string -> string, c: GradedCase)
    requires ValidCase(c)
    ensures RowOf(fold, c).aiFindings == |ActiveFindings(c)|
    ensures RowOf(fold, c).unmatched == |UnmatchedFindings(c)| && |CreditedRefs(c.grades)| == |MatchedFindings(c)|
  {
    RowConserves(fold, c);
    UnitIndexesSize(c);
    CreditedAreMatched(c);
    assert ActiveFindings(c) == MatchedFindings(c) + UnmatchedFindings(c);
  }

  ghost function CountFindings(cases: seq<GradedCase>, which: GradedCase -> set<nat>): nat {
    if cases == [] then 0
    else
      var last := |cases| - 1;
      CountFindings(cases[..last], which) + |which(cases[last])|
  }

  lemma {:induction false} RowsCountFindings(fold: string -> string, cases: seq<GradedCase>)
    requires ValidCases(cases)
    ensures SumRows(RowsOf(fold, cases), FindingsOf) == CountFindings(cases, ActiveFindings)
    ensures SumRows(RowsOf(fold, cases), UnmatchedOf) == CountFindings(cases, UnmatchedFindings)
  {
    if cases != [] {
      var last := |cases| - 1;
      var row := RowOf(fold, cases[last]);
      RowsCountFindings(fold, cases[..last]);
      RowCountsFindings(fold, cases[last]);
      SumRowsSnoc(RowsOf(fold, cases[..last]), row, FindingsOf);
      SumRowsSnoc(RowsOf(fold, cases[..last]), row, UnmatchedOf);
    }
  }

  lemma {:induction false} CountsNoneIff(cases: seq<GradedCase>, question: GradedCase -> Question)
    ensures CountLabels(cases, question) == 0 <==> NoLabelThat(cases, question)
  {
    if cases != [] {
      CountsNoneIff(cases[..|cases| - 1], question);
      NoLabelSnoc(cases, question);
    }
  }

  ghost predicate NoLabelThat(cases: seq<GradedCase>, question: GradedCase -> Question) {
    forall c :: c in cases ==> LabelsThat(c, question(c)) == {}
  }

  lemma NoLabelSnoc(cases: seq<GradedCase>, question: GradedCase -> Question)
    requires cases != []
    ensures var last := |cases| - 1;
            NoLabelThat(cases, question)
            <==> NoLabelThat(cases[..last], question) && LabelsThat(cases[last], question(cases[last])) == {}
  {
    var last := |cases| - 1;
    assert cases == cases[..last] + [cases[last]];
  }

  /** So the diagonal of the table is the agreement exactly when no credited label has one severity missing and
      the other reading "(none)". */
  lemma DiagonalIsAgreementIff(fold: string -> string, cases: seq<GradedCase>, m: Metrics)
    requires ValidCases(cases) && MetricsOf(fold, Rows(fold, cases), m)
    ensures DiagonalTotal(m.confusion) == m.agreed <==> NoLabelThat(cases, TakenForMissing(fold))
  {
    MetricsCountLabels(fold, cases, m);
    CountsNoneIff(cases, TakenForMissing(fold));
  }

  /** One label that reads "(none)", credited at a finding without a severity. */
  ghost function NoneAtMissing(id: string, h: Human, f: Finding): GradedCase {
    GradedCase(id, [h], [f], [Grade(h.id, Full, Some(0), h.line)])
  }

  lemma NoneAtMissingIsValid(id: string, h: Human, f: Finding)
    requires f.dropReason == None
    ensures ValidCases([NoneAtMissing(id, h, f)])
  {
    var c := NoneAtMissing(id, h, f);
    LoneGradeIsValid(h, f, c.grades[0]);
    assert [c][..0] == [];
  }

  lemma LoneGradeIsValid(h: Human, f: Finding, g: Grade)
    requires f.dropReason == None && g.humanId == h.id && g.aiRef == Some(0)
    ensures ValidGrades([h], [f], [g])
  {
    assert [h][0] in [h] && HasLabel([h], g.humanId);
    assert [g][0] == g && GoodReference([f], g);
  }

  /** Such a label is compared and does not agree, and still stands on the diagonal. */
  lemma NoneAtMissingLooksAgreed(fold: string -> string, id: string, h: Human, f: Finding, m: Metrics)
    requires h.severity == Some("(none)") && fold("(none)") == "(none)" && f.severity == None
    requires ValidCases([NoneAtMissing(id, h, f)]) && MetricsOf(fold, Rows(fold, [NoneAtMissing(id, h, f)]), m)
    ensures m.compared == 1 && m.agreed == 0 && DiagonalTotal(m.confusion) == 1
  {
    MetricsCountLabels(fold, [NoneAtMissing(id, h, f)], m);
    NoneAtMissingCounts(fold, id, h, f);
  }

  lemma NoneAtMissingCounts(fold: string -> string, id: string, h: Human, f: Finding)
    requires h.severity == Some("(none)") && fold("(none)") == "(none)" && f.severity == None
    ensures var cases := [NoneAtMissing(id, h, f)];
            && CountLabels(cases, Credited()) == 1 && CountLabels(cases, Agreeing(fold)) == 0
            && CountLabels(cases, TakenForMissing(fold)) == 1
  {
    var c := NoneAtMissing(id, h, f);
    LoneCount(c, Credited());
    LoneCount(c, Agreeing(fold));
    LoneCount(c, TakenForMissing(fold));
    NoneAtMissingLabel(id, h, f, Credited()(c));
    NoneAtMissingLabel(id, h, f, Agreeing(fold)(c));
    NoneAtMissingLabel(id, h, f, TakenForMissing(fold)(c));
  }

  lemma NoneAtMissingLabel(id: string, h: Human, f: Finding, question: Question)
    ensures |LabelsThat(NoneAtMissing(id, h, f), question)|
         == if question(h, Grade(h.id, Full, Some(0), h.line)) then 1 else 0
  {
    var c := NoneAtMissing(id, h, f);
    assert c.grades[0] in c.grades && c.expected[0] == h;
    assert LabelsThat(c, question) == if question(h, c.grades[0]) then {0} else {};
  }

  lemma LoneCount(c: GradedCase, question: GradedCase -> Question)
    ensures CountLabels([c], question) == |LabelsThat(c, question(c))|
  {
    assert [c][..0] == [] && CountLabels([], question) == 0;
  }

  /** The metrics of a run count the active findings, and those that no credit names. */
  lemma MetricsCountFindings(fold: string -> string, cases: seq<GradedCase>, m: Metrics)
    requires ValidCases(cases) && MetricsOf(fold, Rows(fold, cases), m)
    ensures m.aiFindings == CountFindings(cases, ActiveFindings)
    ensures m.unmatched == CountFindings(cases, UnmatchedFindings)
  {
    RowsCountFindings(fold, cases);
    SortMultiset(RowLe, RowsOf(fold, cases));
    SumRowsPermute(Rows(fold, cases), RowsOf(fold, cases), FindingsOf);
    SumRowsPermute(Rows(fold, cases), RowsOf(fold, cases), UnmatchedOf);
  }

  // ---------------------------------------------------------------------------------
  // The precision pass
  // ---------------------------------------------------------------------------------

  /** How often the precision pass came to verdict `v`. */
  ghost function CountVerdict(outcomes: seq<PrecisionOutcome>, v: Verdict): nat {
    if outcomes == [] then 0
    else
      var last := |outcomes| - 1;
      CountVerdict(outcomes[..last], v)
      + if outcomes[last].Graded? then |VerdictsThat(outcomes[last].verdicts, v)| else 0
  }

  /** The unmatched findings of the cases that were graded, or of those that were not. */
  ghost function CountUnmatched(cases: seq<GradedCase>, outcomes: seq<PrecisionOutcome>, graded: bool): nat
    requires |cases| == |outcomes|
  {
    if cases == [] then 0
    else
      var last := |cases| - 1;
      CountUnmatched(cases[..last], outcomes[..last], graded)
      + if outcomes[last].Graded? == graded then |UnmatchedFindings(cases[last])| else 0
  }

  lemma CaseBlockCounts(fold: string -> string, c: GradedCase, outcome: PrecisionOutcome)
    requires ValidCase(c) && OutcomeFits(c, outcome)
    ensures CaseBlock(c, outcome)
         == if outcome.Graded? then
              PrecisionBlock(|UnmatchedFindings(c)|, |MatchedFindings(c)|,
                |VerdictsThat(outcome.verdicts, Valid)|, |VerdictsThat(outcome.verdicts, Nit)|,
                |VerdictsThat(outcome.verdicts, Invalid)|, |VerdictsThat(outcome.verdicts, Duplicate)|,
                |VerdictsThat(outcome.verdicts, Unverifiable)|, 0)
            else PrecisionBlock(0, |MatchedFindings(c)|, 0, 0, 0, 0, 0, |UnmatchedFindings(c)|)
  {
    RowCountsFindings(fold, c);
    UnitIndexesSize(c);
    if outcome.Graded? {
      VerdictCountIs(outcome.verdicts, Valid);
      VerdictCountIs(outcome.verdicts, Nit);
      VerdictCountIs(outcome.verdicts, Invalid);
      VerdictCountIs(outcome.verdicts, Duplicate);
      VerdictCountIs(outcome.verdicts, Unverifiable);
    }
  }

  /** What there is to count: each verdict as often as it was given, the matched findings, and the unmatched ones
      as graded where the case was, and else as judge errors. */
  ghost function VerdictCounts(cases: seq<GradedCase>, outcomes: seq<PrecisionOutcome>): PrecisionBlock
    requires |cases| == |outcomes|
  {
    PrecisionBlock(CountUnmatched(cases, outcomes, true), CountFindings(cases, MatchedFindings),
      CountVerdict(outcomes, Valid), CountVerdict(outcomes, Nit), CountVerdict(outcomes, Invalid),
      CountVerdict(outcomes, Duplicate), CountVerdict(outcomes, Unverifiable),
      CountUnmatched(cases, outcomes, false))
  }

  lemma VerdictCountsSnoc(fold: string -> string, cases: seq<GradedCase>, outcomes: seq<PrecisionOutcome>)
    requires cases != [] && |cases| == |outcomes|
    requires ValidCase(cases[|cases| - 1]) && OutcomeFits(cases[|cases| - 1], outcomes[|cases| - 1])
    ensures var last := |cases| - 1;
            VerdictCounts(cases, outcomes)
            == PlusPrecision(VerdictCounts(cases[..last], outcomes[..last]), CaseBlock(cases[last], outcomes[last]))
  {
    CaseBlockCounts(fold, cases[|cases| - 1], outcomes[|cases| - 1]);
  }

  /** What the precision pass counts over a run: each verdict as often as it was given, the matched findings,
      and the unmatched ones as graded where the case was, and else as judge errors. */
  lemma {:induction false} PrecisionCounts(fold: string -> string, cases: seq<GradedCase>,
                                           outcomes: seq<PrecisionOutcome>)
    requires ValidCases(cases) && OutcomesFit(cases, outcomes)
    ensures TotalPrecision(PrecisionBlocks(cases, outcomes)) == VerdictCounts(cases, outcomes)
    decreases |cases|
  {
    if cases != [] {
      var last := |cases| - 1;
      PrecisionCounts(fold, cases[..last], outcomes[..last]);
      assert OutcomeFits(cases[last], outcomes[last]);
      VerdictCountsSnoc(fold, cases, outcomes);
      TotalSnoc(PrecisionBlocks(cases[..last], outcomes[..last]), CaseBlock(cases[last], outcomes[last]));
    }
  }

  // ---------------------------------------------------------------------------------
  // The rows
  // ---------------------------------------------------------------------------------

  /** What an entry of a row tells of its label, the grade of the label and the finding the grade names. */
  ghost predicate Tells(fold: string -> string, c: GradedCase, e: Scored, h: Human, g: Grade) {
    && e.humanId == h.id == g.humanId && e.file == h.file && e.line == h.line && e.severity == h.severity
    && e.category == h.category && e.accepted == h.accepted && e.grade == g.value
    && if g.value in {Full, Partial} then
         && g.aiRef.Some? && g.aiRef.value < |c.findings|
         && e.aiRef == g.aiRef && e.aiLine == g.aiLine && e.aiSeverity == c.findings[g.aiRef.value].severity
         && e.agrees == Some(ReadSeverity(fold, h.severity) == ReadSeverity(fold, e.aiSeverity))
       else e.aiRef == None && e.aiLine == None && e.aiSeverity == None && e.agrees == None
  }

  ghost predicate TellsOne(fold: string -> string, c: GradedCase, e: Scored) {
    exists h, g :: h in c.expected && g in c.grades && Tells(fold, c, e, h, g)
  }

  /** The row of a case has one entry per label, by id, and each entry tells of its label and grade. */
  lemma RowTells(fold: string -> string, c: GradedCase)
    requires ValidCase(c)
    ensures var row := RowOf(fold, c);
            && row.caseId == c.caseId && |row.entries| == |c.expected|
            && (forall e :: e in row.entries ==> TellsOne(fold, c, e))
            && (forall i, j :: 0 <= i < j < |row.entries| ==>
                  EarlierText(row.entries[i].humanId, row.entries[j].humanId))
  {
    var humans, entries := Sort(IdLe, c.expected), EntriesOf(fold, c);
    EntriesLength(fold, c);
    forall e | e in entries ensures TellsOne(fold, c, e) {
      EntryTells(fold, c, e);
    }
    forall i, j | 0 <= i < j < |entries| ensures EarlierText(entries[i].humanId, entries[j].humanId) {
      EntriesInOrder(fold, c, i, j);
    }
  }

  lemma EntryTells(fold: string -> string, c: GradedCase, e: Scored)
    requires ValidCase(c) && e in EntriesOf(fold, c)
    ensures TellsOne(fold, c, e)
  {
    GradesCover(c);
    SortMembers(IdLe, c.expected);
    var j :| 0 <= j < |EntriesOf(fold, c)| && EntriesOf(fold, c)[j] == e;
    var h := Sort(IdLe, c.expected)[j];
    assert h in Sort(IdLe, c.expected);
    ScoredTells(fold, c, h, ById(c.grades)[h.id]);
  }

  lemma ScoredTells(fold: string -> string, c: GradedCase, h: Human, g: Grade)
    requires GoodReference(c.findings, g) && g.humanId == h.id
    ensures Tells(fold, c, ScoredOf(fold, h, g, c.findings), h, g)
  {
  }

  lemma EntriesInOrder(fold: string -> string, c: GradedCase, i: nat, j: nat)
    requires ValidCase(c) && i < j < |EntriesOf(fold, c)|
    ensures EarlierText(EntriesOf(fold, c)[i].humanId, EntriesOf(fold, c)[j].humanId)
  {
    var humans := Sort(IdLe, c.expected);
    GradesCover(c);
    IdLeIsTotal();
    SortSorted(IdLe, c.expected);
    LabelsStayApart(c.expected);
    SortMembers(IdLe, c.expected);
    assert humans[i] in humans && humans[j] in humans && humans[i] != humans[j];
    SameIdSameLabel(c.expected, humans[i], humans[j]);
    EarlierTextIff(humans[i].id, humans[j].id);
  }

  lemma SameIdSameLabel(expected: seq<Human>, a: Human, b: Human)
    requires UniqueIds(expected) && a in expected && b in expected
    ensures a.id == b.id ==> a == b
  {
    var i :| 0 <= i < |expected| && expected[i] == a;
    var j :| 0 <= j < |expected| && expected[j] == b;
  }

  lemma IdLeIsTotal()
    ensures TotalPreorder(IdLe) && TotalPreorder(RowLe)
  {
    StringOrder();
  }

  /** The rows of a run are those of its cases, by case id. */
  lemma RowsInOrder(fold: string -> string, cases: seq<GradedCase>)
    requires ValidCases(cases) && UniqueCases(cases)
    ensures |Rows(fold, cases)| == |cases|
    ensures forall i :: 0 <= i < |cases| ==> ValidCase(cases[i]) && RowOf(fold, cases[i]) in Rows(fold, cases)
    ensures forall i, j :: 0 <= i < j < |Rows(fold, cases)| ==>
              !EarlierText(Rows(fold, cases)[j].caseId, Rows(fold, cases)[i].caseId)
  {
    var rows := Rows(fold, cases);
    IdLeIsTotal();
    SortSorted(RowLe, RowsOf(fold, cases));
    SortMembers(RowLe, RowsOf(fold, cases));
    RowsOfLength(fold, cases);
    forall i | 0 <= i < |cases| ensures ValidCase(cases[i]) && RowOf(fold, cases[i]) in rows {
      RowOfCase(fold, cases, i);
    }
    forall i, j | 0 <= i < j < |rows| ensures !EarlierText(rows[j].caseId, rows[i].caseId) {
      assert RowLe(rows[i], rows[j]);
      EarlierTextIff(rows[j].caseId, rows[i].caseId);
      StringOrder();
    }
  }

  lemma {:induction false} RowsOfLength(fold: string -> string, cases: seq<GradedCase>)
    requires ValidCases(cases)
    ensures |RowsOf(fold, cases)| == |cases|
  {
    if cases != [] {
      RowsOfLength(fold, cases[..|cases| - 1]);
    }
  }

  lemma {:induction false} RowOfCase(fold: string -> string, cases: seq<GradedCase>, i: nat)
    requires ValidCases(cases) && i < |cases|
    ensures ValidCase(cases[i]) && RowOf(fold, cases[i]) in RowsOf(fold, cases)
    decreases |cases|
  {
    var last := |cases| - 1;
    if i < last {
      RowOfCase(fold, cases[..last], i);
      assert cases[..last][i] == cases[i];
    }
  }
}
