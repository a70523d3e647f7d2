/** From the two grading tiers to the score: when the grades of a case are accepted by the scorer. */
module CaseScore {
  import opened Prelude
  import opened Sorting
  import opened Grading
  import opened MatchCase
  import opened MatchOrder
  import opened InputOrder
  import opened JudgeTier
  import Scoring

  /** The grades of the labels, in label order. */
  function GradesInOrder(expected: seq<Human>, grades: Grades): (r: seq<Grade>)
    requires Covers(grades, expected)
    ensures |r| == |expected|
    ensures forall i :: 0 <= i < |r| ==> expected[i] in expected && r[i] == grades[expected[i].id]
  {
    seq(|expected|, i requires 0 <= i < |expected| => assert expected[i] in expected; grades[expected[i].id])
  }

  /** The case as both tiers hand it to the scorer. */
  function CaseOf(m: Matcher, caseId: string, expected: seq<Human>, tolerance: int, findings: seq<Finding>,
                  outcome: JudgeOutcome): Scoring.GradedCase
    requires UniqueIds(expected)
    requires ValidOutcome(outcome, Judged(expected), NumberedRows(JudgeRows(findings)))
  {
    Scoring.GradedCase(caseId, expected, findings,
                       GradesInOrder(expected, GradeCase(m, expected, tolerance, findings, outcome)))
  }

  // ---------------------------------------------------------------------------------
  // What a grade of either tier names
  // ---------------------------------------------------------------------------------

  /** The grade is the label's own, and a credit names a finding that is active or dropped for no reason. */
  ghost predicate OwnGrade(h: Human, g: Grade, findings: seq<Finding>) {
    && g.humanId == h.id
    && (CreditedValue(g.value) ==>
          && g.aiRef.Some? && g.aiRef.value < |findings|
          && (findings[g.aiRef.value].dropReason.None? || findings[g.aiRef.value].dropReason == Some("")))
  }

  ghost predicate RowFrom(row: Row, findings: seq<Finding>) {
    row.origin < |findings| && row.finding.dropReason == findings[row.origin].dropReason
  }

  lemma RowsOfComeFrom(f: Finding, index: nat, findings: seq<Finding>, row: Row)
    requires index < |findings| && findings[index] == f && row in RowsOf(f, index)
    ensures RowFrom(row, findings)
  {
    var k :| 0 <= k < |RowsOf(f, index)| && RowsOf(f, index)[k] == row;
  }

  lemma {:induction false} JudgeRowComesFrom(findings: seq<Finding>, row: Row)
    requires row in JudgeRows(findings)
    ensures RowFrom(row, findings)
  {
    var last := |findings| - 1;
    if row in JudgeRows(findings[..last]) {
      JudgeRowComesFrom(findings[..last], row);
    } else {
      RowsOfComeFrom(findings[last], last, findings, row);
    }
  }

  lemma {:induction false} NumberedRowsMembers(rows: seq<Row>, row: Row)
    requires row in NumberedRows(rows)
    ensures row in rows && Numbered(row.finding)
  {
    if row in NumberedRows(rows[..|rows| - 1]) {
      NumberedRowsMembers(rows[..|rows| - 1], row);
    }
  }

  lemma ReadGradeIsOwn(rows: seq<Row>, findings: seq<Finding>, g: JudgeGrade, h: Human)
    requires Validated(g, h, rows)
    requires g.aiRef.Some? ==>
               RowFrom(rows[g.aiRef.value - 1], findings) && Numbered(rows[g.aiRef.value - 1].finding)
    ensures OwnGrade(h, ReadJudgeGrade(g, rows), findings)
  {
  }

  lemma JudgeGradeIsOwn(findings: seq<Finding>, rows: seq<Row>, g: JudgeGrade, h: Human)
    requires rows == NumberedRows(JudgeRows(findings)) && Validated(g, h, rows)
    ensures OwnGrade(h, ReadJudgeGrade(g, rows), findings)
  {
    if g.aiRef.Some? {
      var row := rows[g.aiRef.value - 1];
      assert row in rows;
      NumberedRowsMembers(JudgeRows(findings), row);
      JudgeRowComesFrom(findings, row);
    }
    ReadGradeIsOwn(rows, findings, g, h);
  }

  lemma SecondTierIsOwn(judged: seq<Human>, findings: seq<Finding>, outcome: JudgeOutcome, i: nat)
    requires ValidOutcome(outcome, judged, NumberedRows(JudgeRows(findings))) && i < |judged|
    ensures OwnGrade(judged[i], JudgeGrades(judged, outcome, NumberedRows(JudgeRows(findings)))[i], findings)
  {
    if outcome.Replied? {
      JudgeGradeIsOwn(findings, NumberedRows(JudgeRows(findings)), outcome.grades[i], judged[i]);
    }
  }

  /** A label of the first tier is credited at an active finding. */
  lemma FirstTierIsOwn(m: Matcher, expected: seq<Human>, tolerance: int, findings: seq<Finding>, grades: Grades,
                       h: Human)
    requires HoldsMatchGrades(m, expected, tolerance, findings, grades) && h in Graded(expected)
    ensures h.id in grades && grades[h.id].humanId == h.id
    ensures Scoring.GoodReference(findings, grades[h.id])
  {
    var i :| 0 <= i < |Graded(expected)| && Graded(expected)[i] == h;
    assert grades[h.id] == MatchGrades(m, expected, tolerance, findings)[i];
    FirstTierNamesUnit(m, expected, tolerance, findings, grades, h);
    if CreditedValue(grades[h.id].value) {
      NamedUnitIsActive(h, grades[h.id], findings);
    }
  }

  lemma JudgedGradeIsOwn(m: Matcher, expected: seq<Human>, tolerance: int, findings: seq<Finding>,
                         outcome: JudgeOutcome, i: nat)
    requires UniqueIds(expected) && i < |Judged(expected)|
    requires ValidOutcome(outcome, Judged(expected), NumberedRows(JudgeRows(findings)))
    ensures Judged(expected)[i].id in GradeCase(m, expected, tolerance, findings, outcome)
    ensures OwnGrade(Judged(expected)[i],
                     GradeCase(m, expected, tolerance, findings, outcome)[Judged(expected)[i].id], findings)
  {
    SettledOrSame(m, expected, tolerance, findings, outcome, i);
    SecondTierIsOwn(Judged(expected), findings, outcome, i);
  }

  lemma MatchedGradeIsOwn(m: Matcher, expected: seq<Human>, tolerance: int, findings: seq<Finding>,
                          outcome: JudgeOutcome, h: Human)
    requires UniqueIds(expected) && h in Graded(expected)
    requires ValidOutcome(outcome, Judged(expected), NumberedRows(JudgeRows(findings)))
    ensures h.id in GradeCase(m, expected, tolerance, findings, outcome)
    ensures OwnGrade(h, GradeCase(m, expected, tolerance, findings, outcome)[h.id], findings)
  {
    GradeCaseKeepsCap(m, expected, tolerance, findings, outcome);
    FirstTierIsOwn(m, expected, tolerance, findings, GradeCase(m, expected, tolerance, findings, outcome), h);
  }

  lemma CaseGradeIsOwn(m: Matcher, expected: seq<Human>, tolerance: int, findings: seq<Finding>,
                       outcome: JudgeOutcome, h: Human)
    requires UniqueIds(expected) && h in expected
    requires ValidOutcome(outcome, Judged(expected), NumberedRows(JudgeRows(findings)))
    ensures OwnGrade(h, GradeCase(m, expected, tolerance, findings, outcome)[h.id], findings)
  {
    if h.mustMatch != "" {
      GradedMembers(expected);
      MatchedGradeIsOwn(m, expected, tolerance, findings, outcome, h);
    } else {
      var i := JudgedAt(expected, h);
      JudgedGradeIsOwn(m, expected, tolerance, findings, outcome, i);
    }
  }

  // ---------------------------------------------------------------------------------
  // Accepted by the scorer
  // ---------------------------------------------------------------------------------

  /** A label ends with a credit at a finding dropped for an empty reason. */
  ghost predicate CreditsEmptyDrop(expected: seq<Human>, findings: seq<Finding>, grades: Grades)
    requires Covers(grades, expected)
  {
    exists h :: h in expected && AtEmptyDrop(findings, grades[h.id])
  }

  ghost predicate AtEmptyDrop(findings: seq<Finding>, g: Grade) {
    && CreditedValue(g.value) && g.aiRef.Some? && g.aiRef.value < |findings|
    && findings[g.aiRef.value].dropReason == Some("")
  }

  lemma OwnGradesAreValidIff(expected: seq<Human>, findings: seq<Finding>, grades: Grades)
    requires UniqueIds(expected) && Covers(grades, expected)
    requires forall h :: h in expected ==> OwnGrade(h, grades[h.id], findings)
    ensures Scoring.ValidGrades(expected, findings, GradesInOrder(expected, grades))
       <==> !CreditsEmptyDrop(expected, findings, grades)
  {
    var list := GradesInOrder(expected, grades);
    forall i | 0 <= i < |list|
      ensures list[i].humanId == expected[i].id && Scoring.HasLabel(expected, list[i].humanId)
      ensures Scoring.GoodReference(findings, list[i]) <==> !AtEmptyDrop(findings, list[i])
    {
      assert expected[i] in expected && OwnGrade(expected[i], list[i], findings);
    }
    forall h | h in expected ensures exists i :: 0 <= i < |list| && list[i].humanId == h.id {
      var i :| 0 <= i < |expected| && expected[i] == h;
      assert list[i].humanId == h.id;
    }
    if CreditsEmptyDrop(expected, findings, grades) {
      var h :| h in expected && AtEmptyDrop(findings, grades[h.id]);
      var i :| 0 <= i < |expected| && expected[i] == h;
      assert AtEmptyDrop(findings, list[i]);
    }
  }

  /** The scorer accepts the grades of a case exactly when no label ends credited at a finding dropped for an
      empty reason, which the judge numbers and the scorer counts as dropped. */
  lemma CaseIsAcceptedIff(m: Matcher, caseId: string, expected: seq<Human>, tolerance: int, findings: seq<Finding>,
                          outcome: JudgeOutcome)
    requires UniqueIds(expected)
    requires ValidOutcome(outcome, Judged(expected), NumberedRows(JudgeRows(findings)))
    ensures Scoring.ValidCase(CaseOf(m, caseId, expected, tolerance, findings, outcome))
       <==> !CreditsEmptyDrop(expected, findings, GradeCase(m, expected, tolerance, findings, outcome))
  {
    var grades := GradeCase(m, expected, tolerance, findings, outcome);
    forall h | h in expected ensures OwnGrade(h, grades[h.id], findings) {
      CaseGradeIsOwn(m, expected, tolerance, findings, outcome, h);
    }
    OwnGradesAreValidIff(expected, findings, grades);
  }

  /** So it accepts whatever the judge replies when no drop reason is empty. */
  lemma NoEmptyDropIsAccepted(m: Matcher, caseId: string, expected: seq<Human>, tolerance: int,
                              findings: seq<Finding>, outcome: JudgeOutcome)
    requires UniqueIds(expected) && forall f :: f in findings ==> f.dropReason != Some("")
    requires ValidOutcome(outcome, Judged(expected), NumberedRows(JudgeRows(findings)))
    ensures Scoring.ValidCase(CaseOf(m, caseId, expected, tolerance, findings, outcome))
  {
    CaseIsAcceptedIff(m, caseId, expected, tolerance, findings, outcome);
  }

  // ---------------------------------------------------------------------------------
  // What the input order does to the score
  // ---------------------------------------------------------------------------------

  /** Two findings that differ in severity alone, given in one order and in the other: the label agrees with
      the credited finding's severity in one score and not in the other. */
  lemma OrderFlipsAgreement(m: Matcher, h: Human, tolerance: int, line: int, fold: string -> string)
    requires h.file == "f" && h.line == Some(0) && h.severity == Some("error")
    requires m.hits(h.mustMatch, FindingText("t", "b")) && fold("error") == "error" && fold("warning") == "warning"
    ensures var a, b := Remark(Some(line), "error"), Remark(Some(line), "warning");
            var g, g' := GradeOf(h, MatchedUnit(m, [h], tolerance, [a, b], 0)),
                         GradeOf(h, MatchedUnit(m, [h], tolerance, [b, a], 0));
            && Scoring.GoodReference([a, b], g) && Scoring.GoodReference([b, a], g')
            && Scoring.ScoredOf(fold, h, g, [a, b]).agrees == Some(true)
            && Scoring.ScoredOf(fold, h, g', [b, a]).agrees == Some(false)
  {
    SeverityShows(m, h, tolerance, line);
    var a, b := Remark(Some(line), "error"), Remark(Some(line), "warning");
    FirstUnitWins(m, h, tolerance, a, b);
    FirstUnitWins(m, h, tolerance, b, a);
  }
}
