/** Folding a follow-up re-run into a first review: a greedy confirmation of sub-floor questions. */
module FollowupMerge {
  import opened Prelude

  datatype DropReason = Given(text: string) | NotConfirmed(confidence: real, floor: real)

  datatype Finding = Finding(file: string, line: int, title: string, body: string, confidence: Option<real>,
                             dropReason: Option<DropReason>)

  /** The text comparisons: a shared code identifier, an equal normalised title, a mention of one of the
      names. */
  datatype TextTests = TextTests(
    shareToken: (Finding, Finding) -> bool,
    sameTitle: (Finding, Finding) -> bool,
    mentions: (Finding, seq<string>) -> bool)

  const LINE_TOLERANCE := 5

  function Confidence(f: Finding): real {
    if f.confidence.Some? then f.confidence.value else 0.0
  }

  predicate NearLines(a: int, b: int) {
    a > 0 && b > 0 && -LINE_TOLERANCE <= a - b <= LINE_TOLERANCE
  }

  predicate Confirms(tests: TextTests, question: Finding, rerun: Finding, names: seq<string>, floor: real) {
    && Confidence(rerun) >= floor
    && rerun.file == question.file
    && (|| NearLines(rerun.line, question.line)
        || ((question.line <= 0 || rerun.line <= 0) && tests.shareToken(question, rerun))
        || tests.sameTitle(question, rerun)
        || tests.mentions(rerun, names))
  }

  /** One merge: the first review, the names resolved per question, the re-run, and the floor. */
  datatype Merge = Merge(
    tests: TextTests, first: seq<Finding>, questions: map<int, seq<string>>, rerun: seq<Finding>, floor: real)
  {
    /** The question is settled by the merge: it has names, is below the floor and is not dropped. */
    predicate Eligible(i: nat) {
      && i < |first| && i in questions && questions[i] != []
      && Confidence(first[i]) < floor && first[i].dropReason.None?
    }

    predicate Confirming(i: nat, r: nat)
      requires Eligible(i)
    {
      r < |rerun| && Confirms(tests, first[i], rerun[r], questions[i], floor)
    }

    /** The best of the first `n` re-run findings: unused, confirming, of the highest confidence, the
        lowest index on a tie. */
    function Best(i: nat, used: set<nat>, n: nat): (r: Option<nat>)
      requires Eligible(i) && n <= |rerun|
      ensures r.Some? ==> r.value < n && r.value !in used && Confirming(i, r.value)
      ensures r.None? ==> forall b :: 0 <= b < n && b !in used ==> !Confirming(i, b)
      ensures r.Some? ==> forall b :: 0 <= b < n && b !in used && Confirming(i, b) ==>
                || Confidence(rerun[b]) < Confidence(rerun[r.value])
                || (Confidence(rerun[b]) == Confidence(rerun[r.value]) && r.value <= b)
    {
      if n == 0 then None
      else
        var best := Best(i, used, n - 1);
        if n - 1 in used || !Confirming(i, n - 1) then best
        else if best.None? || Confidence(rerun[n - 1]) > Confidence(rerun[best.value]) then Some(n - 1)
        else best
    }

    /** What the first `n` findings were settled with: the re-run finding each question took. */
    function Picks(n: nat): (r: seq<Option<nat>>)
      requires n <= |first|
      ensures |r| == n
      decreases n, 0
    {
      if n == 0 then []
      else if Eligible(n - 1) then Picks(n - 1) + [Best(n - 1, Used(n - 1), |rerun|)]
      else Picks(n - 1) + [None]
    }

    function Used(n: nat): set<nat>
      requires n <= |first|
      decreases n, 1
    {
      set i | 0 <= i < n && Picks(n)[i].Some? :: Picks(n)[i].value
    }

    /** A finding after the merge, given the re-run finding its question took. */
    function Merged(i: nat, pick: Option<nat>): Finding
      requires i < |first| && (pick.Some? ==> pick.value < |rerun|)
    {
      if !Eligible(i) then first[i]
      else
        match pick
        case Some(r) => rerun[r]
        case None => first[i].(dropReason := Some(NotConfirmed(Confidence(first[i]), floor)))
    }
  }

  // ---------------------------------------------------------------------------------
  // The greedy choice
  // ---------------------------------------------------------------------------------

  lemma {:induction false} PicksPrefix(m: Merge, n: nat, k: nat)
    requires n <= k <= |m.first|
    ensures m.Picks(k)[..n] == m.Picks(n)
  {
    if n < k {
      PicksPrefix(m, n, k - 1);
      assert m.Picks(k)[..n] == m.Picks(k - 1)[..n];
    }
  }

  /** Each question took the best that earlier ones had left. */
  lemma PickIsBest(m: Merge, i: nat)
    requires i < |m.first|
    ensures m.Picks(|m.first|)[i] == if m.Eligible(i) then m.Best(i, m.Used(i), |m.rerun|) else None
  {
    PicksPrefix(m, i + 1, |m.first|);
    assert m.Picks(|m.first|)[..i + 1][i] == m.Picks(i + 1)[i];
  }

  lemma UsedGrows(m: Merge, n: nat, k: nat, r: nat)
    requires n <= k <= |m.first| && r in m.Used(n)
    ensures r in m.Used(k)
  {
    PicksPrefix(m, n, k);
    var i :| 0 <= i < n && m.Picks(n)[i] == Some(r);
    assert m.Picks(k)[..n][i] == m.Picks(k)[i];
  }

  /** A re-run finding confirms at most one question. */
  lemma UsedOnce(m: Merge, i: nat, j: nat)
    requires i < j < |m.first|
    requires m.Picks(|m.first|)[i].Some? && m.Picks(|m.first|)[j].Some?
    ensures m.Picks(|m.first|)[i] != m.Picks(|m.first|)[j]
  {
    PickIsBest(m, i);
    PickIsBest(m, j);
    PicksPrefix(m, j, |m.first|);
    assert m.Picks(|m.first|)[..j][i] == m.Picks(j)[i];
  }

  /** No question is left unconfirmed while a re-run finding that confirms it is unused. */
  lemma NothingLeftToConfirm(m: Merge, i: nat, r: nat)
    requires m.Eligible(i) && m.Picks(|m.first|)[i].None? && m.Confirming(i, r)
    ensures r in m.Used(|m.first|)
  {
    PickIsBest(m, i);
    assert r in m.Used(i);
    UsedGrows(m, i, |m.first|, r);
  }

  // ---------------------------------------------------------------------------------
  // What a merge is
  // ---------------------------------------------------------------------------------

  /** The confidence of a finding, a missing one counting as none. */
  ghost function Sureness(f: Finding): real {
    if f.confidence == None then 0.0 else f.confidence.value
  }

  /** Finding `i` is a question the merge settles: names were resolved for it, it is below the floor, and no
      gate dropped it. */
  ghost predicate IsQuestion(m: Merge, i: nat) {
    && i < |m.first| && i in m.questions && |m.questions[i]| > 0
    && Sureness(m.first[i]) < m.floor && m.first[i].dropReason == None
  }

  /** Re-run finding `r` may confirm question `i`: it is sure enough and in the same file, and it is at most
      five lines away, or one of them has no line and they share an identifier, or the titles are the same, or
      it mentions a resolved name. */
  ghost predicate MayConfirm(m: Merge, i: nat, r: nat) {
    && IsQuestion(m, i) && r < |m.rerun|
    && var q, f := m.first[i], m.rerun[r];
       && Sureness(f) >= m.floor && f.file == q.file
       && (|| (q.line > 0 && f.line > 0 && -5 <= q.line - f.line <= 5)
           || ((q.line <= 0 || f.line <= 0) && m.tests.shareToken(q, f))
           || m.tests.sameTitle(q, f)
           || m.tests.mentions(f, m.questions[i]))
  }

  lemma ConfirmsIff(m: Merge, i: nat, r: nat)
    ensures m.Eligible(i) <==> IsQuestion(m, i)
    ensures MayConfirm(m, i, r) <==> m.Eligible(i) && m.Confirming(i, r)
  {
  }

  /** An earlier question took re-run finding `r`. */
  ghost predicate TakenBefore(picks: seq<Option<nat>>, i: nat, r: nat) {
    exists j :: 0 <= j < i && j < |picks| && picks[j] == Some(r)
  }

  /** What becomes of finding `i`: one that is no question stays; a question becomes the surest re-run finding
      that may confirm it and that no earlier question took, the first of equally sure ones; and when there is
      none it is kept and marked as not confirmed, with its confidence and the floor. */
  ghost predicate SettledAs(m: Merge, picks: seq<Option<nat>>, i: nat, g: Finding)
    requires i < |m.first| == |picks|
  {
    if !IsQuestion(m, i) then picks[i] == None && g == m.first[i]
    else
      match picks[i]
      case Some(r) =>
        && MayConfirm(m, i, r) && !TakenBefore(picks, i, r) && g == m.rerun[r]
        && forall b: nat :: MayConfirm(m, i, b) && !TakenBefore(picks, i, b) ==>
             Sureness(m.rerun[b]) < Sureness(m.rerun[r]) || (Sureness(m.rerun[b]) == Sureness(m.rerun[r]) && r <= b)
      case None =>
        && (forall b: nat :: MayConfirm(m, i, b) ==> TakenBefore(picks, i, b))
        && g == m.first[i].(dropReason := Some(NotConfirmed(Sureness(m.first[i]), m.floor)))
  }

  lemma UsedIsTaken(m: Merge, i: nat, r: nat)
    requires i <= |m.first|
    ensures r in m.Used(i) <==> TakenBefore(m.Picks(|m.first|), i, r)
  {
    PicksPrefix(m, i, |m.first|);
    var all, some := m.Picks(|m.first|), m.Picks(i);
    assert forall j :: 0 <= j < i ==> all[..i][j] == all[j];
  }

  lemma MergeSettles(m: Merge, i: nat)
    requires i < |m.first|
    ensures PickInRange(m, |m.first|, i)
    ensures SettledAs(m, m.Picks(|m.first|), i, m.Merged(i, m.Picks(|m.first|)[i]))
  {
    var picks := m.Picks(|m.first|);
    PickIsBest(m, i);
    ConfirmsIff(m, i, 0);
    if m.Eligible(i) {
      forall b: nat ensures MayConfirm(m, i, b) <==> m.Confirming(i, b) {
        ConfirmsIff(m, i, b);
      }
      forall b: nat ensures b in m.Used(i) <==> TakenBefore(picks, i, b) {
        UsedIsTaken(m, i, b);
      }
    }
  }

  // ---------------------------------------------------------------------------------
  // Against the best possible assignment
  // ---------------------------------------------------------------------------------

  function Confirmed(m: Merge, n: nat): set<nat>
    requires n <= |m.first|
  {
    set i | 0 <= i < n && m.Picks(n)[i].Some?
  }

  /** A way to confirm questions that uses each re-run finding at most once. */
  ghost predicate Assignment(m: Merge, a: map<nat, nat>) {
    && (forall i :: i in a ==> MayConfirm(m, i, a[i]))
    && (forall i, j :: i in a && j in a && i != j ==> a[i] != a[j])
  }

  lemma UsedIsConfirmed(m: Merge)
    ensures |m.Used(|m.first|)| == |Confirmed(m, |m.first|)|
  {
    var n := |m.first|;
    var chosen := map i | i in Confirmed(m, n) :: m.Picks(n)[i].value;
    forall i, j | i in chosen && j in chosen && i != j ensures chosen[i] != chosen[j] {
      if i < j { UsedOnce(m, i, j); } else { UsedOnce(m, j, i); }
    }
    InjectiveInto(Confirmed(m, n), chosen, m.Used(n));
    var takers := map r | r in m.Used(n) :: Taker(m, n, r);
    InjectiveInto(m.Used(n), takers, Confirmed(m, n));
  }

  ghost function Taker(m: Merge, n: nat, r: nat): (i: nat)
    requires n <= |m.first| && r in m.Used(n)
    ensures i < n && m.Picks(n)[i] == Some(r)
  {
    var i: nat :| 0 <= i < n && m.Picks(n)[i] == Some(r);
    i
  }

  /** The merge confirms at least half of what any assignment could. */
  lemma AtLeastHalf(m: Merge, a: map<nat, nat>)
    requires Assignment(m, a)
    ensures |a.Keys| <= 2 * |Confirmed(m, |m.first|)|
  {
    var n := |m.first|;
    forall i | i in a && i !in Confirmed(m, n) ensures a[i] in m.Used(n) {
      ConfirmsIff(m, i, a[i]);
      NothingLeftToConfirm(m, i, a[i]);
    }
    UsedIsConfirmed(m);
    HalfAndHalf(a, Confirmed(m, n), m.Used(n));
  }

  /** Keys that lie in one set, or whose distinct values lie in another, are no more than the two hold. */
  lemma HalfAndHalf(a: map<nat, nat>, keys: set<nat>, values: set<nat>)
    requires forall i :: i in a && i !in keys ==> a[i] in values
    requires forall i, j :: i in a && j in a && i != j ==> a[i] != a[j]
    ensures |a.Keys| <= |keys| + |values|
  {
    var mine := a.Keys * keys;
    var others := a.Keys - keys;
    InjectiveInto(others, a, values);
    SubsetSize(mine, keys);
    assert a.Keys == mine + others;
  }

  function At(line: int, confidence: real): Finding {
    Finding("f", line, "", "", Some(confidence), None)
  }

  function NoText(): TextTests {
    TextTests((a, b) => false, (a, b) => false, (a, names) => false)
  }

  function TightMerge(): Merge {
    Merge(NoText(), [At(10, 0.1), At(14, 0.1)], map[0 := ["x"], 1 := ["y"]], [At(12, 0.9), At(6, 0.8)], 0.5)
  }

  lemma TightConfirms()
    ensures var m := TightMerge();
            && m.Eligible(0) && m.Eligible(1)
            && m.Confirming(0, 0) && m.Confirming(0, 1) && m.Confirming(1, 0) && !m.Confirming(1, 1)
  {
  }

  /** The first question takes the only finding that could have confirmed the second. */
  lemma TightPicks()
    ensures TightMerge().Picks(2)[0] == Some(0) && TightMerge().Picks(2)[1] == None
  {
    var m := TightMerge();
    TightConfirms();
    PickIsBest(m, 0);
    PickIsBest(m, 1);
    assert m.Picks(2)[0] == Some(0);
    PicksPrefix(m, 1, 2);
    assert m.Picks(2)[..1][0] == m.Picks(1)[0];
    assert 0 in m.Used(1);
  }

  /** Half can be all it does: here one of two is confirmed. */
  lemma HalfIsTight()
    ensures exists m, a :: Assignment(m, a) && |a.Keys| == 2 && |Confirmed(m, |m.first|)| == 1
  {
    var m := TightMerge();
    var a: map<nat, nat> := map[0 := 1, 1 := 0];
    TightConfirms();
    ConfirmsIff(m, 0, 1);
    ConfirmsIff(m, 1, 0);
    assert Assignment(m, a);
    assert a.Keys == {0, 1};
    TightPicks();
    assert Confirmed(m, 2) == {0};
  }

  // ---------------------------------------------------------------------------------
  // The merge
  // ---------------------------------------------------------------------------------

  datatype Outcome = Outcome(findings: seq<Finding>, confirmed: nat, unconfirmed: nat, discarded: nat)

  function EligibleSet(m: Merge, n: nat): set<nat> {
    set i | 0 <= i < n && m.Eligible(i)
  }

  method PickBest(m: Merge, i: nat, used: set<nat>) returns (best: Option<nat>)
    requires m.Eligible(i)
    ensures best == m.Best(i, used, |m.rerun|)
  {
    best := None;
    for r := 0 to |m.rerun|
      invariant best == m.Best(i, used, r)
    {
      if r in used || !Confirms(m.tests, m.first[i], m.rerun[r], m.questions[i], m.floor) {
        continue;
      }
      if best.None? || Confidence(m.rerun[r]) > Confidence(m.rerun[best.value]) {
        best := Some(r);
      }
    }
  }

  /** The first `n` findings are as merged. */
  ghost predicate Matches(m: Merge, n: nat, out: seq<Finding>)
    requires n <= |m.first| == |out|
  {
    forall i :: 0 <= i < n ==> PickInRange(m, n, i) && out[i] == m.Merged(i, m.Picks(n)[i])
  }

  /** The merge after `n` findings: what was settled, and the counts. */
  ghost predicate Progress(m: Merge, n: nat, out: seq<Finding>, used: set<nat>, confirmed: nat, unconfirmed: nat) {
    && n <= |m.first| == |out|
    && used == m.Used(n)
    && Matches(m, n, out)
    && (forall i :: n <= i < |out| ==> out[i] == m.first[i])
    && confirmed == |Confirmed(m, n)| && confirmed + unconfirmed == |EligibleSet(m, n)|
  }

  predicate PickInRange(m: Merge, n: nat, i: nat)
    requires i < n <= |m.first|
  {
    m.Picks(n)[i].Some? ==> m.Picks(n)[i].value < |m.rerun|
  }

  lemma Skipped(m: Merge, n: nat, out: seq<Finding>, used: set<nat>, confirmed: nat, unconfirmed: nat)
    requires Progress(m, n, out, used, confirmed, unconfirmed) && n < |m.first| && !m.Eligible(n)
    ensures Progress(m, n + 1, out, used, confirmed, unconfirmed)
  {
    Extended(m, n);
    assert Confirmed(m, n + 1) == Confirmed(m, n);
    assert EligibleSet(m, n + 1) == EligibleSet(m, n);
    assert m.Used(n + 1) == m.Used(n);
  }

  lemma Extended(m: Merge, n: nat)
    requires n < |m.first|
    ensures forall i :: 0 <= i < n ==> m.Picks(n + 1)[i] == m.Picks(n)[i]
    ensures m.Picks(n + 1)[n] == if m.Eligible(n) then m.Best(n, m.Used(n), |m.rerun|) else None
  {
  }

  lemma EligibleNext(m: Merge, n: nat)
    requires n < |m.first| && m.Eligible(n)
    ensures |EligibleSet(m, n + 1)| == |EligibleSet(m, n)| + 1
  {
    assert EligibleSet(m, n + 1) == EligibleSet(m, n) + {n};
  }

  lemma ConfirmedIs(m: Merge, n: nat, best: Option<nat>, i: nat)
    requires n < |m.first| && m.Eligible(n) && best == m.Best(n, m.Used(n), |m.rerun|)
    ensures i in Confirmed(m, n + 1) <==> i in Confirmed(m, n) || (best.Some? && i == n)
  {
    Extended(m, n);
  }

  lemma ConfirmedNext(m: Merge, n: nat, best: Option<nat>)
    requires n < |m.first| && m.Eligible(n) && best == m.Best(n, m.Used(n), |m.rerun|)
    ensures |Confirmed(m, n + 1)| == |Confirmed(m, n)| + if best.Some? then 1 else 0
  {
    forall i ensures i in Confirmed(m, n + 1) <==> i in Confirmed(m, n) || (best.Some? && i == n) {
      ConfirmedIs(m, n, best, i);
    }
    var more := if best.Some? then {n} else {};
    assert Confirmed(m, n + 1) == Confirmed(m, n) + more;
  }

  lemma Settled(m: Merge, n: nat, out: seq<Finding>, used: set<nat>, confirmed: nat, unconfirmed: nat,
                best: Option<nat>)
    requires Progress(m, n, out, used, confirmed, unconfirmed) && n < |m.first| && m.Eligible(n)
    requires best == m.Best(n, used, |m.rerun|)
    ensures var now := out[n := m.Merged(n, best)];
            if best.Some? then Progress(m, n + 1, now, used + {best.value}, confirmed + 1, unconfirmed)
            else Progress(m, n + 1, now, used, confirmed, unconfirmed + 1)
  {
    Extended(m, n);
    EligibleNext(m, n);
    ConfirmedNext(m, n, best);
    UsedNext(m, n, best);
    OutNext(m, n, out, best);
  }

  lemma OutNext(m: Merge, n: nat, out: seq<Finding>, best: Option<nat>)
    requires n < |m.first| == |out| && m.Eligible(n) && best == m.Best(n, m.Used(n), |m.rerun|)
    requires Matches(m, n, out)
    ensures Matches(m, n + 1, out[n := m.Merged(n, best)])
  {
    Extended(m, n);
    var now := out[n := m.Merged(n, best)];
    forall i | 0 <= i < n + 1 ensures PickInRange(m, n + 1, i) && now[i] == m.Merged(i, m.Picks(n + 1)[i]) {
      if i < n {
        assert PickInRange(m, n, i) && m.Picks(n + 1)[i] == m.Picks(n)[i];
      }
    }
  }

  lemma UsedNext(m: Merge, n: nat, best: Option<nat>)
    requires n < |m.first| && m.Eligible(n) && best == m.Best(n, m.Used(n), |m.rerun|)
    ensures m.Used(n + 1) == m.Used(n) + if best.Some? then {best.value} else {}
  {
    Extended(m, n);
    forall r ensures r in m.Used(n + 1) <==> r in m.Used(n) || best == Some(r) {
      if r in m.Used(n) {
        UsedGrows(m, n, n + 1, r);
      } else if best == Some(r) {
        assert m.Picks(n + 1)[n] == Some(r);
      }
    }
  }

  /** The merge so far, as the loop holds it. */
  datatype State = State(out: seq<Finding>, used: set<nat>, confirmed: nat, unconfirmed: nat)

  ghost predicate AtState(m: Merge, n: nat, s: State) {
    Progress(m, n, s.out, s.used, s.confirmed, s.unconfirmed)
  }

  /** Settle one question, or pass over a finding that has none to settle. */
  method SettleOne(m: Merge, i: nat, s: State) returns (t: State)
    requires AtState(m, i, s) && i < |m.first|
    ensures AtState(m, i + 1, t)
  {
    if i !in m.questions || m.questions[i] == [] {
      Skipped(m, i, s.out, s.used, s.confirmed, s.unconfirmed);
      return s;
    }
    if Confidence(m.first[i]) >= m.floor || m.first[i].dropReason.Some? {
      Skipped(m, i, s.out, s.used, s.confirmed, s.unconfirmed);
      return s;
    }
    var best := PickBest(m, i, s.used);
    Settled(m, i, s.out, s.used, s.confirmed, s.unconfirmed, best);
    var out := s.out[i := m.Merged(i, best)];
    if best.None? {
      t := State(out, s.used, s.confirmed, s.unconfirmed + 1);
    } else {
      t := State(out, s.used + {best.value}, s.confirmed + 1, s.unconfirmed);
    }
  }

  ghost function Questions(m: Merge): set<nat> {
    set i: nat | i < |m.first| && IsQuestion(m, i)
  }

  ghost predicate SettlesAll(m: Merge, picks: seq<Option<nat>>, findings: seq<Finding>) {
    && |picks| == |findings| == |m.first|
    && forall i :: 0 <= i < |picks| ==> SettledAs(m, picks, i, findings[i])
  }

  ghost function Taken(picks: seq<Option<nat>>): set<nat> {
    set i: nat | i < |picks| && picks[i].Some?
  }

  /** Settle the questions in index order; everything else passes through.  The counts conserve: every
      eligible question is confirmed or marked, and every re-run finding confirms or is discarded. */
  method MergeFollowup(m: Merge) returns (r: Outcome)
    ensures |r.findings| == |m.first|
    ensures forall i :: 0 <= i < |m.first| ==>
              PickInRange(m, |m.first|, i) && r.findings[i] == m.Merged(i, m.Picks(|m.first|)[i])
    ensures r.confirmed == |Confirmed(m, |m.first|)| && r.confirmed + r.unconfirmed == |Questions(m)|
    ensures r.confirmed + r.discarded == |m.rerun|
    ensures exists picks :: SettlesAll(m, picks, r.findings) && r.confirmed == |Taken(picks)|
  {
    var s := State(m.first, {}, 0, 0);
    for i := 0 to |m.first|
      invariant AtState(m, i, s)
    {
      s := SettleOne(m, i, s);
    }
    ConfirmedFits(m);
    r := Outcome(s.out, s.confirmed, s.unconfirmed, |m.rerun| - s.confirmed);
    forall i | 0 <= i < |m.first|
      ensures SettledAs(m, m.Picks(|m.first|), i, s.out[i]) && (m.Eligible(i) <==> IsQuestion(m, i))
    {
      MergeSettles(m, i);
      ConfirmsIff(m, i, 0);
    }
    assert EligibleSet(m, |m.first|) == Questions(m);
    assert Confirmed(m, |m.first|) == Taken(m.Picks(|m.first|));
    assert SettlesAll(m, m.Picks(|m.first|), s.out);
  }

  lemma ConfirmedFits(m: Merge)
    ensures |Confirmed(m, |m.first|)| <= |m.rerun|
  {
    UsedIsConfirmed(m);
    forall r | r in m.Used(|m.first|) ensures r in UpTo(|m.rerun|) {
      var i: nat :| 0 <= i < |m.first| && m.Picks(|m.first|)[i] == Some(r);
      PickIsBest(m, i);
    }
    SubsetSize(m.Used(|m.first|), UpTo(|m.rerun|));
  }
}
