/** What one unit (one case of one shard) leaves on disk: how it is classified, reset, finalised
    and finally read by the scorer; how cases are dealt into shards, and shards joined again. */
module CampaignUnits {
  import opened Prelude
  import opened Sorting

  // ---------------------------------------------------------------------------------
  // One unit directory
  // ---------------------------------------------------------------------------------

  /** A `record.json`: not JSON, JSON but no object, or a record with or without the verdict `Error`. */
  datatype RecordBody = Unreadable | NotAnObject | Reviewed(error: bool)

  /** `rateHit` is whether the text matches the rate-limit pattern. */
  datatype RecordFile = RecordFile(body: RecordBody, rateHit: bool)

  datatype ErrorFile = ErrorFile(rateHit: bool)

  /** `metaHit`: some string of a trace meta file matches the rate-limit pattern. */
  datatype UnitDir = UnitDir(record: Option<RecordFile>, error: Option<ErrorFile>, metaHit: bool)

  const EMPTY_DIR := UnitDir(None, None, false)

  datatype Status = UnitOk | UnitError | UnitRateLimited | UnitMissing

  function Failed(textHit: bool, metaHit: bool): Status {
    if textHit || metaHit then UnitRateLimited else UnitError
  }

  function UnitState(d: UnitDir): Status {
    if d.error.None? && d.record.None? then UnitMissing
    else if d.record.Some? && d.record.value.body.Unreadable? then
      (if d.error.None? then UnitMissing else Failed(d.error.value.rateHit, d.metaHit))
    else if d.error.Some? then Failed(d.error.value.rateHit, d.metaHit)
    else if d.record.value.body != Reviewed(false) then Failed(d.record.value.rateHit, d.metaHit)
    else if d.metaHit then UnitRateLimited
    else UnitOk
  }

  /** A record of a review that did not end in an error, no error file, and no sign of the rate limit. */
  ghost predicate GoodUnit(d: UnitDir) {
    d.error == None && !d.metaHit && d.record.Some? && d.record.value.body == Reviewed(false)
  }

  /** A record that can be read and is no review, or one that ended in an error. */
  ghost predicate BadRecord(d: UnitDir) {
    d.record.Some? && d.record.value.body in {NotAnObject, Reviewed(true)}
  }

  /** The four states of a unit.  It is ok exactly when it is good.  It is missing exactly when it has no
      error file and no record that can be read.  Otherwise it is rate limited exactly when the pattern
      matches its trace, its error file or, when there is none, its bad record. */
  lemma UnitStateIs(d: UnitDir)
    ensures UnitState(d) == UnitOk <==> GoodUnit(d)
    ensures UnitState(d) == UnitMissing <==>
              d.error == None && (d.record == None || d.record.value.body == Unreadable)
    ensures UnitState(d) == UnitRateLimited <==>
              || (d.error.Some? && (d.metaHit || d.error.value.rateHit))
              || (d.error == None && BadRecord(d) && (d.metaHit || d.record.value.rateHit))
              || (GoodUnit(d.(metaHit := false)) && d.metaHit)
    ensures UnitState(d) == UnitError <==>
              || (d.error.Some? && !d.metaHit && !d.error.value.rateHit)
              || (d.error == None && BadRecord(d) && !d.metaHit && !d.record.value.rateHit)
  {
  }

  /** One deletion of `reset_unit`, in its order: the record, the error, the trace. */
  function ResetOne(d: UnitDir): UnitDir {
    if d.record.Some? then d.(record := None)
    else if d.error.Some? then d.(error := None)
    else d.(metaHit := false)
  }

  /** Because the record goes first, an interrupted reset never leaves a unit that reads as ok. */
  lemma InterruptedResetIsNotOk(d: UnitDir)
    requires !GoodUnit(d)
    ensures !GoodUnit(ResetOne(d))
    ensures ResetOne(ResetOne(ResetOne(d))) == EMPTY_DIR
  {
  }

  /** `hit`: whether the error text written for a unit without a usable result matches the pattern. */
  function Finalize(d: UnitDir, state: Status, hit: bool): UnitDir {
    if state == UnitError then d
    else if state == UnitRateLimited && d.record.None? then d
    else if state == UnitRateLimited && d.record.value.body == Reviewed(true) then d
    else UnitDir(None, Some(ErrorFile(hit)), d.metaHit)
  }

  /** How the scorer reads a unit: a graded record, a record of a failed review, a case without
      record, or a refusal of the whole run. */
  datatype ScoreView = Graded | FailedReview | NoRecord | Refused

  function ReadCase(d: UnitDir): ScoreView {
    if d.record.Some? then
      match d.record.value.body
      case Reviewed(error) => if error then FailedReview else Graded
      case _ => Refused
    else if d.error.Some? then NoRecord
    else Refused
  }

  predicate Missed(v: ScoreView) {
    v == FailedReview || v == NoRecord
  }

  /** The scorer grades a unit exactly when it has a record of a review without error, and counts it as
      missed exactly when it has one with an error, or an error file and no record. */
  ghost predicate ReadsGraded(d: UnitDir) {
    d.record.Some? && d.record.value.body == Reviewed(false)
  }

  ghost predicate ReadsMissed(d: UnitDir) {
    if d.record.Some? then d.record.value.body == Reviewed(true) else d.error.Some?
  }

  lemma ReadCaseIs(d: UnitDir)
    ensures ReadCase(d) == Graded <==> ReadsGraded(d)
    ensures Missed(ReadCase(d)) <==> ReadsMissed(d)
  {
  }

  /** What finalising does to a failing unit: one without an error file and a readable record, and a rate
      limited one whose record is not an error, lose their record and get an error file; all others stay. */
  lemma FinalizeIs(d: UnitDir, hit: bool)
    requires !GoodUnit(d)
    ensures var f := Finalize(d, UnitState(d), hit);
            if || (d.error == None && (d.record == None || d.record.value.body in {Unreadable, Reviewed(false)}))
               || (d.record.Some? && d.record.value.body != Reviewed(true)
                   && (d.metaHit || (if d.error.Some? then d.error.value.rateHit else d.record.value.rateHit)))
            then f == UnitDir(None, Some(ErrorFile(hit)), d.metaHit)
            else f == d
  {
  }

  /** A finalised unit scores as missed exactly unless it showed no sign of the rate limit and had an error
      file beside a record that is no error, or a record that is no object and no error file. */
  lemma FinalizedIsMissedIff(d: UnitDir, hit: bool)
    requires !GoodUnit(d)
    ensures ReadsMissed(Finalize(d, UnitState(d), hit))
       <==> !(&& d.record.Some? && d.record.value.body != Reviewed(true) && !d.metaHit
              && if d.error.Some? then !d.error.value.rateHit
                 else d.record.value.body == NotAnObject && !d.record.value.rateHit)
  {
  }

  /** What a run of a case leaves: one of the two files, and a record that is an object. */
  ghost predicate OneResult(d: UnitDir) {
    && !(d.record.Some? && d.error.Some?)
    && (d.record.Some? ==> d.record.value.body.Reviewed?)
  }

  /** On such directories finalising makes every failed unit score as missed and nothing is refused,
      while an ok unit is graded as it stands. */
  lemma FinalizedScores(d: UnitDir, hit: bool)
    requires OneResult(d)
    ensures GoodUnit(d) ==> ReadsGraded(d)
    ensures !GoodUnit(d) ==>
              var f := Finalize(d, UnitState(d), hit);
              ReadsMissed(f) && !GoodUnit(f) && OneResult(f)
  {
  }

  /** How running one case can end: a record, an error, or a killed process. */
  datatype Outcome =
    | Recorded(error: bool, rateHit: bool, meta: bool)
    | Raised(rateHit: bool, meta: bool)
    | Died(meta: bool)

  function Ran(outcome: Outcome): UnitDir {
    match outcome
    case Recorded(error, rateHit, meta) => UnitDir(Some(RecordFile(Reviewed(error), rateHit)), None, meta)
    case Raised(rateHit, meta) => UnitDir(None, Some(ErrorFile(rateHit)), meta)
    case Died(meta) => UnitDir(None, None, meta)
  }

  /** A run of a case leaves a good unit exactly when it ends with a record, no error and no sign of the
      rate limit. */
  lemma RanWellIff(outcome: Outcome)
    ensures GoodUnit(Ran(outcome)) <==> outcome.Recorded? && !outcome.error && !outcome.meta
  {
  }

  /** `eval run --resume` skips a case that has either file. */
  predicate AlreadyRecorded(d: UnitDir) {
    d.record.Some? || d.error.Some?
  }

  // ---------------------------------------------------------------------------------
  // Dealing cases into shards
  // ---------------------------------------------------------------------------------

  /** `ids[start::step]` */
  function Stride(ids: seq<string>, start: nat, step: nat): seq<string>
    requires step > 0
    decreases |ids| - start
  {
    if start >= |ids| then [] else [ids[start]] + Stride(ids, start + step, step)
  }

  function Min(a: nat, b: nat): nat {
    if a <= b then a else b
  }

  function ShardIds(ids: seq<string>, shards: nat): (r: seq<seq<string>>)
    requires shards >= 1
    ensures |r| == Min(shards, |ids|)
    ensures forall i :: 0 <= i < |r| ==> r[i] == Stride(ids, i, |r|)
  {
    var count := Min(shards, |ids|);
    seq(count, i requires 0 <= i < count => Stride(ids, i, count))
  }

  lemma {:induction false} StrideElement(ids: seq<string>, start: nat, step: nat, k: nat)
    requires step > 0
    ensures k < |Stride(ids, start, step)| <==> start + k * step < |ids|
    ensures k < |Stride(ids, start, step)| ==> Stride(ids, start, step)[k] == ids[start + k * step]
    decreases k
  {
    if start < |ids| && k > 0 {
      StrideElement(ids, start + step, step, k - 1);
      assert k * step == (k - 1) * step + step;
    } else if start >= |ids| {
      assert k * step >= 0;
    }
  }

  /** The case at position `p` goes to shard `p mod n`, at place `p div n`... */
  lemma ShardOfPosition(ids: seq<string>, n: nat, p: nat)
    requires n > 0 && p < |ids|
    ensures p % n < n && p / n < |Stride(ids, p % n, n)| && Stride(ids, p % n, n)[p / n] == ids[p]
  {
    StrideElement(ids, p % n, n, p / n);
    assert p % n + (p / n) * n == p;
  }

  /** ... and nowhere else. */
  lemma ShardOnlyOfPosition(ids: seq<string>, n: nat, p: nat, i: nat, k: nat)
    requires n > 0 && p < |ids| && i < n && Distinct(ids)
    requires k < |Stride(ids, i, n)| && Stride(ids, i, n)[k] == ids[p]
    ensures i == p % n && k == p / n
  {
    StrideElement(ids, i, n, k);
    var q := i + k * n;
    assert q == p by { assert ids[q] == ids[p]; }
    QuotientIs(p, n, k, i);
  }

  /** No shard is empty and any two sizes differ by at most one. */
  lemma ShardSizes(ids: seq<string>, shards: nat, i: nat, j: nat)
    requires shards >= 1 && i < |ShardIds(ids, shards)| && j < |ShardIds(ids, shards)|
    ensures |ShardIds(ids, shards)[i]| >= 1
    ensures |ShardIds(ids, shards)[i]| <= |ShardIds(ids, shards)[j]| + 1
  {
    var n := |ShardIds(ids, shards)|;
    StrideElement(ids, i, n, 0);
    var last := |ShardIds(ids, shards)[i]| - 1;
    StrideElement(ids, i, n, last);
    if last >= 1 {
      StrideElement(ids, j, n, last - 1);
      assert (last - 1) * n == last * n - n;
    }
  }

  datatype Shard = Shard(fold: nat, index: nat, cases: seq<string>)

  /** The shards of fold `j` holding `ids`. */
  function FoldShards(ids: seq<string>, j: nat, jobs: nat): (r: seq<Shard>)
    requires jobs >= 1
    ensures |r| == |ShardIds(ids, jobs)|
    ensures forall i :: 0 <= i < |r| ==> r[i] == Shard(j, i, ShardIds(ids, jobs)[i])
  {
    var parts := ShardIds(ids, jobs);
    seq(|parts|, i requires 0 <= i < |parts| => Shard(j, i, parts[i]))
  }

  function CasesInFold(ids: seq<string>, folds: map<string, nat>, j: nat): seq<string>
    requires forall id :: id in ids ==> id in folds
  {
    if ids == [] then []
    else
      assert ids[0] in ids;
      assert forall id :: id in ids[1..] ==> id in ids;
      if folds[ids[0]] == j then [ids[0]] + CasesInFold(ids[1..], folds, j) else CasesInFold(ids[1..], folds, j)
  }

  lemma {:induction false} CasesInFoldMembers(ids: seq<string>, folds: map<string, nat>, j: nat)
    requires forall id :: id in ids ==> id in folds
    ensures forall id :: id in CasesInFold(ids, folds, j) <==> id in ids && folds[id] == j
    ensures Distinct(ids) ==> Distinct(CasesInFold(ids, folds, j))
  {
    if ids != [] {
      assert forall id :: id in ids[1..] ==> id in ids;
      CasesInFoldMembers(ids[1..], folds, j);
      assert ids == [ids[0]] + ids[1..];
      if Distinct(ids) {
        assert ids[0] !in ids[1..];
        var rest := CasesInFold(ids[1..], folds, j);
        assert forall i :: 0 <= i < |rest| ==> rest[i] in rest;
      }
    }
  }

  /** The shards of a pass: one group per fold, or one group for an arm that mines nothing. */
  function Shards(ids: seq<string>, folds: map<string, nat>, k: nat, jobs: nat): seq<Shard>
    requires jobs >= 1 && forall id :: id in ids ==> id in folds
  {
    if k == 0 then []
    else Shards(ids, folds, k - 1, jobs) + FoldShards(CasesInFold(ids, folds, k - 1), k - 1, jobs)
  }

  /** `folds` for an arm that mines nothing. */
  function OneFold(ids: seq<string>): map<string, nat> {
    map id | id in ids :: 0
  }

  ghost predicate OwnedOnce(shards: seq<Shard>, id: string) {
    exists i :: OwnedBy(shards, id, i)
  }

  ghost predicate OwnedBy(shards: seq<Shard>, id: string, i: int) {
    && 0 <= i < |shards| && id in shards[i].cases
    && forall j :: 0 <= j < |shards| && id in shards[j].cases ==> j == i
  }

  lemma {:induction false} StrideMembers(ids: seq<string>, start: nat, step: nat)
    requires step > 0
    ensures forall id :: id in Stride(ids, start, step) ==> id in ids
    decreases |ids| - start
  {
    if start < |ids| { StrideMembers(ids, start + step, step); }
  }

  lemma FoldOwnsCase(ids: seq<string>, j: nat, jobs: nat, p: nat)
    requires jobs >= 1 && p < |ids| && Distinct(ids)
    ensures OwnedOnce(FoldShards(ids, j, jobs), ids[p])
  {
    var n := |ShardIds(ids, jobs)|;
    var shards := FoldShards(ids, j, jobs);
    ShardOfPosition(ids, n, p);
    assert ids[p] in shards[p % n].cases;
    forall i | 0 <= i < |shards| && ids[p] in shards[i].cases ensures i == p % n {
      var k :| 0 <= k < |Stride(ids, i, n)| && Stride(ids, i, n)[k] == ids[p];
      ShardOnlyOfPosition(ids, n, p, i, k);
    }
    assert OwnedBy(shards, ids[p], p % n);
  }

  lemma FoldShardsMembers(ids: seq<string>, j: nat, jobs: nat, i: nat)
    requires jobs >= 1 && i < |FoldShards(ids, j, jobs)|
    ensures forall id :: id in FoldShards(ids, j, jobs)[i].cases ==> id in ids
  {
    StrideMembers(ids, i, |ShardIds(ids, jobs)|);
  }

  ghost predicate ShardWithin(shard: Shard, ids: seq<string>, folds: map<string, nat>, k: nat) {
    && shard.fold < k
    && forall id :: id in shard.cases ==> id in ids && id in folds && folds[id] == shard.fold
  }

  lemma {:induction false} ShardsMembers(ids: seq<string>, folds: map<string, nat>, k: nat, jobs: nat)
    requires jobs >= 1 && forall id :: id in ids ==> id in folds
    ensures forall i :: 0 <= i < |Shards(ids, folds, k, jobs)|
              ==> ShardWithin(Shards(ids, folds, k, jobs)[i], ids, folds, k)
  {
    if k > 0 {
      ShardsMembers(ids, folds, k - 1, jobs);
      var front, mine := Shards(ids, folds, k - 1, jobs), CasesInFold(ids, folds, k - 1);
      var back := FoldShards(mine, k - 1, jobs);
      CasesInFoldMembers(ids, folds, k - 1);
      forall i | 0 <= i < |front + back| ensures ShardWithin((front + back)[i], ids, folds, k) {
        if i < |front| {
          assert ShardWithin(front[i], ids, folds, k - 1);
        } else {
          FoldShardsMembers(mine, k - 1, jobs, i - |front|);
        }
      }
    }
  }

  lemma OwnedInFront(front: seq<Shard>, back: seq<Shard>, id: string)
    requires OwnedOnce(front, id) && forall i :: 0 <= i < |back| ==> id !in back[i].cases
    ensures OwnedOnce(front + back, id)
  {
    var i :| OwnedBy(front, id, i);
    assert OwnedBy(front + back, id, i);
  }

  lemma OwnedInBack(front: seq<Shard>, back: seq<Shard>, id: string)
    requires OwnedOnce(back, id) && forall i :: 0 <= i < |front| ==> id !in front[i].cases
    ensures OwnedOnce(front + back, id)
  {
    var i :| OwnedBy(back, id, i);
    assert (front + back)[|front| + i] == back[i];
    assert OwnedBy(front + back, id, |front| + i);
  }

  /** Every case is in exactly one shard. */
  lemma {:induction false} EveryCaseHasOneShard(ids: seq<string>, folds: map<string, nat>, k: nat, jobs: nat,
                                                id: string)
    requires jobs >= 1 && Distinct(ids) && id in ids
    requires forall x :: x in ids ==> x in folds
    requires folds[id] < k
    ensures OwnedOnce(Shards(ids, folds, k, jobs), id)
  {
    var front, mine := Shards(ids, folds, k - 1, jobs), CasesInFold(ids, folds, k - 1);
    var back := FoldShards(mine, k - 1, jobs);
    CasesInFoldMembers(ids, folds, k - 1);
    if folds[id] == k - 1 {
      ShardsMembers(ids, folds, k - 1, jobs);
      forall i | 0 <= i < |front| ensures id !in front[i].cases {
        assert ShardWithin(front[i], ids, folds, k - 1);
      }
      assert id in mine;
      var p :| 0 <= p < |mine| && mine[p] == id;
      FoldOwnsCase(mine, k - 1, jobs, p);
      OwnedInBack(front, back, id);
    } else {
      EveryCaseHasOneShard(ids, folds, k - 1, jobs, id);
      forall i | 0 <= i < |back| ensures id !in back[i].cases {
        FoldShardsMembers(mine, k - 1, jobs, i);
      }
      OwnedInFront(front, back, id);
    }
  }

  /** Labels name shards uniquely, so no two shards share a directory. */
  lemma {:induction false} LabelsAreUnique(ids: seq<string>, folds: map<string, nat>, k: nat, jobs: nat, i: nat, j: nat)
    requires jobs >= 1 && forall id :: id in ids ==> id in folds
    requires i < j < |Shards(ids, folds, k, jobs)|
    ensures var s := Shards(ids, folds, k, jobs); (s[i].fold, s[i].index) != (s[j].fold, s[j].index)
  {
    var front := Shards(ids, folds, k - 1, jobs);
    if j < |front| {
      LabelsAreUnique(ids, folds, k - 1, jobs, i, j);
    } else if i < |front| {
      ShardsMembers(ids, folds, k - 1, jobs);
      assert ShardWithin(front[i], ids, folds, k - 1);
    }
  }

  // ---------------------------------------------------------------------------------
  // Joining shards
  // ---------------------------------------------------------------------------------

  type ShardDir = map<string, UnitDir>

  datatype MergeError = NoSources | DuplicateCases | Absent(id: string) | HeldTwice(id: string)

  ghost predicate HeldOnce(sources: seq<ShardDir>, id: string) {
    && (exists i :: 0 <= i < |sources| && id in sources[i])
    && forall i, j :: 0 <= i < |sources| && 0 <= j < |sources| && id in sources[i] && id in sources[j] ==> i == j
  }

  /** The sources that hold a case directory, in order. */
  function Owners(sources: seq<ShardDir>, id: string, from: nat): (r: seq<nat>)
    requires from <= |sources|
    ensures forall o :: o in r <==> from <= o < |sources| && id in sources[o]
    ensures forall a, b :: 0 <= a < b < |r| ==> r[a] < r[b]
    decreases |sources| - from
  {
    if from == |sources| then []
    else
      var rest := Owners(sources, id, from + 1);
      assert forall a :: 0 <= a < |rest| ==> rest[a] in rest;
      if id in sources[from] then [from] + rest else rest
  }

  lemma OwnersCount(sources: seq<ShardDir>, id: string)
    ensures HeldOnce(sources, id) <==> |Owners(sources, id, 0)| == 1
    ensures |Owners(sources, id, 0)| == 0 <==> forall i :: 0 <= i < |sources| ==> id !in sources[i]
  {
    var owners := Owners(sources, id, 0);
    if |owners| >= 1 { assert owners[0] in owners; }
    if |owners| >= 2 { assert owners[1] in owners && owners[0] < owners[1]; }
    forall i, j | 0 <= i < j < |sources| && id in sources[i] && id in sources[j] ensures |owners| >= 2 {
      assert i in owners && j in owners;
    }
    forall i | 0 <= i < |sources| && id in sources[i] ensures |owners| >= 1 {
      assert i in owners;
    }
  }

  /** Join the shard runs: refused unless every case is held by exactly one source, else the cases
      in the given order, each as its source holds it. */
  method MergeRuns(sources: seq<ShardDir>, ids: seq<string>) returns (r: Result<seq<UnitDir>, MergeError>)
    ensures r.Ok? <==> sources != [] && Distinct(ids) && forall id :: id in ids ==> HeldOnce(sources, id)
    ensures r.Ok? ==> |r.value| == |ids|
    ensures r.Ok? ==> forall p, i :: 0 <= p < |ids| && 0 <= i < |sources| && ids[p] in sources[i] ==>
              r.value[p] == sources[i][ids[p]]
  {
    if sources == [] { return Err(NoSources); }
    if !(forall i, j :: 0 <= i < j < |ids| ==> ids[i] != ids[j]) { return Err(DuplicateCases); }
    for p := 0 to |ids|
      invariant forall q :: 0 <= q < p ==> |Owners(sources, ids[q], 0)| >= 1
    {
      OwnersCount(sources, ids[p]);
      if |Owners(sources, ids[p], 0)| == 0 {
        assert ids[p] in ids && !HeldOnce(sources, ids[p]);
        return Err(Absent(ids[p]));
      }
    }
    for p := 0 to |ids|
      invariant forall q :: 0 <= q < p ==> |Owners(sources, ids[q], 0)| == 1
    {
      OwnersCount(sources, ids[p]);
      if |Owners(sources, ids[p], 0)| > 1 {
        assert ids[p] in ids && !HeldOnce(sources, ids[p]);
        return Err(HeldTwice(ids[p]));
      }
    }
    forall id | id in ids ensures HeldOnce(sources, id) {
      var q :| 0 <= q < |ids| && ids[q] == id;
      OwnersCount(sources, id);
    }
    var merged := [];
    for p := 0 to |ids|
      invariant |merged| == p
      invariant forall q, i :: 0 <= q < p && 0 <= i < |sources| && ids[q] in sources[i]
                  ==> merged[q] == sources[i][ids[q]]
    {
      assert ids[p] in ids && HeldOnce(sources, ids[p]);
      var owners := Owners(sources, ids[p], 0);
      assert owners[0] in owners;
      merged := merged + [sources[owners[0]][ids[p]]];
    }
    r := Ok(merged);
  }
}
