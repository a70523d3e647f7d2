/** Joining the shards of a finished pass: when the join is refused, and what a changed number of case
    jobs does to it. */
module CampaignJoins {
  import opened Prelude
  import opened Sorting
  import opened CampaignUnits
  import opened Campaign

  // ---------------------------------------------------------------------------------
  // Joining one pass
  // ---------------------------------------------------------------------------------

  /** No shard directory holds a case of the dataset that its shard does not own. */
  ghost predicate NoLeftovers(shards: seq<Shard>, disk: Disk, ids: seq<string>) {
    forall i, id :: 0 <= i < |disk| && id in disk[i] && id in ids ==> i < |shards| && id in shards[i].cases
  }

  /** With every planned case in place, the shards join exactly when nothing is left over. */
  lemma JoinsIffNoLeftovers(shards: seq<Shard>, disk: Disk, ids: seq<string>)
    requires |disk| == |shards|
    requires forall id :: id in ids ==> OwnedOnce(shards, id)
    requires forall i, id :: 0 <= i < |shards| && id in shards[i].cases ==> id in disk[i]
    ensures (forall id :: id in ids ==> HeldOnce(disk, id)) <==> NoLeftovers(shards, disk, ids)
  {
    forall id | id in ids
      ensures HeldOnce(disk, id) <==> forall i :: 0 <= i < |disk| && id in disk[i] ==> id in shards[i].cases
    {
      var o :| OwnedBy(shards, id, o);
      assert id in disk[o];
      if HeldOnce(disk, id) {
        forall i | 0 <= i < |disk| && id in disk[i] ensures id in shards[i].cases {
          assert i == o;
        }
      }
    }
  }

  ghost function Last(run: seq<Pass>): Pass
    requires run != []
  {
    run[|run| - 1]
  }

  /** A pass neither makes nor removes left over directories. */
  lemma LeftoversStay(plan: Plan, run: seq<Pass>, ids: seq<string>)
    requires IsRun(plan, run)
    ensures |run[0].disk| == |Last(run).disk| == |plan.shards|
    ensures NoLeftovers(plan.shards, run[0].disk, ids) <==> NoLeftovers(plan.shards, Last(run).disk, ids)
  {
    RunKeepsInv(plan, run, 0);
    RunKeepsInv(plan, run, |run| - 1);
    forall i: nat, id | i < |plan.shards| && id !in plan.shards[i].cases
      ensures id in run[0].disk[i] <==> id in Last(run).disk[i]
    {
      OthersStay(plan, run, |run| - 1, i, id);
    }
  }

  /** A finished pass holds every planned case. */
  lemma FinishedHolds(plan: Plan, run: seq<Pass>)
    requires IsRun(plan, run) && Last(run).phase.Finished?
    ensures |Last(run).disk| == |plan.shards|
    ensures forall i, id :: 0 <= i < |plan.shards| && id in plan.shards[i].cases ==> id in Last(run).disk[i]
  {
    RunKeepsInv(plan, run, |run| - 1);
    forall i, id | 0 <= i < |plan.shards| && id in plan.shards[i].cases ensures id in Last(run).disk[i] {
      assert IsUnit(plan, (i, id));
      assert Scorable(Last(run), (i, id));
    }
  }

  /** A finished pass is joined exactly when the process found nothing left over as it started.  Then or
      not, every unit reads as graded if it is good, and else as missed. */
  lemma FinishedPassJoinsIff(plan: Plan, run: seq<Pass>, ids: seq<string>)
    requires IsRun(plan, run) && Last(run).phase.Finished?
    requires forall id :: id in ids ==> OwnedOnce(plan.shards, id)
    ensures (forall id :: id in ids ==> HeldOnce(Last(run).disk, id)) <==> NoLeftovers(plan.shards, run[0].disk, ids)
    ensures forall u :: IsUnit(plan, u) ==>
              if GoodUnit(Dir(Last(run).disk, u)) then ReadsGraded(Dir(Last(run).disk, u))
              else ReadsMissed(Dir(Last(run).disk, u))
  {
    LeftoversStay(plan, run, ids);
    FinishedHolds(plan, run);
    JoinsIffNoLeftovers(plan.shards, Last(run).disk, ids);
    RunKeepsInv(plan, run, |run| - 1);
    forall u: UnitId | IsUnit(plan, u)
      ensures if GoodUnit(Dir(Last(run).disk, u)) then ReadsGraded(Dir(Last(run).disk, u))
              else ReadsMissed(Dir(Last(run).disk, u))
    {
      assert Scorable(Last(run), u);
    }
  }

  /** Shard, run, finalise, merge: a pass over the shards of a dataset that starts with nothing left over
      and finishes with every `run.json` always yields the dataset in order. */
  method MergePass(ids: seq<string>, folds: map<string, nat>, k: nat, jobs: nat, maxAttempts: nat,
                   ghost run: seq<Pass>, disk: Disk)
    returns (merged: seq<UnitDir>)
    requires jobs >= 1 && ids != [] && Distinct(ids) && forall id :: id in ids ==> id in folds && folds[id] < k
    requires IsRun(Plan(Shards(ids, folds, k, jobs), maxAttempts), run)
    requires NoLeftovers(Shards(ids, folds, k, jobs), run[0].disk, ids)
    requires Last(run).phase == Finished(true) && disk == Last(run).disk
    ensures |merged| == |ids|
    ensures forall p :: 0 <= p < |ids| ==>
              ReadsGraded(merged[p]) || ReadsMissed(merged[p])
    ensures forall p, i :: 0 <= p < |ids| && 0 <= i < |disk| && ids[p] in disk[i] ==> merged[p] == disk[i][ids[p]]
  {
    ghost var plan := Plan(Shards(ids, folds, k, jobs), maxAttempts);
    forall id | id in ids ensures OwnedOnce(plan.shards, id) {
      EveryCaseHasOneShard(ids, folds, k, jobs, id);
    }
    FinishedPassJoinsIff(plan, run, ids);
    FinishedHolds(plan, run);
    assert disk != [] by {
      assert ids[0] in ids && HeldOnce(disk, ids[0]);
    }
    var r := MergeRuns(disk, ids);
    merged := r.value;
    forall p | 0 <= p < |ids| ensures ReadsGraded(merged[p]) || ReadsMissed(merged[p]) {
      assert ids[p] in ids && OwnedOnce(plan.shards, ids[p]);
      var i :| OwnedBy(plan.shards, ids[p], i);
      assert IsUnit(plan, (i, ids[p])) && Dir(disk, (i, ids[p])) == merged[p];
    }
  }

  // ---------------------------------------------------------------------------------
  // Resuming with another number of case jobs
  // ---------------------------------------------------------------------------------

  /** What stands under the name of a shard: its directory depends on the fold and the index alone. */
  function Named<T>(shards: seq<Shard>, things: seq<T>, fold: nat, index: nat, absent: T): T
    requires |things| == |shards|
  {
    if shards == [] then absent
    else
      var last := |shards| - 1;
      if shards[last].fold == fold && shards[last].index == index then things[last]
      else Named(shards[..last], things[..last], fold, index, absent)
  }

  /** What the shards of a second plan find under their names. */
  function Carried<T>(first: seq<Shard>, things: seq<T>, second: seq<Shard>, absent: T): (r: seq<T>)
    requires |things| == |first|
    ensures |r| == |second|
    ensures forall i :: 0 <= i < |r| ==> r[i] == Named(first, things, second[i].fold, second[i].index, absent)
  {
    seq(|second|, i requires 0 <= i < |second| =>
      Named(first, things, second[i].fold, second[i].index, absent))
  }

  /** A process that starts on what a pass with other shards left. */
  ghost predicate Resumes(first: seq<Shard>, s: Pass, second: seq<Shard>, t: Pass) {
    && |s.disk| == |s.runJson| == |first|
    && t == Pass(Carried(first, s.disk, second, map[]), Carried(first, s.runJson, second, false), Idle, [])
  }

  ghost predicate SameName(a: Shard, b: Shard) {
    a.fold == b.fold && a.index == b.index
  }

  lemma {:induction false} NamedIs<T>(shards: seq<Shard>, things: seq<T>, i: nat, absent: T)
    requires |things| == |shards| && i < |shards|
    requires forall a, b :: 0 <= a < b < |shards| ==> !SameName(shards[a], shards[b])
    ensures Named(shards, things, shards[i].fold, shards[i].index, absent) == things[i]
    decreases |shards|
  {
    var last := |shards| - 1;
    if i < last {
      assert !SameName(shards[i], shards[last]);
      NamedIs(shards[..last], things[..last], i, absent);
    }
  }

  lemma {:induction false} NamedAbsent<T>(shards: seq<Shard>, things: seq<T>, s: Shard, absent: T)
    requires |things| == |shards| && forall a :: 0 <= a < |shards| ==> !SameName(shards[a], s)
    ensures Named(shards, things, s.fold, s.index, absent) == absent
    decreases |shards|
  {
    if shards != [] {
      var last := |shards| - 1;
      assert !SameName(shards[last], s);
      NamedAbsent(shards[..last], things[..last], s, absent);
    }
  }

  /** The parts a fold is dealt into. */
  function Dealt(ids: seq<string>, folds: map<string, nat>, j: nat, jobs: nat): seq<seq<string>>
    requires jobs >= 1 && forall id :: id in ids ==> id in folds
  {
    ShardIds(CasesInFold(ids, folds, j), jobs)
  }

  ghost predicate IsPart(shard: Shard, ids: seq<string>, folds: map<string, nat>, k: nat, jobs: nat)
    requires jobs >= 1 && forall id :: id in ids ==> id in folds
  {
    && shard.fold < k && shard.index < |Dealt(ids, folds, shard.fold, jobs)|
    && shard.cases == Dealt(ids, folds, shard.fold, jobs)[shard.index]
  }

  /** Every shard of a plan is a part of its fold ... */
  lemma {:induction false} ShardIsPart(ids: seq<string>, folds: map<string, nat>, k: nat, jobs: nat, i: nat)
    requires jobs >= 1 && forall id :: id in ids ==> id in folds
    requires i < |Shards(ids, folds, k, jobs)|
    ensures IsPart(Shards(ids, folds, k, jobs)[i], ids, folds, k, jobs)
  {
    if i < |Shards(ids, folds, k - 1, jobs)| {
      ShardIsPart(ids, folds, k - 1, jobs, i);
    }
  }

  /** ... and every part of a fold is a shard. */
  lemma {:induction false} PartIsShard(ids: seq<string>, folds: map<string, nat>, k: nat, jobs: nat, j: nat, r: nat)
    returns (i: nat)
    requires jobs >= 1 && forall id :: id in ids ==> id in folds
    requires j < k && r < |Dealt(ids, folds, j, jobs)|
    ensures i < |Shards(ids, folds, k, jobs)|
    ensures Shards(ids, folds, k, jobs)[i] == Shard(j, r, Dealt(ids, folds, j, jobs)[r])
  {
    if j == k - 1 {
      i := |Shards(ids, folds, k - 1, jobs)| + r;
    } else {
      i := PartIsShard(ids, folds, k - 1, jobs, j, r);
    }
  }

  lemma NamesAreUnique(ids: seq<string>, folds: map<string, nat>, k: nat, jobs: nat)
    requires jobs >= 1 && forall id :: id in ids ==> id in folds
    ensures var s := Shards(ids, folds, k, jobs); forall a, b :: 0 <= a < b < |s| ==> !SameName(s[a], s[b])
  {
    var s := Shards(ids, folds, k, jobs);
    forall a, b | 0 <= a < b < |s| ensures !SameName(s[a], s[b]) {
      LabelsAreUnique(ids, folds, k, jobs, a, b);
    }
  }

  /** A part of a fold keeps its cases when the fold is dealt otherwise, if there still is such a part. */
  ghost predicate PartKeeps(mine: seq<string>, jobs: nat, jobs': nat, r: nat)
    requires jobs >= 1 && jobs' >= 1
  {
    r < |ShardIds(mine, jobs)| && r < |ShardIds(mine, jobs')|
    ==> forall id :: id in ShardIds(mine, jobs)[r] ==> id in ShardIds(mine, jobs')[r]
  }

  /** Two numbers of jobs deal `m` cases so that no part gets a stranger's case. */
  predicate DealsAgree(m: nat, jobs: nat, jobs': nat)
    requires jobs' >= 1
  {
    m <= jobs || jobs % jobs' == 0
  }

  lemma StrideHas(ids: seq<string>, start: nat, step: nat, id: string) returns (q: nat)
    requires step > 0 && id in Stride(ids, start, step)
    ensures start + q * step < |ids| && ids[start + q * step] == id
  {
    q :| q < |Stride(ids, start, step)| && Stride(ids, start, step)[q] == id;
    StrideElement(ids, start, step, q);
  }

  lemma SameRemainder(r: nat, q: nat, n: nat, c: nat, n': nat)
    requires r < n' && n == c * n'
    ensures (r + q * n) % n' == r
  {
    assert q * n == (q * c) * n';
    QuotientIs(r + q * n, n', q * c, r);
  }

  lemma FirstLap(r: nat, q: nat, m: nat)
    requires m >= 1 && r + q * m < m
    ensures q == 0
  {
    assert q >= 1 ==> q * m >= m;
  }

  lemma Divides(n: nat, n': nat) returns (c: nat)
    requires n' >= 1 && n >= 1 && n % n' == 0
    ensures n == c * n' && n' <= n
  {
    c := n / n';
    assert n == c * n' + n % n';
    if n' > n {
      QuotientIs(n, n', 0, n);
    }
  }

  lemma PositionAgrees(m: nat, jobs: nat, jobs': nat, n: nat, n': nat, r: nat, q: nat)
    requires jobs >= 1 && jobs' >= 1 && n == Min(jobs, m) && n' == Min(jobs', m) && DealsAgree(m, jobs, jobs')
    requires r < n && r < n' && r + q * n < m
    ensures (r + q * n) % n' == r
  {
    if m <= jobs {
      FirstLap(r, q, m);
      QuotientIs(r, n', 0, r);
    } else {
      var c := Divides(jobs, jobs');
      SameRemainder(r, q, n, c, n');
    }
  }

  lemma AgreeingPart(mine: seq<string>, jobs: nat, jobs': nat, r: nat, id: string)
    requires jobs >= 1 && jobs' >= 1 && DealsAgree(|mine|, jobs, jobs')
    requires r < |ShardIds(mine, jobs)| && r < |ShardIds(mine, jobs')| && id in ShardIds(mine, jobs)[r]
    ensures id in ShardIds(mine, jobs')[r]
  {
    var n, n' := |ShardIds(mine, jobs)|, |ShardIds(mine, jobs')|;
    var q := StrideHas(mine, r, n, id);
    var p := r + q * n;
    PositionAgrees(|mine|, jobs, jobs', n, n', r, q);
    PartHas(mine, n', p, r);
  }

  lemma PartHas(mine: seq<string>, n: nat, p: nat, r: nat)
    requires n > 0 && p < |mine| && p % n == r
    ensures mine[p] in Stride(mine, r, n)
  {
    ShardOfPosition(mine, n, p);
  }

  lemma PartsKeepIff(mine: seq<string>, jobs: nat, jobs': nat)
    requires jobs >= 1 && jobs' >= 1 && Distinct(mine)
    ensures (forall r: nat :: PartKeeps(mine, jobs, jobs', r)) <==> DealsAgree(|mine|, jobs, jobs')
  {
    if DealsAgree(|mine|, jobs, jobs') {
      forall r: nat ensures PartKeeps(mine, jobs, jobs', r) {
        if r < |ShardIds(mine, jobs)| && r < |ShardIds(mine, jobs')| {
          forall id | id in ShardIds(mine, jobs)[r] ensures id in ShardIds(mine, jobs')[r] {
            AgreeingPart(mine, jobs, jobs', r, id);
          }
        }
      }
    } else {
      FirstPartStrays(mine, jobs, jobs');
    }
  }

  /** Otherwise the first part held the case at position `jobs`, which is another part's now. */
  lemma FirstPartStrays(mine: seq<string>, jobs: nat, jobs': nat)
    requires jobs >= 1 && jobs' >= 1 && Distinct(mine) && !DealsAgree(|mine|, jobs, jobs')
    ensures !PartKeeps(mine, jobs, jobs', 0)
  {
    var n' := |ShardIds(mine, jobs')|;
    StrideElement(mine, 0, jobs, 1);
    var id := mine[jobs];
    assert Stride(mine, 0, jobs)[1] == id;
    assert id in ShardIds(mine, jobs)[0];
    if id in ShardIds(mine, jobs')[0] {
      var q :| 0 <= q < |Stride(mine, 0, n')| && Stride(mine, 0, n')[q] == id;
      ShardOnlyOfPosition(mine, n', jobs, 0, q);
    }
  }

  ghost predicate DealtSafely(ids: seq<string>, folds: map<string, nat>, k: nat, jobs: nat, jobs': nat)
    requires jobs' >= 1 && forall id :: id in ids ==> id in folds
  {
    forall j: nat :: j < k ==> DealsAgree(|CasesInFold(ids, folds, j)|, jobs, jobs')
  }

  /** The directories hold exactly what the shards own. */
  ghost predicate Exact(shards: seq<Shard>, disk: Disk, ids: seq<string>) {
    && |disk| == |shards|
    && NoLeftovers(shards, disk, ids)
    && forall i, id :: 0 <= i < |shards| && id in shards[i].cases ==> id in disk[i]
  }

  /** What part `r` of fold `j` finds: the part of the first deal with that name, if there was one. */
  lemma CarriedPart(ids: seq<string>, folds: map<string, nat>, k: nat, jobs: nat, disk: Disk, j: nat, r: nat,
                    id: string)
    requires jobs >= 1 && (forall x :: x in ids ==> x in folds) && j < k && id in ids
    requires Exact(Shards(ids, folds, k, jobs), disk, ids)
    ensures id in Named(Shards(ids, folds, k, jobs), disk, j, r, map[])
       <==> r < |Dealt(ids, folds, j, jobs)| && id in Dealt(ids, folds, j, jobs)[r]
  {
    var first := Shards(ids, folds, k, jobs);
    NamesAreUnique(ids, folds, k, jobs);
    if r < |Dealt(ids, folds, j, jobs)| {
      var i := PartIsShard(ids, folds, k, jobs, j, r);
      NamedIs(first, disk, i, map[]);
    } else {
      forall a | 0 <= a < |first| ensures !SameName(first[a], Shard(j, r, [])) {
        ShardIsPart(ids, folds, k, jobs, a);
      }
      NamedAbsent(first, disk, Shard(j, r, []), map[]);
    }
  }

  lemma PartWithin(ids: seq<string>, folds: map<string, nat>, j: nat, jobs: nat, r: nat, id: string)
    requires jobs >= 1 && (forall x :: x in ids ==> x in folds)
    requires r < |Dealt(ids, folds, j, jobs)| && id in Dealt(ids, folds, j, jobs)[r]
    ensures id in ids
  {
    CasesInFoldMembers(ids, folds, j);
    StrideMembers(CasesInFold(ids, folds, j), r, |Dealt(ids, folds, j, jobs)|);
  }

  /** When every part keeps its cases, a resumed pass finds nothing left over ... */
  lemma KeptPartsLeaveNothing(ids: seq<string>, folds: map<string, nat>, k: nat, jobs: nat, jobs': nat, disk: Disk)
    requires jobs >= 1 && jobs' >= 1 && (forall x :: x in ids ==> x in folds)
    requires Exact(Shards(ids, folds, k, jobs), disk, ids)
    requires forall j: nat, r: nat :: j < k ==> PartKeeps(CasesInFold(ids, folds, j), jobs, jobs', r)
    ensures var second := Shards(ids, folds, k, jobs');
            NoLeftovers(second, Carried(Shards(ids, folds, k, jobs), disk, second, map[]), ids)
  {
    var first, second := Shards(ids, folds, k, jobs), Shards(ids, folds, k, jobs');
    var carried := Carried(first, disk, second, map[]);
    forall i, id | 0 <= i < |carried| && id in carried[i] && id in ids ensures id in second[i].cases {
      ShardIsPart(ids, folds, k, jobs', i);
      CarriedPart(ids, folds, k, jobs, disk, second[i].fold, second[i].index, id);
      assert PartKeeps(CasesInFold(ids, folds, second[i].fold), jobs, jobs', second[i].index);
    }
  }

  /** ... and otherwise it finds a case that is another shard's now. */
  lemma NothingLeftKeepsParts(ids: seq<string>, folds: map<string, nat>, k: nat, jobs: nat, jobs': nat, disk: Disk,
                              j: nat, r: nat)
    requires jobs >= 1 && jobs' >= 1 && (forall x :: x in ids ==> x in folds) && j < k
    requires Exact(Shards(ids, folds, k, jobs), disk, ids)
    requires var second := Shards(ids, folds, k, jobs');
             NoLeftovers(second, Carried(Shards(ids, folds, k, jobs), disk, second, map[]), ids)
    ensures PartKeeps(CasesInFold(ids, folds, j), jobs, jobs', r)
  {
    if r < |Dealt(ids, folds, j, jobs)| && r < |Dealt(ids, folds, j, jobs')| {
      var i := PartIsShard(ids, folds, k, jobs', j, r);
      forall id | id in Dealt(ids, folds, j, jobs)[r] ensures id in Dealt(ids, folds, j, jobs')[r] {
        PartWithin(ids, folds, j, jobs, r, id);
        CarriedPart(ids, folds, k, jobs, disk, j, r, id);
      }
    }
  }

  lemma CarriedIsCleanIff(ids: seq<string>, folds: map<string, nat>, k: nat, jobs: nat, jobs': nat, disk: Disk)
    requires jobs >= 1 && jobs' >= 1 && Distinct(ids) && (forall x :: x in ids ==> x in folds)
    requires Exact(Shards(ids, folds, k, jobs), disk, ids)
    ensures var second := Shards(ids, folds, k, jobs');
            NoLeftovers(second, Carried(Shards(ids, folds, k, jobs), disk, second, map[]), ids)
            <==> DealtSafely(ids, folds, k, jobs, jobs')
  {
    forall j: nat | j < k
      ensures (forall r: nat :: PartKeeps(CasesInFold(ids, folds, j), jobs, jobs', r))
         <==> DealsAgree(|CasesInFold(ids, folds, j)|, jobs, jobs')
    {
      CasesInFoldMembers(ids, folds, j);
      PartsKeepIff(CasesInFold(ids, folds, j), jobs, jobs');
    }
    var second := Shards(ids, folds, k, jobs');
    if NoLeftovers(second, Carried(Shards(ids, folds, k, jobs), disk, second, map[]), ids) {
      forall j: nat, r: nat | j < k ensures PartKeeps(CasesInFold(ids, folds, j), jobs, jobs', r) {
        NothingLeftKeepsParts(ids, folds, k, jobs, jobs', disk, j, r);
      }
    }
    if DealtSafely(ids, folds, k, jobs, jobs') {
      KeptPartsLeaveNothing(ids, folds, k, jobs, jobs', disk);
    }
  }

  /** A pass finished with `jobs` case jobs and then resumed, and finished again, with `jobs'`: the join
      succeeds exactly when, in every fold, the first run had a job for every case or `jobs'` divides
      `jobs`.  Otherwise a case stands in two shard directories. */
  lemma ResumedPassJoinsIff(ids: seq<string>, folds: map<string, nat>, k: nat, jobs: nat, jobs': nat,
                            attempts: nat, attempts': nat, run: seq<Pass>, run': seq<Pass>)
    requires jobs >= 1 && jobs' >= 1 && Distinct(ids) && forall id :: id in ids ==> id in folds && folds[id] < k
    requires IsRun(Plan(Shards(ids, folds, k, jobs), attempts), run) && Last(run).phase.Finished?
    requires NoLeftovers(Shards(ids, folds, k, jobs), run[0].disk, ids)
    requires IsRun(Plan(Shards(ids, folds, k, jobs'), attempts'), run') && Last(run').phase.Finished?
    requires Resumes(Shards(ids, folds, k, jobs), Last(run), Shards(ids, folds, k, jobs'), run'[0])
    ensures (forall id :: id in ids ==> HeldOnce(Last(run').disk, id)) <==> DealtSafely(ids, folds, k, jobs, jobs')
  {
    var first, second := Plan(Shards(ids, folds, k, jobs), attempts), Plan(Shards(ids, folds, k, jobs'), attempts');
    LeftoversStay(first, run, ids);
    FinishedHolds(first, run);
    forall id | id in ids ensures OwnedOnce(second.shards, id) {
      EveryCaseHasOneShard(ids, folds, k, jobs', id);
    }
    FinishedPassJoinsIff(second, run', ids);
    CarriedIsCleanIff(ids, folds, k, jobs, jobs', Last(run).disk);
  }

  lemma {:induction false} OneFoldIsAll(ids: seq<string>, folds: map<string, nat>)
    requires forall id :: id in ids ==> id in folds && folds[id] == 0
    ensures CasesInFold(ids, folds, 0) == ids
  {
    if ids != [] {
      assert ids[0] in ids;
      assert forall id :: id in ids[1..] ==> id in ids;
      OneFoldIsAll(ids[1..], folds);
    }
  }

  /** For an arm that mines nothing the condition is on the dataset as a whole. */
  lemma OneFoldDealtSafely(ids: seq<string>, jobs: nat, jobs': nat)
    requires jobs' >= 1
    ensures DealtSafely(ids, OneFold(ids), 1, jobs, jobs') <==> |ids| <= jobs || jobs % jobs' == 0
  {
    OneFoldIsAll(ids, OneFold(ids));
    assert DealsAgree(|CasesInFold(ids, OneFold(ids), 0)|, jobs, jobs') <==> DealsAgree(|ids|, jobs, jobs');
  }
}
