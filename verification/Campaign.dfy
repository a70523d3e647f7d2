/** One pass of a campaign as a protocol: shards run side by side, any step may be the last before
    a crash, and the pass is resumed from what is on disk.  The theorems are about every run of
    this machine, over any number of crashes and resumptions. */
module Campaign {
  import opened Prelude
  import opened Sorting
  import opened CampaignUnits

  datatype Plan = Plan(shards: seq<Shard>, maxAttempts: nat)

  /** One case of one shard, by shard position. */
  type UnitId = (nat, string)

  type Disk = seq<ShardDir>

  function Dir(disk: Disk, u: UnitId): UnitDir {
    if u.0 < |disk| && u.1 in disk[u.0] then disk[u.0][u.1] else EMPTY_DIR
  }

  function Write(disk: Disk, u: UnitId, d: UnitDir): Disk
    requires u.0 < |disk|
  {
    disk[u.0 := disk[u.0][u.1 := d]]
  }

  ghost predicate IsUnit(plan: Plan, u: UnitId) {
    u.0 < |plan.shards| && u.1 in plan.shards[u.0].cases
  }

  type States = map<UnitId, Status>

  /** One attempt: `todo` are the shards run, `at` the next case of each shard still running, `whole`
      the shards that ran to their end, `refused` whether some shard exited 2. */
  datatype Attempt = Attempt(number: nat, states: States, todo: set<nat>)

  datatype Phase =
    | Idle
    | Checked(attempt: nat, states: States)
    | Resetting(run: Attempt, left: set<UnitId>)
    | Running(run: Attempt, at: map<nat, nat>, whole: set<nat>, refused: bool)
    | Finalizing(tries: nat, last: States, pending: set<UnitId>)
    | Finished(merged: bool)
    | Aborted

  /** `log` are the cases executed since the process started, each with its attempt. */
  datatype Pass = Pass(disk: Disk, runJson: seq<bool>, phase: Phase, log: seq<(nat, UnitId)>)

  datatype Step =
    | Begin
    | StartAttempt
    | Reset(unit: UnitId)
    | Launch
    | RunNext(shard: nat, outcome: Outcome)
    | CloseShard(shard: nat)
    | KillShard(shard: nat, exitTwo: bool)
    | EndAttempt
    | StartFinalize
    | FinalizeOne(unit: UnitId, hit: bool)
    | FinalizeTorn(unit: UnitId)
    | Finish
    | Crash

  ghost function Check(plan: Plan, disk: Disk): States {
    map u: UnitId | u in AllUnits(plan) :: UnitState(Dir(disk, u))
  }

  ghost function AllUnits(plan: Plan): (r: set<UnitId>)
    ensures forall u: UnitId :: u in r <==> IsUnit(plan, u)
  {
    set i, k | 0 <= i < |plan.shards| && 0 <= k < |plan.shards[i].cases| :: (i, plan.shards[i].cases[k])
  }

  ghost predicate ShardDone(plan: Plan, s: Pass, states: States, i: nat) {
    && i < |s.runJson| && s.runJson[i]
    && forall u: UnitId :: IsUnit(plan, u) && u.0 == i ==> u in states && states[u] == UnitOk
  }

  ghost function Todo(plan: Plan, s: Pass, states: States): set<nat> {
    set i: nat | 0 <= i < |plan.shards| && !ShardDone(plan, s, states, i)
  }

  ghost function Failing(plan: Plan, states: States): set<UnitId> {
    set u | u in AllUnits(plan) && u in states && states[u] != UnitOk
  }

  /** Whether the case a running shard is at exists, and which unit it is. */
  ghost predicate At(plan: Plan, p: Phase, i: nat, u: UnitId) {
    && p.Running? && i in p.at && i < |plan.shards| && p.at[i] < |plan.shards[i].cases|
    && u == (i, plan.shards[i].cases[p.at[i]])
  }

  ghost predicate Next(plan: Plan, s: Pass, t: Pass, step: Step) {
    match step
    case Begin =>
      && s.phase.Idle?
      && t == s.(phase := Checked(0, Check(plan, s.disk)), log := [])
    case StartAttempt =>
      && s.phase.Checked? && s.phase.attempt < plan.maxAttempts
      && Todo(plan, s, s.phase.states) != {}
      && var todo := Todo(plan, s, s.phase.states);
         t == s.(phase := Resetting(Attempt(s.phase.attempt + 1, s.phase.states, todo),
                                    set u | u in Failing(plan, s.phase.states) && u.0 in todo))
    case Reset(u) =>
      && s.phase.Resetting? && u in s.phase.left && u.0 < |s.disk|
      && (if Dir(s.disk, u) == EMPTY_DIR then t == s.(phase := Resetting(s.phase.run, s.phase.left - {u}))
          else t == s.(disk := Write(s.disk, u, ResetOne(Dir(s.disk, u)))))
    case Launch =>
      && s.phase.Resetting? && s.phase.left == {}
      && t == s.(phase := Running(s.phase.run, map i | i in s.phase.run.todo :: 0, {}, false))
    case RunNext(i, outcome) =>
      exists u :: At(plan, s.phase, i, u) && i < |s.disk| && RunsTo(s, t, i, u, outcome)
    case CloseShard(i) =>
      && s.phase.Running? && i in s.phase.at && i < |plan.shards| && i < |s.runJson|
      && s.phase.at[i] == |plan.shards[i].cases|
      && t == s.(phase := s.phase.(at := s.phase.at - {i}, whole := s.phase.whole + {i}),
                 runJson := s.runJson[i := true])
    case KillShard(i, exitTwo) =>
      && s.phase.Running? && i in s.phase.at
      && t == s.(phase := s.phase.(at := s.phase.at - {i}, refused := s.phase.refused || exitTwo))
    case EndAttempt =>
      && s.phase.Running? && s.phase.at == map[]
      && t == s.(phase := if s.phase.refused then Aborted else Checked(s.phase.run.number, Check(plan, s.disk)))
    case StartFinalize =>
      && s.phase.Checked?
      && (s.phase.attempt >= plan.maxAttempts || Todo(plan, s, s.phase.states) == {})
      && t == s.(phase := Finalizing(s.phase.attempt, s.phase.states, Failing(plan, s.phase.states)))
    case FinalizeOne(u, hit) =>
      && s.phase.Finalizing? && u in s.phase.pending && u in s.phase.last && u.0 < |s.disk|
      && t == s.(phase := Finalizing(s.phase.tries, s.phase.last, s.phase.pending - {u}),
                 disk := Write(s.disk, u, Finalize(Dir(s.disk, u), s.phase.last[u], hit)))
    case FinalizeTorn(u) =>
      // the record was moved aside, and the process died before the error was written
      && s.phase.Finalizing? && u in s.phase.pending && u in s.phase.last && u.0 < |s.disk|
      && Finalize(Dir(s.disk, u), s.phase.last[u], true) != Dir(s.disk, u)
      && t == s.(phase := Idle, disk := Write(s.disk, u, Dir(s.disk, u).(record := None)))
    case Finish =>
      && s.phase.Finalizing? && s.phase.pending == {}
      && t == s.(phase := Finished(forall i :: 0 <= i < |s.runJson| ==> s.runJson[i]))
    case Crash =>
      t == s.(phase := Idle)
  }

  /** A running shard takes its next case: skipped when it has a record or an error, else executed;
      a killed process ends the shard there. */
  ghost predicate RunsTo(s: Pass, t: Pass, i: nat, u: UnitId, outcome: Outcome)
    requires s.phase.Running? && i in s.phase.at && u.0 < |s.disk|
  {
    if AlreadyRecorded(Dir(s.disk, u)) then
      t == s.(phase := s.phase.(at := s.phase.at[i := s.phase.at[i] + 1]))
    else
      t == s.(disk := Write(s.disk, u, Ran(outcome)),
              log := s.log + [(s.phase.run.number, u)],
              phase := s.phase.(at := if outcome.Died? then s.phase.at - {i} else s.phase.at[i := s.phase.at[i] + 1]))
  }

  // ---------------------------------------------------------------------------------
  // The invariant
  // ---------------------------------------------------------------------------------

  ghost predicate PlanOk(plan: Plan) {
    forall i :: 0 <= i < |plan.shards| ==> Distinct(plan.shards[i].cases)
  }

  /** Each directory holds one result at most.  Directories of cases that are not planned may stand
      beside the planned ones. */
  ghost predicate DiskOk(plan: Plan, s: Pass) {
    && |s.disk| == |s.runJson| == |plan.shards|
    && forall u: UnitId :: OneResult(Dir(s.disk, u))
  }

  /** The states an attempt works from: defined on all units, and a unit then ok is ok now. */
  ghost predicate StatesOk(plan: Plan, s: Pass, states: States) {
    forall u: UnitId :: IsUnit(plan, u) ==>
      u in states && (states[u] == UnitOk ==> UnitState(Dir(s.disk, u)) == UnitOk)
  }

  ghost predicate AttemptOk(plan: Plan, s: Pass, run: Attempt) {
    && 1 <= run.number <= plan.maxAttempts
    && StatesOk(plan, s, run.states)
    && (forall i :: i in run.todo ==> i < |plan.shards|)
    && (forall u: UnitId :: IsUnit(plan, u) && u.0 !in run.todo ==> run.states[u] == UnitOk)
  }

  ghost predicate LogOk(log: seq<(nat, UnitId)>, upto: nat) {
    && (forall k :: 0 <= k < |log| ==> 1 <= log[k].0 <= upto)
    && forall j, k :: 0 <= j < k < |log| ==> log[j] != log[k]
  }

  /** Position of a case in its shard. */
  ghost predicate AtPosition(plan: Plan, u: UnitId, k: nat) {
    u.0 < |plan.shards| && k < |plan.shards[u.0].cases| && plan.shards[u.0].cases[k] == u.1
  }

  /** In a running shard the cases before the current one were executed in this attempt exactly if
      they were not ok at its start, and the failed ones still to come have been reset. */
  ghost predicate ProgressOk(plan: Plan, s: Pass, run: Attempt, i: nat, at: nat) {
    && i < |plan.shards| && at <= |plan.shards[i].cases|
    && forall k :: 0 <= k < |plan.shards[i].cases| ==>
         var u := (i, plan.shards[i].cases[k]);
         && (k < at ==> ((run.number, u) in s.log <==> u in run.states && run.states[u] != UnitOk))
         && (k >= at ==> (run.number, u) !in s.log)
         && (k >= at && u in run.states && run.states[u] != UnitOk ==> Dir(s.disk, u) == EMPTY_DIR)
  }

  /** A shard that ran to its end executed exactly its failed cases. */
  ghost predicate RanExactly(plan: Plan, s: Pass, run: Attempt, i: nat) {
    i < |plan.shards| && forall k :: 0 <= k < |plan.shards[i].cases| ==>
      var u := (i, plan.shards[i].cases[k]);
      ((run.number, u) in s.log <==> u in run.states && run.states[u] != UnitOk)
  }

  ghost predicate ResettingOk(plan: Plan, s: Pass, run: Attempt, left: set<UnitId>) {
    && AttemptOk(plan, s, run) && LogOk(s.log, run.number - 1)
    && (forall u: UnitId :: u in left ==> IsUnit(plan, u) && UnitState(Dir(s.disk, u)) != UnitOk)
    && forall u: UnitId :: IsUnit(plan, u) && u.0 in run.todo && run.states[u] != UnitOk && u !in left
         ==> Dir(s.disk, u) == EMPTY_DIR
  }

  ghost predicate RunningOk(plan: Plan, s: Pass, run: Attempt, at: map<nat, nat>, whole: set<nat>) {
    && AttemptOk(plan, s, run) && LogOk(s.log, run.number)
    && (forall i :: i in at ==> i in run.todo && i !in whole && ProgressOk(plan, s, run, i, at[i]))
    && (forall i :: i in whole ==> RanExactly(plan, s, run, i))
  }

  /** A failing unit has been finalised. */
  ghost predicate Settled(s: Pass, u: UnitId) {
    && u.0 < |s.disk| && u.1 in s.disk[u.0]
    && !GoodUnit(Dir(s.disk, u)) && ReadsMissed(Dir(s.disk, u))
  }

  ghost predicate FinalizingOk(plan: Plan, s: Pass, states: States, left: set<UnitId>) {
    && StatesOk(plan, s, states)
    && (forall u: UnitId :: u in left ==>
          IsUnit(plan, u) && states[u] != UnitOk && UnitState(Dir(s.disk, u)) == states[u])
    && (forall u: UnitId :: IsUnit(plan, u) && states[u] != UnitOk && u !in left ==> Settled(s, u))
  }

  /** A unit of a finished pass has a directory, and is good or scores as missed. */
  ghost predicate Scorable(s: Pass, u: UnitId) {
    && u.0 < |s.disk| && u.1 in s.disk[u.0]
    && (GoodUnit(Dir(s.disk, u)) || ReadsMissed(Dir(s.disk, u)))
  }

  ghost predicate Inv(plan: Plan, s: Pass) {
    && PlanOk(plan) && DiskOk(plan, s) && LogOk(s.log, plan.maxAttempts)
    && match s.phase
       case Idle => true
       case Checked(attempt, states) =>
         attempt <= plan.maxAttempts && states == Check(plan, s.disk) && LogOk(s.log, attempt)
       case Resetting(run, left) => ResettingOk(plan, s, run, left)
       case Running(run, at, whole, _) => RunningOk(plan, s, run, at, whole)
       case Finalizing(_, states, left) => FinalizingOk(plan, s, states, left)
       case Finished(merged) =>
         && merged == (forall i :: 0 <= i < |s.runJson| ==> s.runJson[i])
         && forall u: UnitId :: IsUnit(plan, u) ==> Scorable(s, u)
       case Aborted => true
  }

  // ---------------------------------------------------------------------------------
  // Each step keeps the invariant
  // ---------------------------------------------------------------------------------

  lemma DirAfterWrite(disk: Disk, u: UnitId, d: UnitDir, v: UnitId)
    requires u.0 < |disk|
    ensures Dir(Write(disk, u, d), v) == if v == u then d else Dir(disk, v)
  {
  }

  lemma WriteKeepsDisk(plan: Plan, s: Pass, t: Pass, u: UnitId, d: UnitDir)
    requires DiskOk(plan, s) && u.0 < |s.disk| && OneResult(d)
    requires t.disk == Write(s.disk, u, d) && |t.runJson| == |s.runJson|
    ensures DiskOk(plan, t)
  {
    forall v: UnitId ensures OneResult(Dir(t.disk, v)) {
      DirAfterWrite(s.disk, u, d, v);
    }
  }

  lemma StartAttemptKeeps(plan: Plan, s: Pass, t: Pass)
    requires Inv(plan, s) && Next(plan, s, t, StartAttempt)
    ensures Inv(plan, t)
  {
    var todo := Todo(plan, s, s.phase.states);
    forall u: UnitId | IsUnit(plan, u) && u.0 !in todo ensures s.phase.states[u] == UnitOk {
      assert ShardDone(plan, s, s.phase.states, u.0);
    }
  }

  lemma ResetKeeps(plan: Plan, s: Pass, t: Pass, u: UnitId)
    requires Inv(plan, s) && Next(plan, s, t, Reset(u))
    ensures Inv(plan, t)
  {
    var d := ResetOne(Dir(s.disk, u));
    InterruptedResetIsNotOk(Dir(s.disk, u));
    if Dir(s.disk, u) != EMPTY_DIR {
      WriteKeepsDisk(plan, s, t, u, d);
      forall v: UnitId ensures Dir(t.disk, v) == if v == u then d else Dir(s.disk, v) {
        DirAfterWrite(s.disk, u, d, v);
      }
    }
  }

  lemma LaunchKeeps(plan: Plan, s: Pass, t: Pass)
    requires Inv(plan, s) && Next(plan, s, t, Launch)
    ensures Inv(plan, t)
  {
    forall i | i in t.phase.at ensures ProgressOk(plan, t, t.phase.run, i, t.phase.at[i]) {
      forall k | 0 <= k < |plan.shards[i].cases|
        ensures var u := (i, plan.shards[i].cases[k]);
                && (t.phase.run.number, u) !in t.log
                && (u in t.phase.run.states && t.phase.run.states[u] != UnitOk ==> Dir(t.disk, u) == EMPTY_DIR)
      {
        assert IsUnit(plan, (i, plan.shards[i].cases[k]));
      }
    }
  }

  /** What one shard has done is not disturbed by another. */
  lemma OtherShardProgress(plan: Plan, s: Pass, t: Pass, run: Attempt, i: nat, at: nat, u: UnitId, d: UnitDir)
    requires ProgressOk(plan, s, run, i, at) && u.0 != i && u.0 < |s.disk|
    requires t.disk == Write(s.disk, u, d) && t.log == s.log + [(run.number, u)]
    ensures ProgressOk(plan, t, run, i, at)
  {
    forall k | 0 <= k < |plan.shards[i].cases|
      ensures var v := (i, plan.shards[i].cases[k]);
              ((run.number, v) in t.log <==> (run.number, v) in s.log) && Dir(t.disk, v) == Dir(s.disk, v)
    {
      DirAfterWrite(s.disk, u, d, (i, plan.shards[i].cases[k]));
    }
  }

  lemma OtherShardRanExactly(plan: Plan, s: Pass, t: Pass, run: Attempt, i: nat, u: UnitId)
    requires RanExactly(plan, s, run, i) && u.0 != i && t.log == s.log + [(run.number, u)]
    ensures RanExactly(plan, t, run, i)
  {
  }

  lemma OwnProgress(plan: Plan, s: Pass, t: Pass, run: Attempt, i: nat, at: nat, u: UnitId, d: UnitDir)
    requires PlanOk(plan) && ProgressOk(plan, s, run, i, at) && AtPosition(plan, u, at) && u.0 == i && i < |s.disk|
    requires u in run.states && run.states[u] != UnitOk
    requires t.disk == Write(s.disk, u, d) && t.log == s.log + [(run.number, u)]
    ensures ProgressOk(plan, t, run, i, at + 1)
  {
    forall k | 0 <= k < |plan.shards[i].cases|
      ensures var v := (i, plan.shards[i].cases[k]);
              && (k < at + 1 ==> ((run.number, v) in t.log <==> v in run.states && run.states[v] != UnitOk))
              && (k >= at + 1 ==> (run.number, v) !in t.log)
              && (k >= at + 1 && v in run.states && run.states[v] != UnitOk ==> Dir(t.disk, v) == EMPTY_DIR)
    {
      var v := (i, plan.shards[i].cases[k]);
      DirAfterWrite(s.disk, u, d, v);
      if k != at { assert v != u; }
    }
  }

  lemma SkipProgress(plan: Plan, s: Pass, run: Attempt, i: nat, at: nat, u: UnitId)
    requires ProgressOk(plan, s, run, i, at) && AtPosition(plan, u, at) && u.0 == i && u in run.states
    requires run.states[u] == UnitOk
    ensures ProgressOk(plan, s, run, i, at + 1)
  {
  }

  /** The case a running shard is at was failing when the attempt began exactly if it has no file now. */
  lemma CurrentCase(plan: Plan, s: Pass, i: nat, u: UnitId)
    requires Inv(plan, s) && At(plan, s.phase, i, u)
    ensures IsUnit(plan, u) && u in s.phase.run.states
    ensures AlreadyRecorded(Dir(s.disk, u)) <==> s.phase.run.states[u] == UnitOk
    ensures (s.phase.run.number, u) !in s.log
  {
    assert ProgressOk(plan, s, s.phase.run, i, s.phase.at[i]);
    assert IsUnit(plan, u);
  }

  lemma LogGrows(log: seq<(nat, UnitId)>, a: nat, u: UnitId)
    requires LogOk(log, a) && 1 <= a && (a, u) !in log
    ensures LogOk(log + [(a, u)], a)
  {
  }

  lemma ExecutedStatesOk(plan: Plan, s: Pass, t: Pass, states: States, u: UnitId, d: UnitDir)
    requires StatesOk(plan, s, states) && u.0 < |s.disk| && u in states && states[u] != UnitOk
    requires t.disk == Write(s.disk, u, d)
    ensures StatesOk(plan, t, states)
  {
    forall v: UnitId | IsUnit(plan, v) && states[v] == UnitOk ensures UnitState(Dir(t.disk, v)) == UnitOk {
      DirAfterWrite(s.disk, u, d, v);
    }
  }

  lemma ExecuteProgress(plan: Plan, s: Pass, t: Pass, run: Attempt, at: map<nat, nat>, at': map<nat, nat>,
                        whole: set<nat>, i: nat, u: UnitId, d: UnitDir)
    requires PlanOk(plan) && RunningOk(plan, s, run, at, whole) && i in at && i < |s.disk|
    requires AtPosition(plan, u, at[i]) && u.0 == i && u in run.states && run.states[u] != UnitOk
    requires t.disk == Write(s.disk, u, d) && t.log == s.log + [(run.number, u)]
    requires at' == at - {i} || at' == at[i := at[i] + 1]
    ensures forall j :: j in at' ==> j in run.todo && j !in whole && ProgressOk(plan, t, run, j, at'[j])
    ensures forall j :: j in whole ==> RanExactly(plan, t, run, j)
  {
    forall j | j in at' ensures j in run.todo && j !in whole && ProgressOk(plan, t, run, j, at'[j]) {
      if j == i {
        OwnProgress(plan, s, t, run, i, at[i], u, d);
      } else {
        OtherShardProgress(plan, s, t, run, j, at[j], u, d);
      }
    }
    forall j | j in whole ensures RanExactly(plan, t, run, j) {
      OtherShardRanExactly(plan, s, t, run, j, u);
    }
  }

  lemma ExecuteKeeps(plan: Plan, s: Pass, t: Pass, i: nat, u: UnitId, outcome: Outcome)
    requires Inv(plan, s) && At(plan, s.phase, i, u) && i < |s.disk| && RunsTo(s, t, i, u, outcome)
    requires !AlreadyRecorded(Dir(s.disk, u))
    ensures Inv(plan, t)
  {
    CurrentCase(plan, s, i, u);
    var run, d := s.phase.run, Ran(outcome);
    WriteKeepsDisk(plan, s, t, u, d);
    LogGrows(s.log, run.number, u);
    ExecutedStatesOk(plan, s, t, run.states, u, d);
    ExecuteProgress(plan, s, t, run, s.phase.at, t.phase.at, s.phase.whole, i, u, d);
  }

  lemma SkipKeeps(plan: Plan, s: Pass, t: Pass, i: nat, u: UnitId, outcome: Outcome)
    requires Inv(plan, s) && At(plan, s.phase, i, u) && i < |s.disk| && RunsTo(s, t, i, u, outcome)
    requires AlreadyRecorded(Dir(s.disk, u))
    ensures Inv(plan, t)
  {
    CurrentCase(plan, s, i, u);
    var run := s.phase.run;
    forall j | j in t.phase.at
      ensures j in run.todo && j !in t.phase.whole && ProgressOk(plan, t, run, j, t.phase.at[j])
    {
      assert ProgressOk(plan, s, run, j, s.phase.at[j]);
      if j == i { SkipProgress(plan, s, run, i, s.phase.at[i], u); }
    }
    forall j | j in t.phase.whole ensures RanExactly(plan, t, run, j) {
      assert RanExactly(plan, s, run, j);
    }
  }

  lemma CloseShardKeeps(plan: Plan, s: Pass, t: Pass, i: nat)
    requires Inv(plan, s) && Next(plan, s, t, CloseShard(i))
    ensures Inv(plan, t)
  {
    var run := s.phase.run;
    forall j | j in t.phase.at ensures ProgressOk(plan, t, run, j, t.phase.at[j]) {
      assert ProgressOk(plan, s, run, j, s.phase.at[j]);
    }
    forall j | j in t.phase.whole ensures RanExactly(plan, t, run, j) {
      if j == i {
        assert ProgressOk(plan, s, run, i, s.phase.at[i]);
      } else {
        assert RanExactly(plan, s, run, j);
      }
    }
  }

  lemma KillShardKeeps(plan: Plan, s: Pass, t: Pass, i: nat, exitTwo: bool)
    requires Inv(plan, s) && Next(plan, s, t, KillShard(i, exitTwo))
    ensures Inv(plan, t)
  {
    var run := s.phase.run;
    forall j | j in t.phase.at ensures ProgressOk(plan, t, run, j, t.phase.at[j]) {
      assert ProgressOk(plan, s, run, j, s.phase.at[j]);
    }
    forall j | j in t.phase.whole ensures RanExactly(plan, t, run, j) {
      assert RanExactly(plan, s, run, j);
    }
  }

  lemma FinalizeKeeps(plan: Plan, s: Pass, t: Pass, u: UnitId, hit: bool)
    requires Inv(plan, s) && Next(plan, s, t, FinalizeOne(u, hit))
    ensures Inv(plan, t)
  {
    var d := Finalize(Dir(s.disk, u), s.phase.last[u], hit);
    FinalizedScores(Dir(s.disk, u), hit);
    WriteKeepsDisk(plan, s, t, u, d);
    forall v: UnitId ensures Dir(t.disk, v) == if v == u then d else Dir(s.disk, v) {
      DirAfterWrite(s.disk, u, d, v);
    }
    forall v: UnitId | IsUnit(plan, v) && s.phase.last[v] != UnitOk && v !in t.phase.pending ensures Settled(t, v) {
      if v != u { assert Settled(s, v); }
    }
  }

  lemma FinishKeeps(plan: Plan, s: Pass, t: Pass)
    requires Inv(plan, s) && Next(plan, s, t, Finish)
    ensures Inv(plan, t)
  {
    forall u: UnitId | IsUnit(plan, u) ensures Scorable(t, u) {
      assert u in s.phase.last;
      if s.phase.last[u] != UnitOk {
        assert Settled(s, u);
      } else {
        OkIsHeld(s.disk, u);
      }
    }
  }

  lemma OkIsHeld(disk: Disk, u: UnitId)
    requires UnitState(Dir(disk, u)) == UnitOk
    ensures u.0 < |disk| && u.1 in disk[u.0]
  {
  }

  lemma TornKeeps(plan: Plan, s: Pass, t: Pass, u: UnitId)
    requires Inv(plan, s) && Next(plan, s, t, FinalizeTorn(u))
    ensures Inv(plan, t)
  {
    WriteKeepsDisk(plan, s, t, u, Dir(s.disk, u).(record := None));
  }

  /** Every step keeps the invariant. */
  lemma StepKeeps(plan: Plan, s: Pass, t: Pass, step: Step)
    requires Inv(plan, s) && Next(plan, s, t, step)
    ensures Inv(plan, t)
  {
    match step
    case Begin =>
    case StartAttempt => StartAttemptKeeps(plan, s, t);
    case Reset(u) => ResetKeeps(plan, s, t, u);
    case Launch => LaunchKeeps(plan, s, t);
    case RunNext(i, outcome) =>
      var u :| At(plan, s.phase, i, u) && i < |s.disk| && RunsTo(s, t, i, u, outcome);
      if AlreadyRecorded(Dir(s.disk, u)) {
        SkipKeeps(plan, s, t, i, u, outcome);
      } else {
        ExecuteKeeps(plan, s, t, i, u, outcome);
      }
    case CloseShard(i) => CloseShardKeeps(plan, s, t, i);
    case KillShard(i, exitTwo) => KillShardKeeps(plan, s, t, i, exitTwo);
    case EndAttempt =>
    case StartFinalize =>
    case FinalizeOne(u, hit) => FinalizeKeeps(plan, s, t, u, hit);
    case FinalizeTorn(u) => TornKeeps(plan, s, t, u);
    case Finish => FinishKeeps(plan, s, t);
    case Crash =>
  }

  // ---------------------------------------------------------------------------------
  // Every run
  // ---------------------------------------------------------------------------------

  /** A process about to start on whatever an earlier one left. */
  ghost predicate Start(plan: Plan, s: Pass) {
    PlanOk(plan) && DiskOk(plan, s) && s.phase.Idle? && s.log == []
  }

  ghost predicate Moves(plan: Plan, s: Pass, t: Pass) {
    exists step :: Next(plan, s, t, step)
  }

  ghost predicate IsRun(plan: Plan, run: seq<Pass>) {
    && run != [] && Start(plan, run[0])
    && forall k :: 0 < k < |run| ==> MovesTo(plan, run, k)
  }

  /** State `k` of a run comes from the one before it by a step. */
  ghost predicate MovesTo(plan: Plan, run: seq<Pass>, k: nat)
    requires 0 < k < |run|
  {
    Moves(plan, run[k - 1], run[k])
  }

  lemma {:induction false} RunKeepsInv(plan: Plan, run: seq<Pass>, k: nat)
    requires IsRun(plan, run) && k < |run|
    ensures Inv(plan, run[k])
    decreases k
  {
    if k > 0 {
      RunKeepsInv(plan, run, k - 1);
      assert MovesTo(plan, run, k);
      var step :| Next(plan, run[k - 1], run[k], step);
      StepKeeps(plan, run[k - 1], run[k], step);
    }
  }

  ghost predicate Executes(s: Pass, t: Pass, u: UnitId) {
    exists a :: t.log == s.log + [(a, u)]
  }

  lemma LoggedOther(log: seq<(nat, UnitId)>, a: nat, v: UnitId, u: UnitId)
    requires v != u
    ensures forall b: nat :: log + [(a, v)] != log + [(b, u)]
  {
    forall b: nat ensures log + [(a, v)] != log + [(b, u)] {
      assert (log + [(a, v)])[|log|].1 == v && (log + [(b, u)])[|log|].1 == u;
    }
  }

  /** No step touches or executes a good unit. */
  lemma OkUntouched(plan: Plan, s: Pass, t: Pass, step: Step, u: UnitId)
    requires Inv(plan, s) && Next(plan, s, t, step) && IsUnit(plan, u)
    requires GoodUnit(Dir(s.disk, u))
    ensures Dir(t.disk, u) == Dir(s.disk, u) && !Executes(s, t, u)
  {
    match step
    case Reset(v) => if Dir(s.disk, v) != EMPTY_DIR { DirAfterWrite(s.disk, v, ResetOne(Dir(s.disk, v)), u); }
    case RunNext(i, outcome) =>
      var v :| At(plan, s.phase, i, v) && i < |s.disk| && RunsTo(s, t, i, v, outcome);
      CurrentCase(plan, s, i, v);
      DirAfterWrite(s.disk, v, Ran(outcome), u);
      if v != u { LoggedOther(s.log, s.phase.run.number, v, u); }
    case FinalizeOne(v, hit) => DirAfterWrite(s.disk, v, Finalize(Dir(s.disk, v), s.phase.last[v], hit), u);
    case FinalizeTorn(v) => DirAfterWrite(s.disk, v, Dir(s.disk, v).(record := None), u);
    case _ =>
  }

  /** Once good, a unit keeps its files through every later step, crash and resumption, and no later
      step executes it again. */
  lemma {:induction false} OkForever(plan: Plan, run: seq<Pass>, i: nat, j: nat, u: UnitId)
    requires IsRun(plan, run) && i <= j < |run| && IsUnit(plan, u)
    requires GoodUnit(Dir(run[i].disk, u))
    ensures Dir(run[j].disk, u) == Dir(run[i].disk, u)
    ensures NeverExecuted(run, i, j, u)
    decreases j
  {
    if i < j {
      OkForever(plan, run, i, j - 1, u);
      OkStaysOne(plan, run, j, u);
    }
  }

  /** The step to state `k` of a run executes the unit. */
  ghost predicate ExecutesAt(run: seq<Pass>, k: nat, u: UnitId)
    requires 0 < k < |run|
  {
    Executes(run[k - 1], run[k], u)
  }

  /** No step from state `i` to state `j` executes the unit. */
  ghost predicate NeverExecuted(run: seq<Pass>, i: nat, j: nat, u: UnitId)
    requires i <= j < |run|
  {
    i == j || (NeverExecuted(run, i, j - 1, u) && !ExecutesAt(run, j, u))
  }

  lemma OkStaysOne(plan: Plan, run: seq<Pass>, k: nat, u: UnitId)
    requires IsRun(plan, run) && 0 < k < |run| && IsUnit(plan, u) && GoodUnit(Dir(run[k - 1].disk, u))
    ensures Dir(run[k].disk, u) == Dir(run[k - 1].disk, u) && !ExecutesAt(run, k, u)
  {
    RunKeepsInv(plan, run, k - 1);
    assert MovesTo(plan, run, k);
    var step :| Next(plan, run[k - 1], run[k], step);
    OkUntouched(plan, run[k - 1], run[k], step, u);
  }

  /** The attempts in which a unit was executed since the process started. */
  ghost function RunsOf(log: seq<(nat, UnitId)>, u: UnitId): seq<nat> {
    if log == [] then []
    else if log[0].1 == u then [log[0].0] + RunsOf(log[1..], u)
    else RunsOf(log[1..], u)
  }

  lemma {:induction false} RunsOfMembers(log: seq<(nat, UnitId)>, u: UnitId, upto: nat)
    requires LogOk(log, upto)
    ensures forall a :: a in RunsOf(log, u) ==> 1 <= a <= upto && (a, u) in log
    ensures forall j, k :: 0 <= j < k < |RunsOf(log, u)| ==> RunsOf(log, u)[j] != RunsOf(log, u)[k]
  {
    if log != [] {
      RunsOfMembers(log[1..], u, upto);
      assert log == [log[0]] + log[1..];
      assert log[0] !in log[1..];
      var rest := RunsOf(log[1..], u);
      assert forall k :: 0 <= k < |rest| ==> rest[k] in rest;
    }
  }

  lemma {:induction false} DistinctUpTo(s: seq<nat>, n: nat)
    requires forall k :: 0 <= k < |s| ==> 1 <= s[k] <= n
    requires forall j, k :: 0 <= j < k < |s| ==> s[j] != s[k]
    ensures |s| <= n
  {
    assert |s| > 0 ==> 1 <= s[0] <= n;
    if n > 0 {
      if k :| 0 <= k < |s| && s[k] == n {
        DistinctUpTo(s[..k] + s[k + 1..], n - 1);
      } else {
        DistinctUpTo(s, n - 1);
      }
    }
  }

  /** No case is executed more than `max_attempts` times by one process. */
  lemma AttemptsAreBounded(plan: Plan, run: seq<Pass>, k: nat, u: UnitId)
    requires IsRun(plan, run) && k < |run|
    ensures |RunsOf(run[k].log, u)| <= plan.maxAttempts
  {
    RunKeepsInv(plan, run, k);
    RunsOfMembers(run[k].log, u, plan.maxAttempts);
    var runs := RunsOf(run[k].log, u);
    assert forall j :: 0 <= j < |runs| ==> runs[j] in runs;
    DistinctUpTo(runs, plan.maxAttempts);
  }

  ghost predicate InAttempt(p: Phase, run: Attempt) {
    (p.Resetting? || p.Running?) && p.run == run
  }

  /** Attempt `now` was begun by the step from state `j`. */
  ghost predicate BeganAt(plan: Plan, run: seq<Pass>, j: nat, now: Attempt) {
    && j + 1 < |run| && Next(plan, run[j], run[j + 1], StartAttempt)
    && run[j].phase.Checked? && run[j].phase.attempt + 1 == now.number
    && run[j].phase.states == now.states == Check(plan, run[j].disk)
    && InAttempt(run[j + 1].phase, now)
  }

  lemma StaysInAttempt(plan: Plan, s: Pass, t: Pass, step: Step, now: Attempt)
    requires Next(plan, s, t, step) && InAttempt(t.phase, now) && !step.StartAttempt?
    ensures InAttempt(s.phase, now)
  {
  }

  lemma {:induction false} AttemptBegan(plan: Plan, run: seq<Pass>, k: nat, now: Attempt) returns (j: nat)
    requires IsRun(plan, run) && k < |run| && InAttempt(run[k].phase, now)
    ensures j < k && BeganAt(plan, run, j, now)
    decreases k
  {
    assert k > 0;
    RunKeepsInv(plan, run, k - 1);
    assert MovesTo(plan, run, k);
    var step :| Next(plan, run[k - 1], run[k], step);
    if step.StartAttempt? {
      j := k - 1;
    } else {
      StaysInAttempt(plan, run[k - 1], run[k], step, now);
      j := AttemptBegan(plan, run, k - 1, now);
    }
  }

  /** When an attempt ends, a shard that ran to its end has executed exactly the cases that were not good
      when the attempt began, and a shard not run had none. */
  lemma AttemptRunsExactlyTheFailing(plan: Plan, run: seq<Pass>, k: nat, u: UnitId) returns (j: nat)
    requires IsRun(plan, run) && k < |run| && run[k].phase.Running? && run[k].phase.at == map[] && IsUnit(plan, u)
    ensures j < k && BeganAt(plan, run, j, run[k].phase.run)
    ensures u.0 in run[k].phase.whole ==>
              ((run[k].phase.run.number, u) in run[k].log <==> !GoodUnit(Dir(run[j].disk, u)))
    ensures u.0 !in run[k].phase.run.todo ==> GoodUnit(Dir(run[j].disk, u))
  {
    RunKeepsInv(plan, run, k);
    var s := run[k];
    j := AttemptBegan(plan, run, k, s.phase.run);
    if u.0 in s.phase.whole {
      assert RanExactly(plan, s, s.phase.run, u.0);
      var p :| 0 <= p < |plan.shards[u.0].cases| && plan.shards[u.0].cases[p] == u.1;
    }
  }

  /** The shards that an attempt runs are those without `run.json` or with a unit that is not good. */
  lemma TodoIs(plan: Plan, s: Pass, i: nat)
    requires DiskOk(plan, s) && i < |plan.shards|
    ensures i in Todo(plan, s, Check(plan, s.disk))
       <==> !s.runJson[i] || exists id :: id in plan.shards[i].cases && !GoodUnit(Dir(s.disk, (i, id)))
  {
    if id :| id in plan.shards[i].cases && !GoodUnit(Dir(s.disk, (i, id))) {
      assert IsUnit(plan, (i, id));
    }
  }

  /** A unit that is not good is given up only when the attempts are used up. */
  lemma GivesUpOnlyAtTheLimit(plan: Plan, run: seq<Pass>, k: nat, u: UnitId)
    requires IsRun(plan, run) && k < |run| && IsUnit(plan, u) && !GoodUnit(Dir(run[k].disk, u))
    requires exists t :: Next(plan, run[k], t, StartFinalize)
    ensures run[k].phase == Checked(plan.maxAttempts, Check(plan, run[k].disk))
  {
    RunKeepsInv(plan, run, k);
    var s := run[k];
    assert u in s.phase.states && s.phase.states[u] != UnitOk;
    assert u.0 in Todo(plan, s, s.phase.states);
  }

  // ---------------------------------------------------------------------------------
  // How a unit becomes good
  // ---------------------------------------------------------------------------------

  /** A step that makes a unit good executes it. */
  lemma GoodByExecution(plan: Plan, s: Pass, t: Pass, step: Step, u: UnitId)
    requires Inv(plan, s) && Next(plan, s, t, step) && IsUnit(plan, u)
    requires !GoodUnit(Dir(s.disk, u)) && GoodUnit(Dir(t.disk, u))
    ensures Executes(s, t, u)
    ensures exists hit :: Dir(t.disk, u) == Ran(Recorded(false, hit, false))
  {
    match step
    case Reset(v) =>
      if Dir(s.disk, v) != EMPTY_DIR { DirAfterWrite(s.disk, v, ResetOne(Dir(s.disk, v)), u); }
      InterruptedResetIsNotOk(Dir(s.disk, u));
    case RunNext(i, outcome) =>
      var v :| At(plan, s.phase, i, v) && i < |s.disk| && RunsTo(s, t, i, v, outcome);
      DirAfterWrite(s.disk, v, Ran(outcome), u);
      assert t.log == s.log + [(s.phase.run.number, u)];
      assert Dir(t.disk, u) == Ran(outcome) == Ran(Recorded(false, outcome.rateHit, false));
    case FinalizeOne(v, hit) => DirAfterWrite(s.disk, v, Finalize(Dir(s.disk, v), s.phase.last[v], hit), u);
    case FinalizeTorn(v) => DirAfterWrite(s.disk, v, Dir(s.disk, v).(record := None), u);
    case _ =>
  }

  /** The unit is as it was in state `j`: good from the start, or left so by the step to `j`, which executed it
      and ended with a record, no error and no sign of the rate limit. */
  ghost predicate GoodSince(run: seq<Pass>, j: nat, k: nat, u: UnitId) {
    && j <= k < |run| && GoodUnit(Dir(run[j].disk, u))
    && (j == 0 || (ExecutesAt(run, j, u) && exists hit :: Dir(run[j].disk, u) == Ran(Recorded(false, hit, false))))
    && Dir(run[k].disk, u) == Dir(run[j].disk, u) && NeverExecuted(run, j, k, u)
  }

  ghost predicate RanWell(run: seq<Pass>, k: nat, u: UnitId) {
    exists j: nat :: GoodSince(run, j, k, u)
  }

  /** A good unit was good when the process started, or its last execution in the run made it good. */
  lemma {:induction false} GoodUnitRanWell(plan: Plan, run: seq<Pass>, k: nat, u: UnitId) returns (j: nat)
    requires IsRun(plan, run) && k < |run| && IsUnit(plan, u) && GoodUnit(Dir(run[k].disk, u))
    ensures GoodSince(run, j, k, u)
    decreases k
  {
    j := k;
    if k > 0 {
      if GoodUnit(Dir(run[k - 1].disk, u)) {
        j := GoodUnitRanWell(plan, run, k - 1, u);
        OkStaysOne(plan, run, k, u);
      } else {
        RunKeepsInv(plan, run, k - 1);
        assert MovesTo(plan, run, k);
        var step :| Next(plan, run[k - 1], run[k], step);
        GoodByExecution(plan, run[k - 1], run[k], step, u);
      }
    }
  }

  /** What a finished pass grades: a unit that reads as graded was good when the process started, or its last
      execution ended with a record, no error and no sign of the rate limit. */
  lemma GradedUnitRanWell(plan: Plan, run: seq<Pass>, k: nat, u: UnitId) returns (j: nat)
    requires IsRun(plan, run) && k < |run| && run[k].phase.Finished? && IsUnit(plan, u)
    requires ReadsGraded(Dir(run[k].disk, u))
    ensures GoodSince(run, j, k, u)
  {
    RunKeepsInv(plan, run, k);
    assert Scorable(run[k], u);
    j := GoodUnitRanWell(plan, run, k, u);
  }

  // ---------------------------------------------------------------------------------
  // What is not planned stays
  // ---------------------------------------------------------------------------------

  /** A case directory is as it was, or still absent. */
  ghost predicate SameEntry(before: Disk, after: Disk, i: nat, id: string) {
    && |before| == |after|
    && (i < |before| ==>
          && (id in before[i] <==> id in after[i])
          && (id in before[i] ==> after[i][id] == before[i][id]))
  }

  /** No step touches the directory of a case its shard does not own. */
  lemma OthersUntouched(plan: Plan, s: Pass, t: Pass, step: Step, i: nat, id: string)
    requires Inv(plan, s) && Next(plan, s, t, step) && !IsUnit(plan, (i, id))
    ensures SameEntry(s.disk, t.disk, i, id)
  {
    match step
    case RunNext(j, outcome) =>
      var v :| At(plan, s.phase, j, v) && j < |s.disk| && RunsTo(s, t, j, v, outcome);
      CurrentCase(plan, s, j, v);
    case _ =>
  }

  lemma {:induction false} OthersStay(plan: Plan, run: seq<Pass>, k: nat, i: nat, id: string)
    requires IsRun(plan, run) && k < |run| && !IsUnit(plan, (i, id))
    ensures SameEntry(run[0].disk, run[k].disk, i, id)
    decreases k
  {
    if k > 0 {
      OthersStay(plan, run, k - 1, i, id);
      RunKeepsInv(plan, run, k - 1);
      assert MovesTo(plan, run, k);
      var step :| Next(plan, run[k - 1], run[k], step);
      OthersUntouched(plan, run[k - 1], run[k], step, i, id);
    }
  }
}
