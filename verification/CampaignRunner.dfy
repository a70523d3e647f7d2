/** The pass as the program runs it: an object that owns the unit directories of one pass, classifies
    them, resets and runs the failing ones, and finalises what is left.  Every action is a step of the
    campaign machine, so what holds of every run of the machine holds of the object. */
module CampaignRunner {
  import opened Prelude
  import opened Sorting
  import opened CampaignUnits
  import opened Campaign
  import opened CampaignJoins

  /** How the process of one shard ends: with its `run.json` written, refusing its configuration with
      exit code 2, or otherwise without one. */
  datatype Exit = WroteRun | ExitTwo | NoRun

  /** The outside world: how a case run ends, how a shard's process ends, and whether the error text
      written for a finalised unit matches the rate-limit pattern. */
  datatype World = World(caseRun: (nat, UnitId) -> Outcome, shardExit: (nat, nat) -> Exit, hit: UnitId -> bool)

  datatype PassEnd = Complete | ConfigurationRefused | MissingRunJson

  lemma RunGrows(plan: Plan, run: seq<Pass>, t: Pass, step: Step)
    requires IsRun(plan, run) && Next(plan, run[|run| - 1], t, step)
    ensures IsRun(plan, run + [t])
  {
    var longer := run + [t];
    forall k | 0 < k < |longer| ensures MovesTo(plan, longer, k) {
      if k < |run| {
        assert MovesTo(plan, run, k);
      }
    }
  }

  /** The failing units still to be reset when the shards before `i` and the cases `done` of `i` are. */
  ghost function LeftFrom(plan: Plan, states: States, todo: set<nat>, i: nat, done: seq<string>): set<UnitId> {
    set u | u in Failing(plan, states) && u.0 in todo && (u.0 > i || (u.0 == i && u.1 !in done))
  }

  ghost predicate Knows(plan: Plan, states: States) {
    forall u: UnitId :: IsUnit(plan, u) ==> u in states
  }

  lemma LeftNext(plan: Plan, states: States, todo: set<nat>, i: nat, k: nat)
    requires PlanOk(plan) && Knows(plan, states) && i < |plan.shards| && k < |plan.shards[i].cases|
    ensures var cases := plan.shards[i].cases;
            var u := (i, cases[k]);
            && LeftFrom(plan, states, todo, i, cases[..k + 1]) == LeftFrom(plan, states, todo, i, cases[..k]) - {u}
            && IsUnit(plan, u)
            && (u in LeftFrom(plan, states, todo, i, cases[..k]) <==> i in todo && states[u] != UnitOk)
  {
    var cases := plan.shards[i].cases;
    assert cases[..k + 1] == cases[..k] + [cases[k]];
    assert IsUnit(plan, (i, cases[k]));
    forall c | 0 <= c < k ensures cases[..k][c] != cases[k] {}
  }

  lemma LeftShard(plan: Plan, states: States, todo: set<nat>, i: nat)
    requires i < |plan.shards|
    ensures LeftFrom(plan, states, todo, i, plan.shards[i].cases) == LeftFrom(plan, states, todo, i + 1, [])
    ensures i !in todo ==> LeftFrom(plan, states, todo, i, []) == LeftFrom(plan, states, todo, i + 1, [])
  {
  }

  /** In a kind world every case run ends with a good record and every shard's process with its `run.json`. */
  ghost predicate Kind(world: World) {
    && (forall a: nat, u: UnitId :: world.caseRun(a, u) == Recorded(false, false, false))
    && (forall a: nat, i: nat :: world.shardExit(a, i) == WroteRun)
  }

  /** The first `n` cases of shard `i` are ok. */
  ghost predicate OkBefore(plan: Plan, disk: Disk, i: nat, n: nat)
    requires i < |plan.shards|
  {
    forall k :: 0 <= k < n && k < |plan.shards[i].cases| ==>
      UnitState(Dir(disk, (i, plan.shards[i].cases[k]))) == UnitOk
  }

  ghost predicate ShardSoFar(plan: Plan, disk: Disk, runJson: seq<bool>, at: map<nat, nat>, i: nat)
    requires i < |plan.shards| == |runJson|
  {
    if i in at then OkBefore(plan, disk, i, at[i])
    else runJson[i] && OkBefore(plan, disk, i, |plan.shards[i].cases|)
  }

  /** The running shards have done well so far, and the others altogether. */
  ghost predicate DoneSoFar(plan: Plan, disk: Disk, runJson: seq<bool>, at: map<nat, nat>) {
    |runJson| == |plan.shards| && forall i: nat :: i < |plan.shards| ==> ShardSoFar(plan, disk, runJson, at, i)
  }

  /** Ok units keep their files. */
  ghost predicate KeepsOk(plan: Plan, before: Disk, after: Disk) {
    forall u: UnitId :: IsUnit(plan, u) && GoodUnit(Dir(before, u)) ==> Dir(after, u) == Dir(before, u)
  }

  lemma SoFarCase(plan: Plan, before: Disk, after: Disk, runJson: seq<bool>, at: map<nat, nat>, i: nat)
    requires DoneSoFar(plan, before, runJson, at) && KeepsOk(plan, before, after)
    requires i in at && i < |plan.shards| && at[i] < |plan.shards[i].cases|
    requires UnitState(Dir(after, (i, plan.shards[i].cases[at[i]]))) == UnitOk
    ensures DoneSoFar(plan, after, runJson, at[i := at[i] + 1])
  {
    var later := at[i := at[i] + 1];
    forall j: nat | j < |plan.shards| ensures ShardSoFar(plan, after, runJson, later, j) {
      assert ShardSoFar(plan, before, runJson, at, j);
      OkStays(plan, before, after, j, if j in at then at[j] else |plan.shards[j].cases|);
    }
  }

  lemma OkStays(plan: Plan, before: Disk, after: Disk, i: nat, n: nat)
    requires i < |plan.shards| && OkBefore(plan, before, i, n) && KeepsOk(plan, before, after)
    ensures OkBefore(plan, after, i, n)
  {
    forall k | 0 <= k < n && k < |plan.shards[i].cases|
      ensures UnitState(Dir(after, (i, plan.shards[i].cases[k]))) == UnitOk
    {
      assert IsUnit(plan, (i, plan.shards[i].cases[k]));
    }
  }

  lemma SoFarClosed(plan: Plan, disk: Disk, runJson: seq<bool>, at: map<nat, nat>, i: nat)
    requires DoneSoFar(plan, disk, runJson, at) && i in at && i < |plan.shards| && at[i] == |plan.shards[i].cases|
    ensures DoneSoFar(plan, disk, runJson[i := true], at - {i})
  {
    var later, closed := at - {i}, runJson[i := true];
    forall j: nat | j < |plan.shards| ensures ShardSoFar(plan, disk, closed, later, j) {
      assert ShardSoFar(plan, disk, runJson, at, j);
    }
  }

  lemma SoFarLaunched(plan: Plan, s: Pass, todo: set<nat>)
    requires Inv(plan, s) && s.phase.Running? && s.phase.run.todo == todo
    requires forall i: nat :: i < |s.runJson| && i !in todo ==> s.runJson[i]
    ensures DoneSoFar(plan, s.disk, s.runJson, map i | i in todo :: 0)
  {
    var at: map<nat, nat> := map i | i in todo :: 0;
    forall i: nat | i < |plan.shards| ensures ShardSoFar(plan, s.disk, s.runJson, at, i) {
      forall k | 0 <= k < |plan.shards[i].cases| && i !in todo
        ensures UnitState(Dir(s.disk, (i, plan.shards[i].cases[k]))) == UnitOk
      {
        assert IsUnit(plan, (i, plan.shards[i].cases[k]));
      }
    }
  }

  /** With every shard done there is nothing to do and nothing failing. */
  lemma AllDone(plan: Plan, s: Pass)
    requires |s.runJson| == |plan.shards| && DoneSoFar(plan, s.disk, s.runJson, map[])
    ensures Todo(plan, s, Check(plan, s.disk)) == {} && forall i :: 0 <= i < |s.runJson| ==> s.runJson[i]
  {
    forall i: nat | i < |plan.shards| ensures s.runJson[i] && ShardDone(plan, s, Check(plan, s.disk), i) {
      assert ShardSoFar(plan, s.disk, s.runJson, map[], i);
      forall u: UnitId | IsUnit(plan, u) && u.0 == i ensures UnitState(Dir(s.disk, u)) == UnitOk {
        var k :| 0 <= k < |plan.shards[i].cases| && plan.shards[i].cases[k] == u.1;
      }
    }
  }

  lemma NothingToDo(plan: Plan, s: Pass, states: States)
    requires |s.runJson| == |plan.shards| && Todo(plan, s, states) == {}
    ensures forall i :: 0 <= i < |s.runJson| ==> s.runJson[i]
  {
    forall i: nat | i < |s.runJson| ensures s.runJson[i] {
      assert i !in Todo(plan, s, states);
    }
  }

  lemma SameTodo(plan: Plan, s: Pass, t: Pass, states: States)
    requires s.runJson == t.runJson
    ensures Todo(plan, s, states) == Todo(plan, t, states)
  {
    forall i: nat ensures ShardDone(plan, s, states, i) <==> ShardDone(plan, t, states, i) {
    }
  }

  lemma NotTodoWasRun(plan: Plan, s: Pass, states: States)
    requires |s.runJson| == |plan.shards|
    ensures forall i: nat :: i < |s.runJson| && i !in Todo(plan, s, states) ==> s.runJson[i]
  {
  }

  /** After the case a shard is at was executed. */
  ghost function Executed(s: Pass, i: nat, u: UnitId, outcome: Outcome): Pass
    requires s.phase.Running? && i in s.phase.at && u.0 < |s.disk|
  {
    s.(disk := Write(s.disk, u, Ran(outcome)), log := s.log + [(s.phase.run.number, u)],
       phase := s.phase.(at := if outcome.Died? then s.phase.at - {i} else s.phase.at[i := s.phase.at[i] + 1]))
  }

  lemma CaseKeepsOk(plan: Plan, s: Pass, t: Pass, i: nat, u: UnitId, outcome: Outcome)
    requires Inv(plan, s) && At(plan, s.phase, i, u) && i < |s.disk| && !AlreadyRecorded(Dir(s.disk, u))
    requires t == Executed(s, i, u, outcome)
    ensures Next(plan, s, t, RunNext(i, outcome)) && KeepsOk(plan, s.disk, t.disk)
    ensures Dir(t.disk, u) == Ran(outcome)
  {
    assert RunsTo(s, t, i, u, outcome);
    forall v: UnitId | IsUnit(plan, v) && UnitState(Dir(s.disk, v)) == UnitOk ensures Dir(t.disk, v) == Dir(s.disk, v) {
      OkUntouched(plan, s, t, RunNext(i, outcome), v);
    }
    DirAfterWrite(s.disk, u, Ran(outcome), u);
  }

  /** The case a shard is at is skipped only when it is ok. */
  lemma RecordedIsOk(plan: Plan, s: Pass, i: nat, u: UnitId)
    requires Inv(plan, s) && At(plan, s.phase, i, u) && i < |s.disk| && AlreadyRecorded(Dir(s.disk, u))
    ensures UnitState(Dir(s.disk, u)) == UnitOk
    ensures forall outcome :: Next(plan, s, s.(phase := s.phase.(at := s.phase.at[i := s.phase.at[i] + 1])),
                                   RunNext(i, outcome))
  {
    CurrentCase(plan, s, i, u);
    forall outcome
      ensures Next(plan, s, s.(phase := s.phase.(at := s.phase.at[i := s.phase.at[i] + 1])), RunNext(i, outcome))
    {
      assert RunsTo(s, s.(phase := s.phase.(at := s.phase.at[i := s.phase.at[i] + 1])), i, u, outcome);
    }
  }

  // ---------------------------------------------------------------------------------
  // Running the shards side by side
  // ---------------------------------------------------------------------------------

  /** What one running shard still has to do, its end included. */
  ghost function ShardWork(plan: Plan, at: map<nat, nat>, i: nat): nat
    requires i < |plan.shards|
  {
    if i in at && at[i] <= |plan.shards[i].cases| then |plan.shards[i].cases| - at[i] + 1 else 0
  }

  ghost function Work(plan: Plan, at: map<nat, nat>, n: nat): nat
    requires n <= |plan.shards|
  {
    if n == 0 then 0 else Work(plan, at, n - 1) + ShardWork(plan, at, n - 1)
  }

  lemma {:induction false} WorkShrinks(plan: Plan, at: map<nat, nat>, at': map<nat, nat>, i: nat, n: nat)
    requires i < |plan.shards| && n <= |plan.shards| && ShardWork(plan, at', i) < ShardWork(plan, at, i)
    requires forall j :: j != i ==> (j in at <==> j in at') && (j in at ==> at[j] == at'[j])
    ensures Work(plan, at', n) <= Work(plan, at, n)
    ensures i < n ==> Work(plan, at', n) < Work(plan, at, n)
  {
    if n > 0 {
      WorkShrinks(plan, at, at', i, n - 1);
    }
  }

  class Runner {
    const plan: Plan
    const world: World
    var disk: Disk
    var runJson: seq<bool>
    /** The state the process started in, and every state the pass has been in since. */
    ghost const start: Pass
    ghost var run: seq<Pass>

    ghost predicate Valid()
      reads this
    {
      IsRun(plan, run) && run[0] == start && Now().disk == disk && Now().runJson == runJson
    }

    ghost function Now(): Pass
      reads this
      requires run != []
    {
      run[|run| - 1]
    }

    constructor (plan: Plan, world: World, disk: Disk, runJson: seq<bool>)
      requires Start(plan, Pass(disk, runJson, Idle, []))
      ensures Valid() && this.plan == plan && this.world == world
      ensures Now() == start == Pass(disk, runJson, Idle, [])
    {
      this.plan, this.world, this.disk, this.runJson := plan, world, disk, runJson;
      start := Pass(disk, runJson, Idle, []);
      run := [Pass(disk, runJson, Idle, [])];
    }

    ghost method Took(t: Pass, step: Step)
      requires IsRun(plan, run) && run[0] == start && Next(plan, Now(), t, step)
      requires t.disk == disk && t.runJson == runJson
      modifies this`run
      ensures Valid() && Now() == t
    {
      RunGrows(plan, run, t, step);
      run := run + [t];
    }

    // -------------------------------------------------------------------------------
    // Classifying
    // -------------------------------------------------------------------------------

    method CheckUnits() returns (states: States)
      requires Valid()
      ensures states == Check(plan, disk)
    {
      states := map[];
      for i := 0 to |plan.shards|
        invariant forall u: UnitId :: u in states <==> IsUnit(plan, u) && u.0 < i
        invariant forall u: UnitId :: u in states ==> states[u] == UnitState(Dir(disk, u))
      {
        var cases := plan.shards[i].cases;
        for k := 0 to |cases|
          invariant forall u: UnitId :: u in states <==> IsUnit(plan, u) && (u.0 < i || (u.0 == i && u.1 in cases[..k]))
          invariant forall u: UnitId :: u in states ==> states[u] == UnitState(Dir(disk, u))
        {
          assert cases[..k + 1] == cases[..k] + [cases[k]];
          states := states[(i, cases[k]) := UnitState(Dir(disk, (i, cases[k])))];
        }
        assert cases[..|cases|] == cases;
      }
    }

    method IsDone(i: nat, states: States) returns (done: bool)
      requires Valid() && i < |plan.shards| && i < |runJson|
      requires forall u: UnitId :: IsUnit(plan, u) ==> u in states
      ensures done <==> ShardDone(plan, Now(), states, i)
    {
      var cases := plan.shards[i].cases;
      done := runJson[i];
      for k := 0 to |cases|
        invariant done <==> runJson[i] && forall c :: 0 <= c < k ==> states[(i, cases[c])] == UnitOk
      {
        assert IsUnit(plan, (i, cases[k]));
        done := done && states[(i, cases[k])] == UnitOk;
      }
      ghost var s := Now();
      if done {
        forall u: UnitId | IsUnit(plan, u) && u.0 == i ensures u in states && states[u] == UnitOk {
          var c :| 0 <= c < |cases| && cases[c] == u.1;
        }
      } else if runJson[i] {
        var c :| 0 <= c < |cases| && states[(i, cases[c])] != UnitOk;
        assert IsUnit(plan, (i, cases[c]));
      }
    }

    method FindTodo(states: States) returns (todo: set<nat>)
      requires Valid() && |runJson| == |plan.shards|
      requires forall u: UnitId :: IsUnit(plan, u) ==> u in states
      ensures todo == Todo(plan, Now(), states)
    {
      todo := {};
      for i := 0 to |plan.shards|
        invariant forall j: nat :: j in todo <==> j < i && !ShardDone(plan, Now(), states, j)
      {
        var done := IsDone(i, states);
        if !done {
          todo := todo + {i};
        }
      }
    }

    // -------------------------------------------------------------------------------
    // One attempt
    // -------------------------------------------------------------------------------

    /** Delete one of the files of a unit, the record first. */
    method Delete(u: UnitId)
      requires Valid() && Now().phase.Resetting? && u in Now().phase.left && u.0 < |disk| && Dir(disk, u) != EMPTY_DIR
      modifies this
      ensures Valid() && Now() == old(Now()).(disk := Write(old(disk), u, ResetOne(Dir(old(disk), u))))
    {
      disk := Write(disk, u, ResetOne(Dir(disk, u)));
      Took(Now().(disk := disk), Step.Reset(u));
    }

    method Reset(u: UnitId)
      requires Valid() && Now().phase.Resetting? && u in Now().phase.left && u.0 < |disk|
      modifies this
      ensures Valid() && |disk| == |old(disk)| && runJson == old(runJson) && Now().log == old(Now().log)
      ensures Now().phase == Resetting(old(Now()).phase.run, old(Now()).phase.left - {u})
      ensures Dir(disk, u) == EMPTY_DIR && forall v: UnitId :: v != u ==> Dir(disk, v) == Dir(old(disk), v)
    {
      if Dir(disk, u).record.Some? { Delete(u); }
      if Dir(disk, u).error.Some? { Delete(u); }
      if Dir(disk, u).metaHit { Delete(u); }
      Took(Now().(phase := Resetting(Now().phase.run, Now().phase.left - {u})), Step.Reset(u));
    }

    method ResetShard(i: nat, states: States, ghost todo: set<nat>)
      requires Valid() && PlanOk(plan) && Knows(plan, states) && i < |plan.shards| == |disk| && i in todo
      requires Now().phase.Resetting? && Now().phase.left == LeftFrom(plan, states, todo, i, [])
      modifies this
      ensures Valid() && |disk| == |old(disk)| && runJson == old(runJson) && Now().log == old(Now().log)
      ensures Now().phase == Resetting(old(Now()).phase.run, LeftFrom(plan, states, todo, i + 1, []))
    {
      var cases := plan.shards[i].cases;
      for k := 0 to |cases|
        invariant Valid() && |disk| == |old(disk)| && runJson == old(runJson) && Now().log == old(Now().log)
        invariant Now().phase == Resetting(old(Now()).phase.run, LeftFrom(plan, states, todo, i, cases[..k]))
      {
        LeftNext(plan, states, todo, i, k);
        if states[(i, cases[k])] != UnitOk {
          Reset((i, cases[k]));
        }
      }
      assert cases[..|cases|] == cases;
      LeftShard(plan, states, todo, i);
    }

    /** Reset every unit of the shards to run that is not ok. */
    method ResetFailing(states: States, todo: set<nat>)
      requires Valid() && PlanOk(plan) && Knows(plan, states) && |plan.shards| == |disk|
      requires Now().phase.Resetting? && Now().phase.left == LeftFrom(plan, states, todo, 0, [])
      modifies this
      ensures Valid() && |disk| == |old(disk)| && runJson == old(runJson) && Now().log == old(Now().log)
      ensures Now().phase == Resetting(old(Now()).phase.run, {})
    {
      for i := 0 to |plan.shards|
        invariant Valid() && |disk| == |old(disk)| && runJson == old(runJson) && Now().log == old(Now().log)
        invariant Now().phase == Resetting(old(Now()).phase.run, LeftFrom(plan, states, todo, i, []))
      {
        LeftShard(plan, states, todo, i);
        if i in todo {
          ResetShard(i, states, todo);
        }
      }
      assert LeftFrom(plan, states, todo, |plan.shards|, []) == {};
    }

    /** Run case `at` of a shard, unless it is already recorded; whether the process survives it. */
    method RunCase(i: nat, at: nat, attempt: nat) returns (alive: bool)
      requires Valid() && Now().phase.Running? && i in Now().phase.at && Now().phase.at[i] == at
      requires i < |plan.shards| && i < |disk| && at < |plan.shards[i].cases| && attempt == Now().phase.run.number
      modifies this
      ensures Valid() && |disk| == |old(disk)| && runJson == old(runJson) && Now().phase.Running?
      ensures var was, now := old(Now()).phase, Now().phase;
              && now.run == was.run && now.whole == was.whole && now.refused == was.refused
              && now.at == if alive then was.at[i := at + 1] else was.at - {i}
      ensures KeepsOk(plan, old(disk), disk)
      ensures Kind(world) ==> alive && UnitState(Dir(disk, (i, plan.shards[i].cases[at]))) == UnitOk
      ensures var u := (i, plan.shards[i].cases[at]);
              var was, outcome := Dir(old(disk), u), world.caseRun(attempt, u);
              if was.record != None || was.error != None then alive && disk == old(disk)
              else (alive <==> !outcome.Died?) && disk == Write(old(disk), u, Ran(outcome))
    {
      var u := (i, plan.shards[i].cases[at]);
      ghost var s, p := Now(), Now().phase;
      assert At(plan, p, i, u);
      RunKeepsInv(plan, run, |run| - 1);
      var outcome := world.caseRun(attempt, u);
      if AlreadyRecorded(Dir(disk, u)) {
        alive := true;
        RecordedIsOk(plan, s, i, u);
        Took(s.(phase := p.(at := p.at[i := at + 1])), RunNext(i, outcome));
      } else {
        alive := !outcome.Died?;
        ghost var t := Executed(s, i, u, outcome);
        CaseKeepsOk(plan, s, t, i, u, outcome);
        disk := Write(disk, u, Ran(outcome));
        Took(t, RunNext(i, outcome));
      }
    }

    /** The process of a shard whose cases are through ends. */
    method CloseShard(i: nat, attempt: nat) returns (refused: bool)
      requires Valid() && Now().phase.Running? && i in Now().phase.at
      requires i < |plan.shards| == |disk| == |runJson| && Now().phase.at[i] == |plan.shards[i].cases|
      modifies this
      ensures Valid() && disk == old(disk) && |runJson| == |old(runJson)| && Now().phase.Running?
      ensures Now().phase.run == old(Now()).phase.run && Now().phase.at == old(Now()).phase.at - {i}
      ensures Now().phase.refused == (old(Now()).phase.refused || refused)
      ensures Kind(world) ==> !refused && runJson == old(runJson)[i := true]
    {
      refused := false;
      ghost var p := Now().phase;
      match world.shardExit(attempt, i) {
        case WroteRun =>
          runJson := runJson[i := true];
          Took(Now().(phase := p.(at := p.at - {i}, whole := p.whole + {i}), runJson := runJson), Step.CloseShard(i));
        case ExitTwo =>
          refused := true;
          Took(Now().(phase := p.(at := p.at - {i}, refused := true)), KillShard(i, true));
        case NoRun =>
          Took(Now().(phase := p.(at := p.at - {i})), KillShard(i, false));
      }
    }

    /** The shards in `at` are running, each at its case; in a kind world all went well so far. */
    ghost predicate SideBySide(now: Campaign.Attempt, at: map<nat, nat>, refused: bool, kind: bool)
      reads this
    {
      && Valid() && |plan.shards| == |disk| == |runJson| && Now().phase.Running?
      && Now().phase.run == now && Now().phase.at == at && Now().phase.refused == refused
      && (forall i :: i in at ==> i < |plan.shards| && at[i] <= |plan.shards[i].cases|)
      && (kind ==> Kind(world) && !refused && DoneSoFar(plan, disk, runJson, at))
    }

    method TakeCase(i: nat, at: map<nat, nat>, attempt: nat, ghost now: Campaign.Attempt, ghost refused: bool,
                    ghost kind: bool)
      returns (later: map<nat, nat>)
      requires SideBySide(now, at, refused, kind) && attempt == now.number
      requires i in at && at[i] < |plan.shards[i].cases|
      modifies this
      ensures SideBySide(now, later, refused, kind)
      ensures later == at[i := at[i] + 1] || later == at - {i}
    {
      ghost var before := disk;
      var alive := RunCase(i, at[i], attempt);
      later := if alive then at[i := at[i] + 1] else at - {i};
      if kind { SoFarCase(plan, before, disk, runJson, at, i); }
    }

    method TakeEnd(i: nat, at: map<nat, nat>, attempt: nat, refused: bool, ghost now: Campaign.Attempt,
                   ghost kind: bool)
      returns (later: map<nat, nat>, bad: bool)
      requires SideBySide(now, at, refused, kind) && i in at && at[i] == |plan.shards[i].cases|
      modifies this
      ensures SideBySide(now, later, bad, kind) && later == at - {i}
    {
      if kind { SoFarClosed(plan, disk, runJson, at, i); }
      var exitTwo := CloseShard(i, attempt);
      bad := refused || exitTwo;
      later := at - {i};
    }

    /** Run the shards that are not done, side by side: each turn some running shard takes its next case,
        or ends.  Which one is left open. */
    method RunShards(todo: set<nat>, attempt: nat, ghost now: Campaign.Attempt, ghost kind: bool)
      returns (refused: bool)
      requires SideBySide(now, map i | i in todo :: 0, false, kind) && attempt == now.number
      modifies this
      ensures SideBySide(now, map[], refused, kind)
    {
      refused := false;
      var at: map<nat, nat> := map i | i in todo :: 0;
      while at != map[]
        invariant SideBySide(now, at, refused, kind)
        decreases Work(plan, at, |plan.shards|)
      {
        ghost var was := at;
        var i :| i in at;
        if at[i] < |plan.shards[i].cases| {
          at := TakeCase(i, at, attempt, now, refused, kind);
        } else {
          at, refused := TakeEnd(i, at, attempt, refused, now, kind);
        }
        WorkShrinks(plan, was, at, i, |plan.shards|);
      }
    }

    /** Reset what failed in the shards that are not done, and start them. */
    method LaunchShards(was: nat, before: States, todo: set<nat>, ghost now: Campaign.Attempt)
      requires Valid() && PlanOk(plan) && |plan.shards| == |disk| == |runJson| && Knows(plan, before)
      requires Now().phase == Checked(was, before) && was < plan.maxAttempts
      requires todo == Todo(plan, Now(), before) && todo != {} && now == Campaign.Attempt(was + 1, before, todo)
      modifies this
      ensures Valid() && |disk| == |old(disk)| && runJson == old(runJson)
      ensures Now().phase == Running(now, map i | i in todo :: 0, {}, false)
    {
      ghost var left := set u | u in Failing(plan, before) && u.0 in todo;
      Took(Now().(phase := Resetting(now, left)), StartAttempt);
      assert left == LeftFrom(plan, before, todo, 0, []);
      ResetFailing(before, todo);
      Took(Now().(phase := Running(now, map i | i in todo :: 0, {}, false)), Launch);
    }

    /** One attempt: reset what failed, run the shards that are not done, classify again. */
    method Attempt(was: nat, before: States, todo: set<nat>) returns (states: States, refused: bool)
      requires Valid() && PlanOk(plan) && |plan.shards| == |disk| == |runJson| && Knows(plan, before)
      requires Now().phase == Checked(was, before) && was < plan.maxAttempts
      requires todo == Todo(plan, Now(), before) && todo != {}
      modifies this
      ensures Valid() && |disk| == |old(disk)| && |runJson| == |old(runJson)|
      ensures refused ==> Now().phase == Aborted
      ensures !refused ==> Now().phase == Checked(was + 1, states) && states == Check(plan, disk)
      ensures Kind(world) ==> !refused && Todo(plan, Now(), states) == {}
    {
      ghost var now, kind := Campaign.Attempt(was + 1, before, todo), Kind(world);
      NotTodoWasRun(plan, Now(), before);
      LaunchShards(was, before, todo, now);
      RunKeepsInv(plan, run, |run| - 1);
      if kind { SoFarLaunched(plan, Now(), todo); }
      refused := RunShards(todo, was + 1, now, kind);
      states := CheckUnits();
      if kind { AllDone(plan, Now()); }
      ghost var t := Now().(phase := if refused then Aborted else Checked(was + 1, states));
      SameTodo(plan, Now(), t, states);
      Took(t, EndAttempt);
    }

    // -------------------------------------------------------------------------------
    // Finalising
    // -------------------------------------------------------------------------------

    method FinalizeShard(i: nat, states: States, ghost all: set<nat>)
      requires Valid() && PlanOk(plan) && Knows(plan, states) && i < |plan.shards| == |disk| && i in all
      requires Now().phase.Finalizing? && Now().phase.last == states
               && Now().phase.pending == LeftFrom(plan, states, all, i, [])
      modifies this
      ensures Valid() && |disk| == |old(disk)| && runJson == old(runJson)
      ensures Now().phase == Finalizing(old(Now()).phase.tries, states, LeftFrom(plan, states, all, i + 1, []))
    {
      var cases := plan.shards[i].cases;
      for k := 0 to |cases|
        invariant Valid() && |disk| == |old(disk)| && runJson == old(runJson)
        invariant Now().phase == Finalizing(old(Now()).phase.tries, states, LeftFrom(plan, states, all, i, cases[..k]))
      {
        LeftNext(plan, states, all, i, k);
        var u := (i, cases[k]);
        if states[u] != UnitOk {
          disk := Write(disk, u, Finalize(Dir(disk, u), states[u], world.hit(u)));
          Took(Now().(disk := disk, phase := Finalizing(Now().phase.tries, states, Now().phase.pending - {u})),
               FinalizeOne(u, world.hit(u)));
        }
      }
      assert cases[..|cases|] == cases;
      LeftShard(plan, states, all, i);
    }

    /** Make every unit that still fails score as missed. */
    method FinalizeFailing(states: States)
      requires Valid() && PlanOk(plan) && Knows(plan, states) && |plan.shards| == |disk|
      requires Now().phase.Finalizing? && Now().phase.last == states && Now().phase.pending == Failing(plan, states)
      modifies this
      ensures Valid() && |disk| == |old(disk)| && runJson == old(runJson)
      ensures Now().phase == Finalizing(old(Now()).phase.tries, states, {})
    {
      ghost var all := UpTo(|plan.shards|);
      assert LeftFrom(plan, states, all, 0, []) == Failing(plan, states);
      for i := 0 to |plan.shards|
        invariant Valid() && |disk| == |old(disk)| && runJson == old(runJson)
        invariant Now().phase == Finalizing(old(Now()).phase.tries, states, LeftFrom(plan, states, all, i, []))
      {
        FinalizeShard(i, states, all);
      }
      assert LeftFrom(plan, states, all, |plan.shards|, []) == {};
    }

    method HasEveryRunJson() returns (all: bool)
      ensures all <==> forall i :: 0 <= i < |runJson| ==> runJson[i]
    {
      for i := 0 to |runJson|
        invariant forall j :: 0 <= j < i ==> runJson[j]
      {
        if !runJson[i] { return false; }
      }
      all := true;
    }

    // -------------------------------------------------------------------------------
    // The pass
    // -------------------------------------------------------------------------------

    /** Attempt until every shard is done or the attempts are used up, then finalise.  However the world
        behaves, the process made a run of the campaign machine. */
    method RunUnits() returns (end: PassEnd)
      requires Valid() && Now() == start && start.phase.Idle?
      modifies this
      ensures Valid()
      ensures end.ConfigurationRefused? ==> Now().phase == Aborted
      ensures !end.ConfigurationRefused? ==> Now().phase == Finished(end.Complete?)
      ensures Kind(world) && plan.maxAttempts >= 1 ==> end.Complete?
    {
      RunKeepsInv(plan, run, |run| - 1);
      var states := CheckUnits();
      Took(Now().(phase := Checked(0, states), log := []), Begin);
      var attempt := 0;
      while attempt < plan.maxAttempts
        invariant Valid() && PlanOk(plan) && |plan.shards| == |disk| == |runJson|
        invariant attempt <= plan.maxAttempts && states == Check(plan, disk)
        invariant Now().phase == Checked(attempt, states)
        invariant Kind(world) && attempt >= 1 ==> Todo(plan, Now(), states) == {}
      {
        var todo := FindTodo(states);
        if todo == {} { break; }
        var refused;
        states, refused := Attempt(attempt, states, todo);
        if refused { return ConfigurationRefused; }
        attempt := attempt + 1;
      }
      if Todo(plan, Now(), states) == {} { NothingToDo(plan, Now(), states); }
      Took(Now().(phase := Finalizing(attempt, states, Failing(plan, states))), StartFinalize);
      FinalizeFailing(states);
      var all := HasEveryRunJson();
      Took(Now().(phase := Finished(all)), Finish);
      end := if all then Complete else MissingRunJson;
    }

    /** What the pass leaves: a unit that was good when the process started has the same files, no case was
        executed more than `maxAttempts` times, when every shard has its `run.json` each unit is good or
        reads as missed, and a graded one was good from the start or left so by its last execution. */
    method RunPass() returns (end: PassEnd)
      requires Valid() && Now() == start && start.phase.Idle?
      modifies this
      ensures Valid()
      ensures forall u: UnitId :: IsUnit(plan, u) && GoodUnit(Dir(start.disk, u)) ==>
                Dir(disk, u) == Dir(start.disk, u)
      ensures forall u: UnitId :: |RunsOf(Now().log, u)| <= plan.maxAttempts
      ensures end.Complete? ==> forall u: UnitId :: IsUnit(plan, u) ==>
                && u.0 < |disk| && u.1 in disk[u.0]
                && (GoodUnit(Dir(disk, u)) || ReadsMissed(Dir(disk, u)))
      ensures !end.ConfigurationRefused? ==> forall u: UnitId :: IsUnit(plan, u) && ReadsGraded(Dir(disk, u)) ==>
                RanWell(run, |run| - 1, u)
    {
      end := RunUnits();
      RunKeepsInv(plan, run, |run| - 1);
      forall u: UnitId | IsUnit(plan, u) && GoodUnit(Dir(start.disk, u))
        ensures Dir(disk, u) == Dir(start.disk, u)
      {
        OkForever(plan, run, 0, |run| - 1, u);
      }
      forall u: UnitId ensures |RunsOf(Now().log, u)| <= plan.maxAttempts {
        AttemptsAreBounded(plan, run, |run| - 1, u);
      }
      forall u: UnitId | !end.ConfigurationRefused? && IsUnit(plan, u) && ReadsGraded(Dir(disk, u))
        ensures RanWell(run, |run| - 1, u)
      {
        var j := GradedUnitRanWell(plan, run, |run| - 1, u);
      }
    }
  }

  // ---------------------------------------------------------------------------------
  // A pass, and the pass resumed with another number of case jobs
  // ---------------------------------------------------------------------------------

  lemma ShardsAreOk(ids: seq<string>, folds: map<string, nat>, k: nat, jobs: nat, attempts: nat)
    requires jobs >= 1 && Distinct(ids) && forall id :: id in ids ==> id in folds
    ensures PlanOk(Plan(Shards(ids, folds, k, jobs), attempts))
  {
    var shards := Shards(ids, folds, k, jobs);
    forall i | 0 <= i < |shards| ensures Distinct(shards[i].cases) {
      ShardIsPart(ids, folds, k, jobs, i);
      CasesInFoldMembers(ids, folds, shards[i].fold);
      StrideDistinct(CasesInFold(ids, folds, shards[i].fold), shards[i].index,
        |Dealt(ids, folds, shards[i].fold, jobs)|);
    }
  }

  lemma StrideDistinct(ids: seq<string>, start: nat, step: nat)
    requires step > 0 && Distinct(ids) && start < step
    ensures Distinct(Stride(ids, start, step))
  {
    var s := Stride(ids, start, step);
    forall a, b | 0 <= a < b < |s| ensures s[a] != s[b] {
      StrideElement(ids, start, step, a);
      StrideElement(ids, start, step, b);
      ShardOnlyOfPosition(ids, step, start + a * step, start, a);
      if s[a] == s[b] {
        ShardOnlyOfPosition(ids, step, start + a * step, start, b);
      }
    }
  }

  lemma {:induction false} NamedOneResult(shards: seq<Shard>, disk: Disk, s: Shard, id: string)
    requires |disk| == |shards| && forall u: UnitId :: OneResult(Dir(disk, u))
    ensures var dir := Named(shards, disk, s.fold, s.index, map[]); id in dir ==> OneResult(dir[id])
    decreases |shards|
  {
    if shards != [] {
      var last := |shards| - 1;
      assert OneResult(Dir(disk, (last, id)));
      forall u: UnitId ensures OneResult(Dir(disk[..last], u)) {
        assert OneResult(Dir(disk, u));
      }
      NamedOneResult(shards[..last], disk[..last], s, id);
    }
  }

  lemma ResumedStarts(first: Plan, s: Pass, second: Plan, t: Pass)
    requires DiskOk(first, s) && PlanOk(second) && Resumes(first.shards, s, second.shards, t)
    ensures Start(second, t)
  {
    forall u: UnitId ensures OneResult(Dir(t.disk, u)) {
      if u.0 < |second.shards| {
        NamedOneResult(first.shards, s.disk, second.shards[u.0], u.1);
      }
    }
  }

  /** Run a pass with `jobs` case jobs on nothing, run it again with `jobs'` on what it left, and join.  In
      kind worlds both passes finish, so the join is refused exactly when the deals disagree. */
  method ResumeWithOtherJobs(ids: seq<string>, folds: map<string, nat>, k: nat, jobs: nat, jobs': nat,
                             attempts: nat, world: World, world': World)
    returns (r: Result<seq<UnitDir>, MergeError>)
    requires jobs >= 1 && jobs' >= 1 && attempts >= 1 && Kind(world) && Kind(world')
    requires ids != [] && Distinct(ids) && forall id :: id in ids ==> id in folds && folds[id] < k
    ensures r.Ok? <==> DealtSafely(ids, folds, k, jobs, jobs')
  {
    var first, second := Plan(Shards(ids, folds, k, jobs), attempts), Plan(Shards(ids, folds, k, jobs'), attempts);
    ShardsAreOk(ids, folds, k, jobs, attempts);
    ShardsAreOk(ids, folds, k, jobs', attempts);
    var runner := new Runner(first, world, seq(|first.shards|, _ => map[]), seq(|first.shards|, _ => false));
    var _ := runner.RunUnits();
    RunKeepsInv(first, runner.run, |runner.run| - 1);
    var disk := Carried(first.shards, runner.disk, second.shards, map[]);
    var runJson := Carried(first.shards, runner.runJson, second.shards, false);
    ResumedStarts(first, runner.Now(), second, Pass(disk, runJson, Idle, []));
    var resumed := new Runner(second, world', disk, runJson);
    var _ := resumed.RunUnits();
    ResumedPassJoinsIff(ids, folds, k, jobs, jobs', attempts, attempts, runner.run, resumed.run);
    r := MergeRuns(resumed.disk, ids);
    assert ids[0] in ids;
  }
}
