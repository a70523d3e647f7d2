/** Reading a Makefile's rules, and following one goal through its prerequisites: the worklist visits
    exactly the targets the goal reaches, each once, cycles or not. */
module MakeWalk {
  import opened Prelude
  import opened Sorting

  // ---------------------------------------------------------------------------------
  // The rules of a Makefile
  // ---------------------------------------------------------------------------------

  /** A Makefile line by kind.  `Command` is a tab-indented recipe line, `Rule` a rule line with its
      targets, plain prerequisite names and inline recipe, `Skipped` a blank or comment line, `Other`
      anything else, which closes the open rule.  Recipe prefixes are already taken off a command. */
  datatype Line =
    | Command(text: string)
    | Rule(targets: seq<string>, names: seq<string>, inline: Option<string>)
    | Skipped
    | Other

  datatype Makefile = Makefile(recipes: map<string, seq<string>>, needs: map<string, seq<string>>, goal: Option<string>)

  function Entry(m: map<string, seq<string>>, target: string): seq<string> {
    if target in m then m[target] else []
  }

  function Recipe(mk: Makefile, target: string): seq<string> {
    Entry(mk.recipes, target)
  }

  function Needs(mk: Makefile, target: string): seq<string> {
    Entry(mk.needs, target)
  }

  /** A command line counts when it is not empty and not a comment. */
  predicate Counts(command: string) {
    command != "" && command[0] != '#'
  }

  /** The rule open after `k` lines. */
  function Open(lines: seq<Line>, k: nat): seq<string>
    requires k <= |lines|
  {
    if k == 0 then []
    else
      match lines[k - 1]
      case Rule(targets, _, _) => targets
      case Other => []
      case _ => Open(lines, k - 1)
  }

  /** `items` once for every time `target` is named in `targets`. */
  function PerMention<T>(target: string, targets: seq<string>, items: seq<T>): seq<T> {
    if targets == [] then []
    else if targets[0] == target then items + PerMention(target, targets[1..], items)
    else PerMention(target, targets[1..], items)
  }

  function Counted(command: string): seq<string> {
    if Counts(command) then [command] else []
  }

  /** What line `k` adds to the recipe of `target`. */
  function Adds(lines: seq<Line>, k: nat, target: string): seq<string>
    requires k < |lines|
  {
    match lines[k]
    case Command(text) => PerMention(target, Open(lines, k), Counted(text))
    case Rule(targets, _, Some(text)) => PerMention(target, targets, Counted(text))
    case _ => []
  }

  /** The commands of `target`: those of every rule that names it, in file order. */
  function RecipeLines(lines: seq<Line>, k: nat, target: string): seq<string>
    requires k <= |lines|
  {
    if k == 0 then [] else RecipeLines(lines, k - 1, target) + Adds(lines, k - 1, target)
  }

  function NeedsAdded(line: Line, target: string): seq<string> {
    match line
    case Rule(targets, names, _) => PerMention(target, targets, names)
    case _ => []
  }

  function NeedLines(lines: seq<Line>, k: nat, target: string): seq<string>
    requires k <= |lines|
  {
    if k == 0 then [] else NeedLines(lines, k - 1, target) + NeedsAdded(lines[k - 1], target)
  }

  predicate CanBeGoal(target: string) {
    (target == "" || target[0] != '.') && '%' !in target
  }

  function FirstGoal(targets: seq<string>): Option<string> {
    if targets == [] then None
    else if CanBeGoal(targets[0]) then Some(targets[0])
    else FirstGoal(targets[1..])
  }

  function GoalOf(lines: seq<Line>, k: nat): Option<string>
    requires k <= |lines|
  {
    if k == 0 then None
    else if GoalOf(lines, k - 1).Some? then GoalOf(lines, k - 1)
    else if lines[k - 1].Rule? then FirstGoal(lines[k - 1].targets)
    else None
  }

  lemma {:induction false} PerMentionLast<T>(target: string, targets: seq<string>, items: seq<T>, k: nat)
    requires k < |targets|
    ensures PerMention(target, targets[..k + 1], items)
         == PerMention(target, targets[..k], items) + (if targets[k] == target then items else [])
  {
    if k == 0 {
      assert targets[..1][1..] == [];
    } else {
      PerMentionLast(target, targets[1..], items, k - 1);
      assert targets[..k + 1][1..] == targets[1..][..k] && targets[..k][1..] == targets[1..][..k - 1];
    }
  }

  ghost predicate Grown(now: map<string, seq<string>>, was: map<string, seq<string>>, targets: seq<string>,
                        items: seq<string>)
  {
    forall t :: Entry(now, t) == Entry(was, t) + PerMention(t, targets, items)
  }

  lemma GrownOnce(now: map<string, seq<string>>, was: map<string, seq<string>>, targets: seq<string>,
                  items: seq<string>, k: nat)
    requires k < |targets| && Grown(now, was, targets[..k], items)
    ensures Grown(now[targets[k] := Entry(now, targets[k]) + items], was, targets[..k + 1], items)
  {
    var after := now[targets[k] := Entry(now, targets[k]) + items];
    forall t ensures Entry(after, t) == Entry(was, t) + PerMention(t, targets[..k + 1], items) {
      PerMentionLast(t, targets, items, k);
      var more := if targets[k] == t then items else [];
      assert Entry(after, t) == Entry(now, t) + more;
      ConcatAssociates(Entry(was, t), PerMention(t, targets[..k], items), more);
    }
  }

  /** Append `items` to the entry of each of `targets`, in turn. */
  method Extend(was: map<string, seq<string>>, targets: seq<string>, items: seq<string>)
    returns (now: map<string, seq<string>>)
    ensures Grown(now, was, targets, items)
  {
    now := was;
    for k := 0 to |targets|
      invariant Grown(now, was, targets[..k], items)
    {
      GrownOnce(now, was, targets, items, k);
      now := now[targets[k] := Entry(now, targets[k]) + items];
    }
    assert targets[..|targets|] == targets;
  }

  method FindGoal(targets: seq<string>) returns (goal: Option<string>)
    ensures goal == FirstGoal(targets)
  {
    for k := 0 to |targets|
      invariant FirstGoal(targets) == FirstGoal(targets[k..])
    {
      assert targets[k..][1..] == targets[k + 1..];
      if CanBeGoal(targets[k]) {
        return Some(targets[k]);
      }
    }
    return None;
  }

  ghost predicate Describes(mk: Makefile, lines: seq<Line>, k: nat)
    requires k <= |lines|
  {
    && (forall t :: Recipe(mk, t) == RecipeLines(lines, k, t))
    && (forall t :: Needs(mk, t) == NeedLines(lines, k, t))
    && mk.goal == GoalOf(lines, k)
  }

  /** One line's additions to the recipes and prerequisites. */
  lemma LineDescribed(was: Makefile, mk: Makefile, lines: seq<Line>, k: nat)
    requires k < |lines| && Describes(was, lines, k)
    requires forall t :: Recipe(mk, t) == Recipe(was, t) + Adds(lines, k, t)
    requires forall t :: Needs(mk, t) == Needs(was, t) + NeedsAdded(lines[k], t)
    requires mk.goal == if was.goal.None? && lines[k].Rule? then FirstGoal(lines[k].targets) else was.goal
    ensures Describes(mk, lines, k + 1)
  {
  }

  lemma {:induction false} NothingPerMention<T>(target: string, targets: seq<string>)
    ensures PerMention<T>(target, targets, []) == []
  {
    if targets != [] { NothingPerMention<T>(target, targets[1..]); }
  }

  /** Append a command, when it counts, to the recipe of each target. */
  method Add(was: map<string, seq<string>>, targets: seq<string>, command: string)
    returns (now: map<string, seq<string>>)
    ensures Grown(now, was, targets, Counted(command))
  {
    if Counts(command) {
      now := Extend(was, targets, [command]);
    } else {
      now := was;
      forall t ensures Entry(now, t) == Entry(was, t) + PerMention(t, targets, []) {
        NothingPerMention<string>(t, targets);
      }
    }
  }

  /** Read one line, with the targets of the open rule at hand. */
  method ReadLine(was: Makefile, lines: seq<Line>, k: nat, open: seq<string>) returns (mk: Makefile, now: seq<string>)
    requires k < |lines| && Describes(was, lines, k) && open == Open(lines, k)
    ensures Describes(mk, lines, k + 1) && now == Open(lines, k + 1)
  {
    mk, now := was, open;
    match lines[k] {
      case Command(text) =>
        var recipes := Add(was.recipes, open, text);
        mk := Makefile(recipes, was.needs, was.goal);
      case Rule(targets, names, inline) =>
        now := targets;
        var goal := was.goal;
        if goal.None? {
          goal := FindGoal(targets);
        }
        var needs := Extend(was.needs, targets, names);
        var recipes := was.recipes;
        if inline.Some? {
          recipes := Add(recipes, targets, inline.value);
        }
        mk := Makefile(recipes, needs, goal);
      case Skipped =>
      case Other => now := [];
    }
    LineDescribed(was, mk, lines, k);
  }

  /** The recipes, prerequisites and default goal of a Makefile's lines. */
  method MakeRecipes(lines: seq<Line>) returns (mk: Makefile)
    ensures Describes(mk, lines, |lines|)
  {
    mk := Makefile(map[], map[], None);
    var open: seq<string> := [];
    for k := 0 to |lines|
      invariant Describes(mk, lines, k) && open == Open(lines, k)
    {
      mk, open := ReadLine(mk, lines, k, open);
    }
  }

  // ---------------------------------------------------------------------------------
  // What a Makefile says
  // ---------------------------------------------------------------------------------

  /** The rule at line `j` names the target and is still open at line `k`. */
  ghost predicate OpenTo(lines: seq<Line>, j: nat, k: nat, target: string)
    requires k <= |lines|
  {
    && j < k && lines[j].Rule? && target in lines[j].targets
    && forall i :: j < i < k ==> lines[i].Command? || lines[i].Skipped?
  }

  /** Line `k` is a command of an open rule that names the target, or such a rule with an inline command. */
  ghost predicate GivesCommand(lines: seq<Line>, k: nat, target: string, command: string) {
    && k < |lines| && command != "" && command[0] != '#'
    && (|| (lines[k] == Command(command) && exists j: nat :: OpenTo(lines, j, k, target))
        || (lines[k].Rule? && target in lines[k].targets && lines[k].inline == Some(command)))
  }

  ghost predicate GivesNeed(lines: seq<Line>, k: nat, target: string, name: string) {
    k < |lines| && lines[k].Rule? && target in lines[k].targets && name in lines[k].names
  }

  ghost predicate MayBeGoal(target: string) {
    (target == "" || target[0] != '.') && forall c :: c in target ==> c != '%'
  }

  /** Target `i` of the rule at line `k` may be the goal, and no target before it may. */
  ghost predicate FirstGoalAt(lines: seq<Line>, k: nat, i: nat) {
    && k < |lines| && lines[k].Rule? && i < |lines[k].targets| && MayBeGoal(lines[k].targets[i])
    && (forall h :: 0 <= h < i ==> !MayBeGoal(lines[k].targets[h]))
    && forall j, t :: 0 <= j < k && lines[j].Rule? && t in lines[j].targets ==> !MayBeGoal(t)
  }

  lemma {:induction false} PerMentionMembers<T>(target: string, targets: seq<string>, items: seq<T>, x: T)
    ensures x in PerMention(target, targets, items) <==> target in targets && x in items
  {
    if targets != [] {
      PerMentionMembers(target, targets[1..], items, x);
      assert target in targets <==> target == targets[0] || target in targets[1..];
    }
  }

  lemma {:induction false} OpenIs(lines: seq<Line>, k: nat, target: string)
    requires k <= |lines|
    ensures target in Open(lines, k) <==> exists j: nat :: OpenTo(lines, j, k, target)
  {
    if k > 0 {
      OpenIs(lines, k - 1, target);
      match lines[k - 1]
      case Rule(targets, _, _) =>
        if target in targets { assert OpenTo(lines, k - 1, k, target); }
      case Other =>
      case _ =>
        var before := k - 1;
        if j: nat :| OpenTo(lines, j, before, target) { assert OpenTo(lines, j, k, target); }
        if j: nat :| OpenTo(lines, j, k, target) { assert OpenTo(lines, j, before, target); }
    }
  }

  lemma AddsIs(lines: seq<Line>, k: nat, target: string, command: string)
    requires k < |lines|
    ensures command in Adds(lines, k, target) <==> GivesCommand(lines, k, target, command)
  {
    OpenIs(lines, k, target);
    match lines[k]
    case Command(text) => PerMentionMembers(target, Open(lines, k), Counted(text), command);
    case Rule(targets, _, Some(text)) => PerMentionMembers(target, targets, Counted(text), command);
    case _ =>
  }

  lemma {:induction false} RecipeIs(lines: seq<Line>, n: nat, target: string, command: string)
    requires n <= |lines|
    ensures command in RecipeLines(lines, n, target) <==>
              exists k: nat :: k < n && GivesCommand(lines, k, target, command)
  {
    if n > 0 {
      RecipeIs(lines, n - 1, target, command);
      AddsIs(lines, n - 1, target, command);
    }
  }

  lemma {:induction false} NeedsIs(lines: seq<Line>, n: nat, target: string, name: string)
    requires n <= |lines|
    ensures name in NeedLines(lines, n, target) <==> exists k: nat :: k < n && GivesNeed(lines, k, target, name)
  {
    if n > 0 {
      NeedsIs(lines, n - 1, target, name);
      if lines[n - 1].Rule? {
        PerMentionMembers(target, lines[n - 1].targets, lines[n - 1].names, name);
      }
      assert name in NeedsAdded(lines[n - 1], target) <==> GivesNeed(lines, n - 1, target, name);
    }
  }

  lemma {:induction false} FirstGoalIs(targets: seq<string>)
    ensures FirstGoal(targets) == None <==> forall t :: t in targets ==> !MayBeGoal(t)
    ensures FirstGoal(targets).Some? ==>
              exists i: nat :: i < |targets| && targets[i] == FirstGoal(targets).value && MayBeGoal(targets[i])
                && forall h :: 0 <= h < i ==> !MayBeGoal(targets[h])
  {
    if targets != [] {
      FirstGoalIs(targets[1..]);
      assert forall t :: t in targets <==> t == targets[0] || t in targets[1..];
      assert CanBeGoal(targets[0]) <==> MayBeGoal(targets[0]);
      assert targets[0] in targets;
      if CanBeGoal(targets[0]) {
        assert targets[0] == FirstGoal(targets).value;
      } else if FirstGoal(targets[1..]).Some? {
        var i: nat :| i < |targets| - 1 && targets[1..][i] == FirstGoal(targets[1..]).value
          && MayBeGoal(targets[1..][i]) && forall h :: 0 <= h < i ==> !MayBeGoal(targets[1..][h]);
        assert targets[i + 1] == FirstGoal(targets).value;
        forall h | 0 <= h < i + 1 ensures !MayBeGoal(targets[h]) {
          if h > 0 { assert targets[h] == targets[1..][h - 1]; }
        }
      }
    }
  }

  ghost predicate NoGoalBefore(lines: seq<Line>, n: nat)
    requires n <= |lines|
  {
    forall j, t :: 0 <= j < n && lines[j].Rule? && t in lines[j].targets ==> !MayBeGoal(t)
  }

  lemma {:induction false} GoalIs(lines: seq<Line>, n: nat)
    requires n <= |lines|
    ensures GoalOf(lines, n) == None <==> NoGoalBefore(lines, n)
    ensures GoalOf(lines, n).Some? ==>
              exists k: nat, i: nat :: FirstGoalAt(lines, k, i) && lines[k].targets[i] == GoalOf(lines, n).value
  {
    if n > 0 {
      GoalIs(lines, n - 1);
      if GoalOf(lines, n - 1).None? && lines[n - 1].Rule? {
        var targets := lines[n - 1].targets;
        FirstGoalIs(targets);
        if FirstGoal(targets).Some? {
          var i: nat :| i < |targets| && targets[i] == FirstGoal(targets).value && MayBeGoal(targets[i])
                        && forall h :: 0 <= h < i ==> !MayBeGoal(targets[h]);
          assert FirstGoalAt(lines, n - 1, i);
          assert targets[i] in targets;
        }
      }
    }
  }

  /** What is read from the lines of a Makefile: a target has the commands that some line gives it and needs the
      names that some rule gives it, and the default goal is the first target that may be one. */
  lemma MakefileIs(mk: Makefile, lines: seq<Line>)
    requires Describes(mk, lines, |lines|)
    ensures forall t, c :: c in Recipe(mk, t) <==> exists k: nat :: k < |lines| && GivesCommand(lines, k, t, c)
    ensures forall t, n :: n in Needs(mk, t) <==> exists k: nat :: k < |lines| && GivesNeed(lines, k, t, n)
    ensures mk.goal == None <==> NoGoalBefore(lines, |lines|)
    ensures mk.goal.Some? ==>
              exists k: nat, i: nat :: FirstGoalAt(lines, k, i) && lines[k].targets[i] == mk.goal.value
  {
    forall t, c
      ensures c in Recipe(mk, t) <==> exists k: nat :: k < |lines| && GivesCommand(lines, k, t, c)
    {
      RecipeIs(lines, |lines|, t, c);
    }
    forall t, n
      ensures n in Needs(mk, t) <==> exists k: nat :: k < |lines| && GivesNeed(lines, k, t, n)
    {
      NeedsIs(lines, |lines|, t, n);
    }
    GoalIs(lines, |lines|);
  }

  // ---------------------------------------------------------------------------------
  // Following a goal
  // ---------------------------------------------------------------------------------

  /** A run of targets, each a prerequisite of the one before it. */
  ghost predicate Chain(mk: Makefile, path: seq<string>) {
    path != [] && forall i :: 0 < i < |path| ==> path[i] in Needs(mk, path[i - 1])
  }

  /** `make a` runs `b`: it is `a`, or a prerequisite reached from it. */
  ghost predicate Reaches(mk: Makefile, a: string, b: string) {
    exists path :: Chain(mk, path) && path[0] == a && path[|path| - 1] == b
  }

  lemma ReachesSelf(mk: Makefile, a: string)
    ensures Reaches(mk, a, a)
  {
    assert Chain(mk, [a]);
  }

  lemma ReachesNext(mk: Makefile, a: string, b: string, c: string)
    requires Reaches(mk, a, b) && c in Needs(mk, b)
    ensures Reaches(mk, a, c)
  {
    var path :| Chain(mk, path) && path[0] == a && path[|path| - 1] == b;
    var longer := path + [c];
    forall i | 0 < i < |longer| ensures longer[i] in Needs(mk, longer[i - 1]) {
      assert longer[i - 1] == path[i - 1];
    }
    assert Chain(mk, longer);
  }

  /** A set that holds `a` and the prerequisites of its members holds all that `a` reaches. */
  ghost predicate Closed(mk: Makefile, s: set<string>) {
    forall t, n :: t in s && n in Needs(mk, t) ==> n in s
  }

  lemma {:induction false} ChainStays(mk: Makefile, s: set<string>, path: seq<string>, k: nat)
    requires Closed(mk, s) && Chain(mk, path) && path[0] in s && k < |path|
    ensures path[k] in s
  {
    if k > 0 { ChainStays(mk, s, path, k - 1); }
  }

  lemma ReachesStays(mk: Makefile, s: set<string>, a: string, b: string)
    requires Closed(mk, s) && a in s && Reaches(mk, a, b)
    ensures b in s
  {
    var path :| Chain(mk, path) && path[0] == a && path[|path| - 1] == b;
    ChainStays(mk, s, path, |path| - 1);
  }

  /** Every name the walk can meet. */
  function Names(mk: Makefile, goal: string): set<string> {
    {goal} + set t, n | t in mk.needs && n in mk.needs[t] :: n
  }

  function Commands(mk: Makefile, order: seq<string>): seq<string> {
    if order == [] then []
    else Commands(mk, order[..|order| - 1]) + Recipe(mk, order[|order| - 1])
  }

  function Members(s: seq<string>): set<string> {
    set t | t in s
  }

  /** The state of the worklist: `order` lists what was visited. */
  ghost predicate Walking(mk: Makefile, goal: string, seen: set<string>, pending: seq<string>, order: seq<string>,
                          commands: seq<string>)
  {
    && Distinct(order) && seen == Members(order) && commands == Commands(mk, order)
    && (forall t :: t in seen || t in pending ==> t in Names(mk, goal) && Reaches(mk, goal, t))
    && (goal in seen || goal in pending)
    && (forall t, n :: t in seen && n in Needs(mk, t) ==> n in seen || n in pending)
  }

  /** What the walk establishes: exactly what the goal reaches, each once. */
  ghost predicate WalkOf(mk: Makefile, goal: string, seen: set<string>, commands: seq<string>, order: seq<string>) {
    && (forall t :: t in seen <==> Reaches(mk, goal, t))
    && Distinct(order) && seen == Members(order) && commands == Commands(mk, order)
  }

  lemma SkipKeeps(mk: Makefile, goal: string, seen: set<string>, pending: seq<string>, order: seq<string>,
                  commands: seq<string>)
    requires Walking(mk, goal, seen, pending, order, commands) && pending != [] && pending[|pending| - 1] in seen
    ensures Walking(mk, goal, seen, pending[..|pending| - 1], order, commands)
  {
    var rest, last := pending[..|pending| - 1], pending[|pending| - 1];
    assert pending == rest + [last];
  }

  lemma VisitKeeps(mk: Makefile, goal: string, seen: set<string>, pending: seq<string>, order: seq<string>,
                   commands: seq<string>)
    requires Walking(mk, goal, seen, pending, order, commands) && pending != [] && pending[|pending| - 1] !in seen
    ensures var last := pending[|pending| - 1];
            Walking(mk, goal, seen + {last}, pending[..|pending| - 1] + Needs(mk, last), order + [last],
                    commands + Recipe(mk, last))
  {
    var rest, last := pending[..|pending| - 1], pending[|pending| - 1];
    var now := rest + Needs(mk, last);
    assert pending == rest + [last];
    assert (order + [last])[..|order + [last]| - 1] == order;
    assert last in pending;
    forall t | t in now ensures t in Names(mk, goal) && Reaches(mk, goal, t) {
      if t in rest {
        assert t in pending;
      } else {
        ReachesNext(mk, goal, last, t);
      }
    }
    VisitedMembers(order, last);
  }

  lemma VisitedMembers(order: seq<string>, last: string)
    requires Distinct(order) && last !in Members(order)
    ensures Distinct(order + [last]) && Members(order + [last]) == Members(order) + {last}
  {
    forall i | 0 <= i < |order| ensures order[i] != last {
      assert order[i] in Members(order);
    }
  }

  lemma NeedsAreNames(mk: Makefile, goal: string, t: string)
    ensures forall n :: n in Needs(mk, t) ==> n in Names(mk, goal)
  {
  }

  /** The targets still to be visited, in order. */
  function Visit(mk: Makefile, goal: string, seen: set<string>, pending: seq<string>): seq<string>
    requires forall t :: t in pending ==> t in Names(mk, goal)
    decreases Names(mk, goal) - seen, |pending|
  {
    if pending == [] then []
    else
      var rest, last := pending[..|pending| - 1], pending[|pending| - 1];
      if last in seen then Visit(mk, goal, seen, rest)
      else
        NeedsAreNames(mk, goal, last);
        [last] + Visit(mk, goal, seen + {last}, rest + Needs(mk, last))
  }

  /** The targets `make goal` runs, in the order the walk visits them. */
  function Order(mk: Makefile, goal: string): seq<string> {
    Visit(mk, goal, {}, [goal])
  }

  lemma {:induction false} VisitWalks(mk: Makefile, goal: string, seen: set<string>, pending: seq<string>,
                                      order: seq<string>)
    requires Walking(mk, goal, seen, pending, order, Commands(mk, order))
    ensures var all := order + Visit(mk, goal, seen, pending);
            WalkOf(mk, goal, Members(all), Commands(mk, all), all)
    decreases Names(mk, goal) - seen, |pending|
  {
    if pending == [] {
      assert order + [] == order;
      forall t | Reaches(mk, goal, t) ensures t in seen {
        ReachesStays(mk, seen, goal, t);
      }
    } else {
      var rest, last := pending[..|pending| - 1], pending[|pending| - 1];
      if last in seen {
        SkipKeeps(mk, goal, seen, pending, order, Commands(mk, order));
        VisitWalks(mk, goal, seen, rest, order);
      } else {
        VisitKeeps(mk, goal, seen, pending, order, Commands(mk, order));
        assert last in pending;
        assert (order + [last])[..|order + [last]| - 1] == order;
        VisitWalks(mk, goal, seen + {last}, rest + Needs(mk, last), order + [last]);
        NeedsAreNames(mk, goal, last);
        ConcatAssociates(order, [last], Visit(mk, goal, seen + {last}, rest + Needs(mk, last)));
      }
    }
  }

  /** The walk visits exactly the targets its goal reaches, each once, and notes each one's recipe. */
  lemma WalkIsExact(mk: Makefile, goal: string)
    ensures WalkOf(mk, goal, Members(Order(mk, goal)), Commands(mk, Order(mk, goal)), Order(mk, goal))
  {
    ReachesSelf(mk, goal);
    VisitWalks(mk, goal, {}, [goal], []);
    assert [] + Order(mk, goal) == Order(mk, goal);
  }

  /** The walk so far: the targets seen, in order, and what is pending. */
  ghost predicate WalkSoFar(mk: Makefile, goal: string, order: seq<string>, seen: set<string>,
                            commands: seq<string>, pending: seq<string>)
  {
    && (forall t :: t in pending ==> t in Names(mk, goal))
    && seen == Members(order) && commands == Commands(mk, order)
    && order + Visit(mk, goal, seen, pending) == Order(mk, goal)
  }

  lemma SeenAgain(mk: Makefile, goal: string, order: seq<string>, seen: set<string>, commands: seq<string>,
                  pending: seq<string>)
    requires pending != [] && WalkSoFar(mk, goal, order, seen, commands, pending)
    requires pending[|pending| - 1] in seen
    ensures WalkSoFar(mk, goal, order, seen, commands, pending[..|pending| - 1])
  {
  }

  lemma SeenFirst(mk: Makefile, goal: string, order: seq<string>, seen: set<string>, commands: seq<string>,
                  pending: seq<string>, current: string)
    requires pending != [] && WalkSoFar(mk, goal, order, seen, commands, pending)
    requires current == pending[|pending| - 1] && current !in seen
    ensures current in Names(mk, goal)
    ensures WalkSoFar(mk, goal, order + [current], seen + {current}, commands + Recipe(mk, current),
                      pending[..|pending| - 1] + Needs(mk, current))
  {
    var rest := pending[..|pending| - 1];
    assert current in pending;
    NeedsAreNames(mk, goal, current);
    ConcatAssociates(order, [current], Visit(mk, goal, seen + {current}, rest + Needs(mk, current)));
    OrderGrows(mk, order, current);
  }

  lemma OrderGrows(mk: Makefile, order: seq<string>, current: string)
    ensures Members(order + [current]) == Members(order) + {current}
    ensures Commands(mk, order + [current]) == Commands(mk, order) + Recipe(mk, current)
  {
    assert (order + [current])[..|order + [current]| - 1] == order;
  }

  /** Follow `goal`: take the last pending target, note its recipe and its prerequisites, until
      nothing is pending. */
  method Follow(mk: Makefile, goal: string) returns (seen: set<string>, commands: seq<string>)
    ensures seen == Members(Order(mk, goal)) && commands == Commands(mk, Order(mk, goal))
    ensures forall t :: t in seen <==> Reaches(mk, goal, t)
  {
    seen, commands := {}, [];
    var pending := [goal];
    ghost var order := [];
    assert [] + Visit(mk, goal, {}, [goal]) == Order(mk, goal);
    while pending != []
      invariant WalkSoFar(mk, goal, order, seen, commands, pending)
      decreases Names(mk, goal) - seen, |pending|
    {
      var current := pending[|pending| - 1];
      if current in seen {
        SeenAgain(mk, goal, order, seen, commands, pending);
        pending := pending[..|pending| - 1];
      } else {
        SeenFirst(mk, goal, order, seen, commands, pending, current);
        seen := seen + {current};
        commands := commands + Recipe(mk, current);
        order := order + [current];
        pending := pending[..|pending| - 1] + Needs(mk, current);
      }
    }
    assert order + [] == order;
    WalkIsExact(mk, goal);
  }
}
