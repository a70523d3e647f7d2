/** Flagging added checks no CI file runs.  The runner files are read only when they can matter, each
    file at most once; the findings are those of always reading them. */
module CiWiring {
  import opened Prelude
  import opened Sorting
  import opened MakeWalk

  datatype Tool = Make | Npm

  /** A runner entry: a make target (`""` is the default goal) or a package script. */
  datatype Hop = Hop(tool: Tool, target: string)

  datatype Candidate = Candidate(path: string, reason: string, added: bool, target: Option<Hop>)

  /** How the texts are read: the command lines of a CI file, the runner entries a command line runs,
      whether a line names a candidate, a Makefile's rules, a package file's scripts, and a recipe line
      with the make variable spelled out. */
  datatype Reading = Reading(
    lines: string -> seq<string>,
    hops: string -> set<Hop>,
    mentions: (string, Candidate) -> bool,
    rules: string -> Makefile,
    scripts: string -> map<string, string>,
    spelled: string -> string)

  type Runners = map<string, string>

  const MAKEFILE_NAMES: seq<string> := ["GNUmakefile", "makefile", "Makefile"]
  const PACKAGE_JSON := "package.json"
  const MAX_CI_FILES := 12

  // ---------------------------------------------------------------------------------
  // What a CI file invokes
  // ---------------------------------------------------------------------------------

  function FirstIn(names: seq<string>, runners: Runners): Option<string> {
    if names == [] then None
    else if names[0] in runners then Some(names[0])
    else FirstIn(names[1..], runners)
  }

  lemma {:induction false} FirstInIsKey(names: seq<string>, runners: Runners)
    ensures FirstIn(names, runners).Some? ==> FirstIn(names, runners).value in runners
  {
    if names != [] { FirstInIsKey(names[1..], runners); }
  }

  /** The Makefile `make` would run, its rules, and the goal it starts from. */
  function MakeGoal(rd: Reading, runners: Runners, target: string): Option<(Makefile, string)> {
    FirstInIsKey(MAKEFILE_NAMES, runners);
    match FirstIn(MAKEFILE_NAMES, runners)
    case None => None
    case Some(name) =>
      var mk := rd.rules(runners[name]);
      if target != "" then Some((mk, target))
      else if mk.goal.Some? && mk.goal.value != "" then Some((mk, mk.goal.value))
      else None
  }

  function MakeTargets(rd: Reading, runners: Runners, target: string): set<string> {
    match MakeGoal(rd, runners, target)
    case None => {}
    case Some((mk, goal)) => Members(Order(mk, goal))
  }

  function RunnerCommands(rd: Reading, runners: Runners, hop: Hop): seq<string> {
    match hop.tool
    case Make =>
      (match MakeGoal(rd, runners, hop.target)
       case None => []
       case Some((mk, goal)) => Commands(mk, Order(mk, goal)))
    case Npm =>
      if PACKAGE_JSON !in runners then []
      else
        var scripts := rd.scripts(runners[PACKAGE_JSON]);
        if hop.target in scripts && scripts[hop.target] != "" then [scripts[hop.target]] else []
  }

  predicate RunsTarget(rd: Reading, runners: Runners, hop: Hop, target: Hop) {
    || hop == target
    || (runners != map[]
        && ((hop.tool == Make && target.tool == Make && target.target in MakeTargets(rd, runners, hop.target))
            || exists command :: command in RunnerCommands(rd, runners, hop) && target in rd.hops(rd.spelled(command))))
  }

  predicate HopMentions(rd: Reading, runners: Runners, hop: Hop, c: Candidate) {
    exists command :: command in RunnerCommands(rd, runners, hop) && rd.mentions(command, c)
  }

  /** A line of the CI file counts for the candidate, directly or one runner file deep. */
  predicate LineInvokes(rd: Reading, line: string, c: Candidate, runners: Runners) {
    match c.target
    case Some(target) => exists hop :: hop in rd.hops(line) && RunsTarget(rd, runners, hop, target)
    case None =>
      || rd.mentions(line, c)
      || (runners != map[] && exists hop :: hop in rd.hops(line) && HopMentions(rd, runners, hop, c))
  }

  predicate Invokes(rd: Reading, text: string, c: Candidate, runners: Runners) {
    exists line :: line in rd.lines(text) && LineInvokes(rd, line, c, runners)
  }

  datatype CiText = CiText(path: string, text: string)

  predicate Wired(rd: Reading, texts: seq<CiText>, c: Candidate, runners: Runners) {
    exists t :: t in texts && Invokes(rd, t.text, c, runners)
  }

  function Hops(rd: Reading, texts: seq<CiText>): set<Hop> {
    set t, line, hop | t in texts && line in rd.lines(t.text) && hop in rd.hops(line) :: hop
  }

  // ---------------------------------------------------------------------------------
  // What it is for a candidate to be run
  // ---------------------------------------------------------------------------------

  /** The Makefile that make would run, of those there are. */
  ghost predicate RunByMake(runners: Runners, name: string) {
    && name in runners
    && (|| name == "GNUmakefile"
        || (name == "makefile" && "GNUmakefile" !in runners)
        || (name == "Makefile" && "makefile" !in runners && "GNUmakefile" !in runners))
  }

  /** `make target` starts from `goal` of the Makefile with rules `mk`; without a target that is the default. */
  ghost predicate StartsFrom(rd: Reading, runners: Runners, target: string, mk: Makefile, goal: string) {
    && (exists name :: RunByMake(runners, name) && mk == rd.rules(runners[name]))
    && goal != "" && (if target == "" then mk.goal == Some(goal) else goal == target)
  }

  ghost predicate MakeReaches(rd: Reading, runners: Runners, target: string, t: string) {
    exists mk, goal :: StartsFrom(rd, runners, target, mk, goal) && Reaches(mk, goal, t)
  }

  /** Runner entry `hop` runs `command`: as a command of a target that its goal reaches, or as the script. */
  ghost predicate EntryRuns(rd: Reading, runners: Runners, hop: Hop, command: string) {
    match hop.tool
    case Make =>
      exists mk, goal, t ::
        StartsFrom(rd, runners, hop.target, mk, goal) && Reaches(mk, goal, t) && command in Recipe(mk, t)
    case Npm =>
      && "package.json" in runners && command != ""
      && var scripts := rd.scripts(runners["package.json"]);
         hop.target in scripts && scripts[hop.target] == command
  }

  /** The line runs the candidate.  One with a target of its own is run by an entry that is it, that is a make
      target reaching it, or that runs a command with it as an entry.  Another is run by a line that names it or
      has an entry that runs a command naming it. */
  ghost predicate LineRuns(rd: Reading, runners: Runners, line: string, c: Candidate) {
    match c.target
    case None =>
      || rd.mentions(line, c)
      || exists hop, command :: hop in rd.hops(line) && EntryRuns(rd, runners, hop, command) && rd.mentions(command, c)
    case Some(target) =>
      exists hop :: hop in rd.hops(line) && EntryReaches(rd, runners, hop, target)
  }

  ghost predicate EntryReaches(rd: Reading, runners: Runners, hop: Hop, target: Hop) {
    || hop == target
    || (hop.tool == target.tool == Make && MakeReaches(rd, runners, hop.target, target.target))
    || exists command :: EntryRuns(rd, runners, hop, command) && target in rd.hops(rd.spelled(command))
  }

  lemma MakeGoalIs(rd: Reading, runners: Runners, target: string, mk: Makefile, goal: string)
    ensures MakeGoal(rd, runners, target) == Some((mk, goal)) <==> StartsFrom(rd, runners, target, mk, goal)
  {
    var names := MAKEFILE_NAMES;
    assert names[1..] == ["makefile", "Makefile"] && names[1..][1..] == ["Makefile"] && names[1..][1..][1..] == [];
    FirstInIsKey(MAKEFILE_NAMES, runners);
    forall name ensures FirstIn(MAKEFILE_NAMES, runners) == Some(name) <==> RunByMake(runners, name) {
      assert FirstIn(names[1..][1..], runners) == if "Makefile" in runners then Some("Makefile") else None;
      assert FirstIn(names[1..], runners)
        == if "makefile" in runners then Some("makefile") else FirstIn(names[1..][1..], runners);
    }
  }

  lemma {:induction false} CommandsMembers(mk: Makefile, order: seq<string>, command: string)
    ensures command in Commands(mk, order) <==> exists t :: t in order && command in Recipe(mk, t)
  {
    if order != [] {
      var last := |order| - 1;
      CommandsMembers(mk, order[..last], command);
      assert order == order[..last] + [order[last]];
    }
  }

  lemma EntryRunsIff(rd: Reading, runners: Runners, hop: Hop, command: string)
    ensures command in RunnerCommands(rd, runners, hop) <==> EntryRuns(rd, runners, hop, command)
  {
    if hop.tool == Make {
      forall mk, goal
        ensures MakeGoal(rd, runners, hop.target) == Some((mk, goal)) <==> StartsFrom(rd, runners, hop.target, mk, goal)
      {
        MakeGoalIs(rd, runners, hop.target, mk, goal);
      }
      match MakeGoal(rd, runners, hop.target)
      case None =>
      case Some((mk, goal)) =>
        WalkIsExact(mk, goal);
        CommandsMembers(mk, Order(mk, goal), command);
        forall t ensures t in Order(mk, goal) <==> Reaches(mk, goal, t) {
          assert t in Members(Order(mk, goal)) <==> t in Order(mk, goal);
        }
    }
  }

  lemma MakeReachesIff(rd: Reading, runners: Runners, target: string, t: string)
    ensures t in MakeTargets(rd, runners, target) <==> MakeReaches(rd, runners, target, t)
  {
    forall mk, goal
      ensures MakeGoal(rd, runners, target) == Some((mk, goal)) <==> StartsFrom(rd, runners, target, mk, goal)
    {
      MakeGoalIs(rd, runners, target, mk, goal);
    }
    match MakeGoal(rd, runners, target)
    case None =>
    case Some((mk, goal)) => WalkIsExact(mk, goal);
  }

  lemma NothingRunsNothing(rd: Reading, hop: Hop, command: string)
    ensures !EntryRuns(rd, map[], hop, command) && forall t :: !MakeReaches(rd, map[], hop.target, t)
  {
  }

  lemma LineRunsIff(rd: Reading, runners: Runners, line: string, c: Candidate)
    ensures LineInvokes(rd, line, c, runners) <==> LineRuns(rd, runners, line, c)
  {
    forall hop, command
      ensures command in RunnerCommands(rd, runners, hop) <==> EntryRuns(rd, runners, hop, command)
      ensures runners == map[] ==> !EntryRuns(rd, runners, hop, command)
    {
      EntryRunsIff(rd, runners, hop, command);
      NothingRunsNothing(rd, hop, command);
    }
    if c.target.Some? {
      forall hop
        ensures RunsTarget(rd, runners, hop, c.target.value) <==> EntryReaches(rd, runners, hop, c.target.value)
      {
        MakeReachesIff(rd, runners, hop.target, c.target.value.target);
        NothingRunsNothing(rd, hop, "");
      }
    }
  }

  /** A candidate counts as wired exactly when some command line of some CI file runs it. */
  lemma WiredIff(rd: Reading, texts: seq<CiText>, c: Candidate, runners: Runners)
    ensures Wired(rd, texts, c, runners)
       <==> exists t, line :: t in texts && line in rd.lines(t.text) && LineRuns(rd, runners, line, c)
  {
    forall line ensures LineInvokes(rd, line, c, runners) <==> LineRuns(rd, runners, line, c) {
      LineRunsIff(rd, runners, line, c);
    }
  }

  // ---------------------------------------------------------------------------------
  // What the runner files can change
  // ---------------------------------------------------------------------------------

  /** A direct invocation stays one whatever the runner files say. */
  lemma WiredIsMonotone(rd: Reading, texts: seq<CiText>, c: Candidate, runners: Runners)
    requires Wired(rd, texts, c, map[])
    ensures Wired(rd, texts, c, runners)
  {
    var t :| t in texts && Invokes(rd, t.text, c, map[]);
    var line :| line in rd.lines(t.text) && LineInvokes(rd, line, c, map[]);
    LineIsMonotone(rd, line, c, runners);
  }

  lemma LineIsMonotone(rd: Reading, line: string, c: Candidate, runners: Runners)
    requires LineInvokes(rd, line, c, map[])
    ensures LineInvokes(rd, line, c, runners)
  {
    if c.target.Some? {
      var hop :| hop in rd.hops(line) && RunsTarget(rd, map[], hop, c.target.value);
      assert RunsTarget(rd, runners, hop, c.target.value);
    }
  }

  /** Without runner entries on the CI lines, runner files change nothing. */
  lemma NoHopsNoDifference(rd: Reading, texts: seq<CiText>, c: Candidate, runners: Runners)
    requires Hops(rd, texts) == {}
    ensures Wired(rd, texts, c, runners) <==> Wired(rd, texts, c, map[])
  {
    forall t, line | t in texts && line in rd.lines(t.text)
      ensures LineInvokes(rd, line, c, runners) <==> LineInvokes(rd, line, c, map[]) {
      forall hop ensures hop !in rd.hops(line) {
        assert hop in rd.hops(line) ==> hop in Hops(rd, texts);
      }
    }
  }

  // ---------------------------------------------------------------------------------
  // Reading the runner files
  // ---------------------------------------------------------------------------------

  type Source = string -> Option<string>

  /** The first of `names` that is listed and can be read, with its text. */
  function FirstText(names: seq<string>, source: Source, listing: Option<seq<string>>): (r: Runners)
    ensures |r| <= 1 && forall name :: name in r ==> name in names && source(name) == Some(r[name])
  {
    if names == [] then map[]
    else if (listing.None? || names[0] in listing.value) && source(names[0]).Some? then
      map[names[0] := source(names[0]).value]
    else FirstText(names[1..], source, listing)
  }

  predicate HasTool(hops: set<Hop>, tool: Tool) {
    exists hop :: hop in hops && hop.tool == tool
  }

  function ToolTexts(hops: set<Hop>, tool: Tool, names: seq<string>, source: Source,
                     listing: Option<seq<string>>): Runners
  {
    if HasTool(hops, tool) then FirstText(names, source, listing) else map[]
  }

  function RunnerTexts(hops: set<Hop>, source: Source, listing: Option<seq<string>>): Runners {
    ToolTexts(hops, Make, MAKEFILE_NAMES, source, listing) + ToolTexts(hops, Npm, [PACKAGE_JSON], source, listing)
  }

  ghost predicate MayRead(source: Source, listing: Option<seq<string>>, name: string) {
    source(name).Some? && (listing == None || name in listing.value)
  }

  /** A runner file is read: the package file for a script entry, and for a make entry the Makefile that make
      would run, of those that are listed and can be read. */
  ghost predicate IsRead(hops: set<Hop>, source: Source, listing: Option<seq<string>>, name: string) {
    && MayRead(source, listing, name)
    && (|| (name == "package.json" && exists hop :: hop in hops && hop.tool == Npm)
        || (&& (exists hop :: hop in hops && hop.tool == Make)
            && (|| name == "GNUmakefile"
                || (name == "makefile" && !MayRead(source, listing, "GNUmakefile"))
                || (name == "Makefile" && !MayRead(source, listing, "makefile")
                    && !MayRead(source, listing, "GNUmakefile")))))
  }

  lemma FirstTextOfMake(source: Source, listing: Option<seq<string>>, name: string)
    ensures name in FirstText(MAKEFILE_NAMES, source, listing) <==>
              && MayRead(source, listing, name)
              && (|| name == "GNUmakefile"
                  || (name == "makefile" && !MayRead(source, listing, "GNUmakefile"))
                  || (name == "Makefile" && !MayRead(source, listing, "makefile")
                      && !MayRead(source, listing, "GNUmakefile")))
  {
    var names := MAKEFILE_NAMES;
    var two, one := names[1..], names[1..][1..];
    assert two == ["makefile", "Makefile"] && one == ["Makefile"] && one[1..] == [];
    assert FirstText(one, source, listing)
      == if MayRead(source, listing, "Makefile") then map["Makefile" := source("Makefile").value] else map[];
    assert FirstText(two, source, listing)
      == if MayRead(source, listing, "makefile") then map["makefile" := source("makefile").value]
         else FirstText(one, source, listing);
  }

  lemma FirstTextOfPackage(source: Source, listing: Option<seq<string>>, name: string)
    ensures name in FirstText([PACKAGE_JSON], source, listing) <==>
              name == "package.json" && MayRead(source, listing, name)
  {
    assert [PACKAGE_JSON][1..] == [];
    assert FirstText([], source, listing) == map[];
  }

  /** Exactly those runner files are read, each with its text. */
  lemma RunnerTextIs(hops: set<Hop>, source: Source, listing: Option<seq<string>>, name: string)
    ensures name in RunnerTexts(hops, source, listing) <==> IsRead(hops, source, listing, name)
    ensures name in RunnerTexts(hops, source, listing) ==>
              source(name) == Some(RunnerTexts(hops, source, listing)[name])
  {
    FirstTextOfMake(source, listing, name);
    FirstTextOfPackage(source, listing, name);
  }

  /** The read of one run: a path is asked of the source at most once. */
  class ReadOnce {
    const source: Source
    var cache: map<string, Option<string>>
    ghost var asked: seq<string>

    ghost predicate Valid()
      reads this
    {
      && (forall path :: path in cache ==> cache[path] == source(path))
      && (forall path :: path in cache <==> path in asked)
      && Distinct(asked)
    }

    constructor (source: Source)
      ensures Valid() && this.source == source && asked == []
    {
      this.source := source;
      cache := map[];
      asked := [];
    }

    method Read(path: string) returns (text: Option<string>)
      requires Valid()
      modifies this
      ensures Valid() && text == source(path)
      ensures asked == if path in old(asked) then old(asked) else old(asked) + [path]
    {
      if path !in cache {
        cache := cache[path := source(path)];
        asked := asked + [path];
      }
      text := cache[path];
    }
  }

  ghost predicate ReadOnly(now: seq<string>, was: seq<string>, paths: set<string>) {
    forall path :: path in now ==> path in was || path in paths
  }

  method ReadFirst(names: seq<string>, once: ReadOnce, listing: Option<seq<string>>)
    returns (r: Runners)
    requires once.Valid()
    modifies once
    ensures once.Valid() && r == FirstText(names, once.source, listing)
    ensures ReadOnly(once.asked, old(once.asked), Members(names))
  {
    for i := 0 to |names|
      invariant once.Valid() && FirstText(names, once.source, listing) == FirstText(names[i..], once.source, listing)
      invariant ReadOnly(once.asked, old(once.asked), Members(names))
    {
      assert names[i..][1..] == names[i + 1..];
      if listing.Some? && names[i] !in listing.value {
        continue;
      }
      var text := once.Read(names[i]);
      if text.Some? {
        return map[names[i] := text.value];
      }
    }
    r := map[];
  }

  method ReadTool(hops: set<Hop>, tool: Tool, names: seq<string>, once: ReadOnce, listing: Option<seq<string>>)
    returns (r: Runners)
    requires once.Valid()
    modifies once
    ensures once.Valid() && r == ToolTexts(hops, tool, names, once.source, listing)
  {
    r := map[];
    if HasTool(hops, tool) {
      r := ReadFirst(names, once, listing);
    }
  }

  /** The Makefile when some entry is a make target, the package file when one is a script. */
  method ReadRunners(hops: set<Hop>, once: ReadOnce, listing: Option<seq<string>>) returns (r: Runners)
    requires once.Valid()
    modifies once
    ensures once.Valid() && r == RunnerTexts(hops, once.source, listing)
  {
    r := ReadTool(hops, Make, MAKEFILE_NAMES, once, listing);
    var manifest := ReadTool(hops, Npm, [PACKAGE_JSON], once, listing);
    r := r + manifest;
  }

  // ---------------------------------------------------------------------------------
  // The findings
  // ---------------------------------------------------------------------------------

  /** What a finding lists as searched: the CI files in order, and each runner file with the entries it
      was followed from. */
  datatype Searched = Searched(ciFiles: seq<string>, runnerFiles: set<(string, set<Hop>)>)

  datatype Finding =
    | NoConfiguration(first: Candidate, candidates: seq<Candidate>, severity: string)
    | Unwired(candidate: Candidate, searched: Searched, severity: string)

  function TextsOf(paths: seq<string>, source: Source): seq<CiText> {
    if paths == [] then []
    else if source(paths[0]).Some? then [CiText(paths[0], source(paths[0]).value)] + TextsOf(paths[1..], source)
    else TextsOf(paths[1..], source)
  }

  function Paths(texts: seq<CiText>): seq<string> {
    seq(|texts|, i requires 0 <= i < |texts| => texts[i].path)
  }

  function SearchedOf(texts: seq<CiText>, hops: set<Hop>, runners: Runners): Searched {
    Searched(Paths(texts),
             set name | name in runners ::
               (name, set hop | hop in hops && hop.tool == (if name in MAKEFILE_NAMES then Make else Npm)))
  }

  function UnwiredOf(rd: Reading, candidates: seq<Candidate>, texts: seq<CiText>, runners: Runners,
                     searched: Searched, severity: string): seq<Finding>
  {
    if candidates == [] then []
    else if Wired(rd, texts, candidates[0], runners) then
      UnwiredOf(rd, candidates[1..], texts, runners, searched, severity)
    else
      [Unwired(candidates[0], searched, severity)]
      + UnwiredOf(rd, candidates[1..], texts, runners, searched, severity)
  }

  /** No command line of a CI file runs the candidate. */
  ghost function NeverRun(rd: Reading, texts: seq<CiText>, runners: Runners): Candidate -> bool {
    (c: Candidate) => !exists t, line :: t in texts && line in rd.lines(t.text) && LineRuns(rd, runners, line, c)
  }

  /** One finding for each candidate that is never run, in order. */
  lemma {:induction false} UnwiredAre(rd: Reading, candidates: seq<Candidate>, texts: seq<CiText>, runners: Runners,
                                      searched: Searched, severity: string)
    ensures var left, findings := Filter(NeverRun(rd, texts, runners), candidates),
                                  UnwiredOf(rd, candidates, texts, runners, searched, severity);
            OneEach(findings, left, searched, severity)
  {
    if candidates != [] {
      UnwiredAre(rd, candidates[1..], texts, runners, searched, severity);
      WiredIff(rd, texts, candidates[0], runners);
      OneUnwired(rd, candidates, texts, runners, searched, severity);
      OneMoreEach(UnwiredOf(rd, candidates[1..], texts, runners, searched, severity),
                  Filter(NeverRun(rd, texts, runners), candidates[1..]), candidates[0], searched, severity);
    }
  }

  ghost predicate OneEach(findings: seq<Finding>, left: seq<Candidate>, searched: Searched, severity: string) {
    |findings| == |left| && forall i :: 0 <= i < |left| ==> findings[i] == Unwired(left[i], searched, severity)
  }

  lemma OneMoreEach(findings: seq<Finding>, left: seq<Candidate>, c: Candidate, searched: Searched, severity: string)
    requires OneEach(findings, left, searched, severity)
    ensures OneEach([Unwired(c, searched, severity)] + findings, [c] + left, searched, severity)
    ensures [] + findings == findings && [] + left == left
  {
  }

  lemma OneUnwired(rd: Reading, candidates: seq<Candidate>, texts: seq<CiText>, runners: Runners,
                   searched: Searched, severity: string)
    requires candidates != []
    requires Wired(rd, texts, candidates[0], runners) <==> !NeverRun(rd, texts, runners)(candidates[0])
    ensures var p, c, rest := NeverRun(rd, texts, runners), candidates[0], candidates[1..];
            && Filter(p, candidates) == (if p(c) then [c] else []) + Filter(p, rest)
            && UnwiredOf(rd, candidates, texts, runners, searched, severity)
               == (if p(c) then [Unwired(c, searched, severity)] else [])
                  + UnwiredOf(rd, rest, texts, runners, searched, severity)
  {
  }

  function Report(rd: Reading, candidates: seq<Candidate>, texts: seq<CiText>, runners: Runners,
                  severity: string): seq<Finding>
  {
    if candidates == [] then []
    else if texts == [] then [NoConfiguration(candidates[0], candidates, severity)]
    else UnwiredOf(rd, candidates, texts, runners, SearchedOf(texts, Hops(rd, texts), runners), severity)
  }

  function Capped(paths: seq<string>): seq<string> {
    if |paths| <= MAX_CI_FILES then paths else paths[..MAX_CI_FILES]
  }

  // ---------------------------------------------------------------------------------
  // Which CI files
  // ---------------------------------------------------------------------------------

  const GLOB_CHARACTERS := "*?["

  /** A glob that names one path. */
  predicate IsLiteral(glob: string) {
    glob != "" && glob[0] != '!' && forall c :: c in glob ==> c !in GLOB_CHARACTERS
  }

  /** The paths to choose from: the listing, or the literal globs when there is none. */
  predicate Eligible(listing: Option<seq<string>>, globs: seq<string>, selects: string -> bool, path: string) {
    && selects(path)
    && match listing
       case Some(paths) => path != "" && path in paths
       case None => IsLiteral(path) && path in globs
  }

  function Choose(listing: Option<seq<string>>, globs: seq<string>, selects: string -> bool, from: seq<string>)
    : (r: seq<string>)
  {
    if from == [] then []
    else
      var rest := Choose(listing, globs, selects, from[1..]);
      if Eligible(listing, globs, selects, from[0]) && from[0] !in rest then [from[0]] + rest else rest
  }

  /** The CI configuration paths: what the globs select, sorted, each once. */
  function ConfigPaths(listing: Option<seq<string>>, globs: seq<string>, selects: string -> bool): seq<string> {
    Sort(StringLe, Choose(listing, globs, selects, if listing.Some? then listing.value else globs))
  }

  lemma {:induction false} ChooseMembers(listing: Option<seq<string>>, globs: seq<string>, selects: string -> bool,
                                         from: seq<string>)
    ensures Distinct(Choose(listing, globs, selects, from))
    ensures forall path :: path in Choose(listing, globs, selects, from)
              <==> path in from && Eligible(listing, globs, selects, path)
  {
    if from != [] {
      ChooseMembers(listing, globs, selects, from[1..]);
      assert from == [from[0]] + from[1..];
    }
  }

  ghost predicate Earlier(a: string, b: string) {
    StringLe(a, b) && a != b
  }

  /** A CI file: a path the globs select, from the listing or, without one, a glob that has no wildcard and is no
      exclusion. */
  ghost predicate IsCiFile(listing: Option<seq<string>>, globs: seq<string>, selects: string -> bool, path: string) {
    && path != "" && selects(path)
    && if listing.Some? then path in listing.value
       else path in globs && path[0] != '!' && '*' !in path && '?' !in path && '[' !in path
  }

  lemma EligibleIff(listing: Option<seq<string>>, globs: seq<string>, selects: string -> bool, path: string)
    ensures Eligible(listing, globs, selects, path) <==> IsCiFile(listing, globs, selects, path)
  {
    assert '*' in GLOB_CHARACTERS && '?' in GLOB_CHARACTERS && '[' in GLOB_CHARACTERS;
  }

  /** The CI files are those, each once and in order. */
  lemma ConfigPathsMembers(listing: Option<seq<string>>, globs: seq<string>, selects: string -> bool)
    ensures SortedBy(Earlier, ConfigPaths(listing, globs, selects))
    ensures forall path :: path in ConfigPaths(listing, globs, selects) <==> IsCiFile(listing, globs, selects, path)
  {
    forall path ensures Eligible(listing, globs, selects, path) <==> IsCiFile(listing, globs, selects, path) {
      EligibleIff(listing, globs, selects, path);
    }
    var chosen := Choose(listing, globs, selects, if listing.Some? then listing.value else globs);
    var sorted := ConfigPaths(listing, globs, selects);
    ChooseMembers(listing, globs, selects, if listing.Some? then listing.value else globs);
    SortMembers(StringLe, chosen);
    SortMultiset(StringLe, chosen);
    SameMultisetDistinct(chosen, sorted);
    StringOrder();
    SortSorted(StringLe, chosen);
  }

  /** The order and the repetitions of the listing change nothing. */
  lemma ListingOrderDoesNotMatter(listing: seq<string>, listing': seq<string>, globs: seq<string>,
                                  selects: string -> bool)
    requires forall path :: path in listing <==> path in listing'
    ensures ConfigPaths(Some(listing), globs, selects) == ConfigPaths(Some(listing'), globs, selects)
  {
    ConfigPathsMembers(Some(listing), globs, selects);
    ConfigPathsMembers(Some(listing'), globs, selects);
    EarlierIsStrict();
    StrictlySortedUnique(Earlier, ConfigPaths(Some(listing), globs, selects),
      ConfigPaths(Some(listing'), globs, selects));
  }

  lemma EarlierIsStrict()
    ensures StrictOrder(Earlier)
  {
    StringOrder();
  }

  /** The findings of always reading the runner files the CI lines name. */
  function EagerFindings(rd: Reading, candidates: seq<Candidate>, configured: seq<string>, source: Source,
                         listing: Option<seq<string>>, severity: string): seq<Finding>
  {
    var texts := TextsOf(Capped(configured), source);
    Report(rd, candidates, texts, RunnerTexts(Hops(rd, texts), source, listing), severity)
  }

  /** A command line of one of the first twelve CI files, where it can be read, runs the candidate. */
  ghost predicate SomeLineRuns(rd: Reading, configured: seq<string>, source: Source, runners: Runners, c: Candidate) {
    exists k: nat, line ::
      && k < |configured| && k < 12 && source(configured[k]).Some?
      && line in rd.lines(source(configured[k]).value) && LineRuns(rd, runners, line, c)
  }

  ghost function IsUnrun(rd: Reading, configured: seq<string>, source: Source, runners: Runners): Candidate -> bool {
    c => !SomeLineRuns(rd, configured, source, runners, c)
  }

  ghost predicate NoneReadable(configured: seq<string>, source: Source) {
    forall k: nat :: k < |configured| && k < 12 ==> source(configured[k]) == None
  }

  /** A finding tells which CI files were read, and which runner files for which entries. */
  ghost predicate TellsSearch(rd: Reading, configured: seq<string>, source: Source, listing: Option<seq<string>>,
                              searched: Searched)
  {
    var hops := Hops(rd, TextsOf(Capped(configured), source));
    && (forall path :: path in searched.ciFiles
          <==> source(path).Some? && exists k: nat :: k < |configured| && k < 12 && configured[k] == path)
    && forall name, followed: set<Hop> :: (name, followed) in searched.runnerFiles
         <==> IsRead(hops, source, listing, name)
              && followed == set hop | hop in hops && (hop.tool == Npm <==> name == "package.json")
  }

  lemma SearchIsTold(rd: Reading, configured: seq<string>, source: Source, listing: Option<seq<string>>)
    ensures var texts := TextsOf(Capped(configured), source);
            TellsSearch(rd, configured, source, listing,
                        SearchedOf(texts, Hops(rd, texts), RunnerTexts(Hops(rd, texts), source, listing)))
  {
    var texts := TextsOf(Capped(configured), source);
    var hops := Hops(rd, texts);
    forall path ensures path in Paths(texts)
        <==> source(path).Some? && exists k: nat :: k < |configured| && k < 12 && configured[k] == path
    {
      PathIsTold(configured, source, path);
    }
    FollowedIsTold(hops, source, listing, texts);
  }

  lemma PathIsTold(configured: seq<string>, source: Source, path: string)
    ensures path in Paths(TextsOf(Capped(configured), source))
       <==> source(path).Some? && exists k: nat :: k < |configured| && k < 12 && configured[k] == path
  {
    var paths, texts := Capped(configured), TextsOf(Capped(configured), source);
    if path in Paths(texts) {
      var i :| 0 <= i < |texts| && texts[i].path == path;
      TextsAreRead(paths, source, texts[i]);
      assert texts[i] in texts;
      var k: nat :| ReadAt(paths, source, texts[i], k);
      assert configured[k] == path;
    }
    if source(path).Some? {
      var t := CiText(path, source(path).value);
      TextsAreRead(paths, source, t);
      if k: nat :| k < |configured| && k < 12 && configured[k] == path {
        assert ReadAt(paths, source, t, k);
        var i :| 0 <= i < |texts| && texts[i] == t;
        assert Paths(texts)[i] == path;
      }
    }
  }

  lemma FollowedIsTold(hops: set<Hop>, source: Source, listing: Option<seq<string>>, texts: seq<CiText>)
    ensures var told := SearchedOf(texts, hops, RunnerTexts(hops, source, listing)).runnerFiles;
            forall name, followed: set<Hop> :: (name, followed) in told
              <==> IsRead(hops, source, listing, name)
                   && followed == set hop | hop in hops && (hop.tool == Npm <==> name == "package.json")
  {
    var runners := RunnerTexts(hops, source, listing);
    forall name
      ensures name in runners <==> IsRead(hops, source, listing, name)
      ensures name in runners ==> (name in MAKEFILE_NAMES <==> name != "package.json")
    {
      RunnerTextIs(hops, source, listing, name);
      if name in runners { ReadIsRunner(hops, source, listing, name); }
    }
    FollowedBy(hops, runners, texts);
  }

  lemma ReadIsRunner(hops: set<Hop>, source: Source, listing: Option<seq<string>>, name: string)
    requires IsRead(hops, source, listing, name)
    ensures name in MAKEFILE_NAMES <==> name != "package.json"
  {
  }

  lemma FollowedBy(hops: set<Hop>, runners: Runners, texts: seq<CiText>)
    requires forall name :: name in runners ==> (name in MAKEFILE_NAMES <==> name != "package.json")
    ensures forall name, followed: set<Hop> :: (name, followed) in SearchedOf(texts, hops, runners).runnerFiles
              <==> name in runners
                   && followed == set hop | hop in hops && (hop.tool == Npm <==> name == "package.json")
  {
    forall name | name in runners
      ensures (set hop | hop in hops && hop.tool == (if name in MAKEFILE_NAMES then Make else Npm))
           == (set hop | hop in hops && (hop.tool == Npm <==> name == "package.json"))
    {
    }
  }

  /** The findings: none without a candidate, one about all of them when no CI file can be read, and otherwise
      one, in order, for each candidate that no command line runs. */
  lemma FindingsAre(rd: Reading, candidates: seq<Candidate>, configured: seq<string>, source: Source,
                    listing: Option<seq<string>>, severity: string)
    ensures var runners := RunnerTexts(Hops(rd, TextsOf(Capped(configured), source)), source, listing);
            var left := Filter(IsUnrun(rd, configured, source, runners), candidates);
            var findings := EagerFindings(rd, candidates, configured, source, listing, severity);
            if candidates == [] then findings == []
            else if NoneReadable(configured, source) then
              findings == [NoConfiguration(candidates[0], candidates, severity)]
            else
              && |findings| == |left|
              && forall i :: 0 <= i < |left| ==>
                   && findings[i].Unwired? && findings[i].candidate == left[i] && findings[i].severity == severity
                   && TellsSearch(rd, configured, source, listing, findings[i].searched)
  {
    var texts := TextsOf(Capped(configured), source);
    var runners := RunnerTexts(Hops(rd, texts), source, listing);
    forall t ensures t in texts <==> ReadAs(Capped(configured), source, t) {
      TextsAreRead(Capped(configured), source, t);
    }
    if texts == [] {
      forall k: nat | k < |configured| && k < 12 ensures source(configured[k]) == None {
        if source(configured[k]).Some? { ReadableIsRead(configured, source, k); }
      }
    } else {
      assert ReadAs(Capped(configured), source, texts[0]);
      var k: nat :| ReadAt(Capped(configured), source, texts[0], k);
      assert source(configured[k]).Some?;
    }
    forall c ensures NeverRun(rd, texts, runners)(c) <==> IsUnrun(rd, configured, source, runners)(c) {
      RunBySomeLine(rd, configured, source, texts, runners, c);
    }
    SameFilter(NeverRun(rd, texts, runners), IsUnrun(rd, configured, source, runners), candidates);
    SearchIsTold(rd, configured, source, listing);
    UnwiredAre(rd, candidates, texts, runners, SearchedOf(texts, Hops(rd, texts), runners), severity);
  }

  ghost predicate ReadAt(paths: seq<string>, source: Source, t: CiText, k: nat) {
    k < |paths| && t.path == paths[k] && source(paths[k]) == Some(t.text)
  }

  ghost predicate ReadAs(paths: seq<string>, source: Source, t: CiText) {
    exists k: nat :: ReadAt(paths, source, t, k)
  }

  lemma {:induction false} TextsAreRead(paths: seq<string>, source: Source, t: CiText)
    ensures t in TextsOf(paths, source) <==> ReadAs(paths, source, t)
  {
    if paths != [] {
      TextsAreRead(paths[1..], source, t);
      forall k: nat ensures ReadAt(paths[1..], source, t, k) <==> ReadAt(paths, source, t, k + 1) {}
      if ReadAs(paths, source, t) {
        var k: nat :| ReadAt(paths, source, t, k);
        assert k > 0 ==> ReadAt(paths[1..], source, t, k - 1);
      }
      assert ReadAt(paths, source, t, 0) <==> source(paths[0]) == Some(t.text) && t.path == paths[0];
    }
  }

  lemma ReadableIsRead(configured: seq<string>, source: Source, k: nat)
    requires k < |configured| && k < 12 && source(configured[k]).Some?
    ensures TextsOf(Capped(configured), source) != []
  {
    var t := CiText(configured[k], source(configured[k]).value);
    assert ReadAt(Capped(configured), source, t, k);
    TextsAreRead(Capped(configured), source, t);
  }

  lemma RunBySomeLine(rd: Reading, configured: seq<string>, source: Source, texts: seq<CiText>, runners: Runners,
                      c: Candidate)
    requires forall t :: t in texts <==> ReadAs(Capped(configured), source, t)
    ensures NeverRun(rd, texts, runners)(c) <==> !SomeLineRuns(rd, configured, source, runners, c)
  {
    var paths := Capped(configured);
    if t, line :| t in texts && line in rd.lines(t.text) && LineRuns(rd, runners, line, c) {
      assert ReadAs(paths, source, t);
      var k: nat :| ReadAt(paths, source, t, k);
      assert paths[k] == configured[k];
    }
    if SomeLineRuns(rd, configured, source, runners, c) {
      var k: nat, line :| k < |configured| && k < 12 && source(configured[k]).Some?
                          && line in rd.lines(source(configured[k]).value) && LineRuns(rd, runners, line, c);
      var t := CiText(paths[k], source(configured[k]).value);
      assert ReadAt(paths, source, t, k);
      assert ReadAs(paths, source, t) && t in texts;
    }
  }

  lemma {:induction false} SameFilter<T>(p: T -> bool, q: T -> bool, s: seq<T>)
    requires forall x :: p(x) <==> q(x)
    ensures Filter(p, s) == Filter(q, s)
  {
    if s != [] { SameFilter(p, q, s[1..]); }
  }

  /** Every candidate is invoked without the runner files. */
  predicate AllDirect(rd: Reading, candidates: seq<Candidate>, texts: seq<CiText>) {
    forall c :: c in candidates ==> Wired(rd, texts, c, map[])
  }

  lemma {:induction false} NothingUnwired(rd: Reading, candidates: seq<Candidate>, texts: seq<CiText>, runners: Runners,
                                          searched: Searched, severity: string)
    requires AllDirect(rd, candidates, texts)
    ensures UnwiredOf(rd, candidates, texts, runners, searched, severity) == []
  {
    if candidates != [] {
      assert candidates[0] in candidates;
      WiredIsMonotone(rd, texts, candidates[0], runners);
      NothingUnwired(rd, candidates[1..], texts, runners, searched, severity);
    }
  }

  /** When no CI line names a runner entry, or every candidate is invoked directly, leaving the runner
      files unread changes no finding and no word of one. */
  lemma LazyReadIsExact(rd: Reading, candidates: seq<Candidate>, texts: seq<CiText>, source: Source,
                        listing: Option<seq<string>>, severity: string)
    requires Hops(rd, texts) == {} || AllDirect(rd, candidates, texts)
    ensures Report(rd, candidates, texts, RunnerTexts(Hops(rd, texts), source, listing), severity)
         == Report(rd, candidates, texts, map[], severity)
  {
    var hops := Hops(rd, texts);
    var runners := RunnerTexts(hops, source, listing);
    if AllDirect(rd, candidates, texts) {
      NothingUnwired(rd, candidates, texts, runners, SearchedOf(texts, hops, runners), severity);
      NothingUnwired(rd, candidates, texts, map[], SearchedOf(texts, hops, map[]), severity);
    } else {
      assert runners == map[];
    }
  }

  method ReadTexts(paths: seq<string>, once: ReadOnce) returns (texts: seq<CiText>)
    requires once.Valid()
    modifies once
    ensures once.Valid() && texts == TextsOf(paths, once.source)
    ensures ReadOnly(once.asked, old(once.asked), Members(paths))
  {
    texts := [];
    for i := 0 to |paths|
      invariant once.Valid() && texts + TextsOf(paths[i..], once.source) == TextsOf(paths, once.source)
      invariant ReadOnly(once.asked, old(once.asked), Members(paths))
    {
      TextsStep(texts, paths, i, once.source);
      var text := once.Read(paths[i]);
      if text.Some? {
        texts := texts + [CiText(paths[i], text.value)];
      }
    }
  }

  lemma TextsStep(texts: seq<CiText>, paths: seq<string>, i: nat, source: Source)
    requires i < |paths|
    ensures var now := if source(paths[i]).Some? then texts + [CiText(paths[i], source(paths[i]).value)] else texts;
            now + TextsOf(paths[i + 1..], source) == texts + TextsOf(paths[i..], source)
  {
    assert paths[i..][1..] == paths[i + 1..];
  }

  method CollectUnwired(rd: Reading, candidates: seq<Candidate>, texts: seq<CiText>, runners: Runners,
                        searched: Searched, severity: string) returns (findings: seq<Finding>)
    ensures findings == UnwiredOf(rd, candidates, texts, runners, searched, severity)
  {
    findings := [];
    for i := 0 to |candidates|
      invariant findings + UnwiredOf(rd, candidates[i..], texts, runners, searched, severity)
             == UnwiredOf(rd, candidates, texts, runners, searched, severity)
    {
      assert candidates[i..][1..] == candidates[i + 1..];
      if !Wired(rd, texts, candidates[i], runners) {
        findings := findings + [Unwired(candidates[i], searched, severity)];
      }
    }
  }

  function Answers(paths: seq<string>, source: Source): (r: seq<Option<string>>)
    ensures |r| == |paths| && forall i :: 0 <= i < |r| ==> r[i] == source(paths[i])
  {
    seq(|paths|, i requires 0 <= i < |paths| => source(paths[i]))
  }

  method ReadEach(paths: seq<string>, once: ReadOnce) returns (texts: seq<Option<string>>)
    requires once.Valid()
    modifies once
    ensures once.Valid() && texts == Answers(paths, once.source)
    ensures ReadOnly(once.asked, old(once.asked), Members(paths))
  {
    texts := [];
    for i := 0 to |paths|
      invariant once.Valid() && |texts| == i && forall j :: 0 <= j < i ==> texts[j] == once.source(paths[j])
      invariant ReadOnly(once.asked, old(once.asked), Members(paths))
    {
      var text := once.Read(paths[i]);
      texts := texts + [text];
    }
  }

  /** What a run is about: the files the diff makes it look into for candidates, and the candidates it finds
      in their texts. */
  datatype Search = Search(wanted: seq<string>, find: seq<Option<string>> -> seq<Candidate>)

  /** Check the candidates against the CI files. */
  method CheckWiring(rd: Reading, candidates: seq<Candidate>, configured: seq<string>, once: ReadOnce,
                     listing: Option<seq<string>>, severity: string) returns (findings: seq<Finding>, read: seq<string>)
    requires once.Valid() && candidates != []
    modifies once
    ensures once.Valid()
    ensures findings == EagerFindings(rd, candidates, configured, once.source, listing, severity)
    ensures read == Paths(TextsOf(Capped(configured), once.source))
    ensures var texts := TextsOf(Capped(configured), once.source);
            Hops(rd, texts) == {} || AllDirect(rd, candidates, texts) ==>
              ReadOnly(once.asked, old(once.asked), Members(Capped(configured)))
  {
    var texts := ReadTexts(Capped(configured), once);
    read := Paths(texts);
    var runners: Runners := map[];
    var hops := Hops(rd, texts);
    if hops != {} && !AllDirect(rd, candidates, texts) {
      runners := ReadRunners(hops, once, listing);
    } else {
      LazyReadIsExact(rd, candidates, texts, once.source, listing, severity);
    }
    if texts == [] {
      findings := [NoConfiguration(candidates[0], candidates, severity)];
    } else {
      findings := CollectUnwired(rd, candidates, texts, runners, SearchedOf(texts, hops, runners), severity);
    }
  }

  lemma ReadOnlyThen(now: seq<string>, mid: seq<string>, was: seq<string>, first: set<string>, second: set<string>)
    requires ReadOnly(mid, was, first) && ReadOnly(now, mid, second)
    ensures ReadOnly(now, was, first + second)
  {
  }

  /** The run: candidates are searched for in the files the diff names, at most `MAX_CI_FILES` CI files are
      read, none without a candidate, and the runner files only when a CI line names an entry and some
      candidate is not invoked directly.  The findings are those of always reading them, and no path is ever
      asked twice, whichever part of the run wants it. */
  method CiWiringFindings(rd: Reading, search: Search, globs: seq<string>, selects: string -> bool, once: ReadOnce,
                          listing: Option<seq<string>>, severity: string)
    returns (findings: seq<Finding>, read: seq<string>)
    requires once.Valid()
    modifies once
    ensures once.Valid()
    ensures var candidates := search.find(Answers(search.wanted, once.source));
            var configured := ConfigPaths(listing, globs, selects);
            var texts := TextsOf(Capped(configured), once.source);
            && findings == EagerFindings(rd, candidates, configured, once.source, listing, severity)
            && read == (if candidates == [] then [] else Paths(texts))
            && (candidates == [] ==> ReadOnly(once.asked, old(once.asked), Members(search.wanted)))
            && (Hops(rd, texts) == {} || AllDirect(rd, candidates, texts) ==>
                  ReadOnly(once.asked, old(once.asked), Members(search.wanted) + Members(Capped(configured))))
  {
    var answers := ReadEach(search.wanted, once);
    var candidates := search.find(answers);
    if candidates == [] {
      return [], [];
    }
    ghost var mid := once.asked;
    var configured := ConfigPaths(listing, globs, selects);
    findings, read := CheckWiring(rd, candidates, configured, once, listing, severity);
    if Hops(rd, TextsOf(Capped(configured), once.source)) == {}
       || AllDirect(rd, candidates, TextsOf(Capped(configured), once.source)) {
      ReadOnlyThen(once.asked, mid, old(once.asked), Members(search.wanted), Members(Capped(configured)));
    }
  }
}
