/** Lowering compatibility findings of a stacked pull request by reading the default branch, at most one
    read per file and only so many files. */
module DefaultBranch {
  import opened Prelude
  import opened Sorting

  datatype Finding = Finding(file: string, severity: string, title: string, body: string, dropReason: Option<string>)

  datatype FileDiff = FileDiff(path: string, newPath: string, oldPath: string)

  /** What reading a file at the default branch tells; a failed read is `Unreadable`. */
  datatype Lookup = Absent | Text(text: string) | Unreadable

  datatype Note = FileGone | SurfaceGone | StillThere

  /** The run: the parsed diff, the reader, the text heuristics, the note lines and the read limit.
      `tokens` gives the surface strings of a finding that the diff removed. */
  datatype Run = Run(
    files: seq<FileDiff>, read: string -> Lookup, fold: string -> string, compat: Finding -> bool,
    tokens: Finding -> seq<string>, within: (string, string) -> bool, note: Note -> string, maxPaths: int)

  /** The path to read: the old path of a renamed file. */
  function ReadPath(files: seq<FileDiff>, path: string): string {
    if files == [] then path
    else if (path == files[0].path || path == files[0].newPath)
            && files[0].oldPath != "" && files[0].oldPath != path then
      files[0].oldPath
    else ReadPath(files[1..], path)
  }

  method FindReadPath(files: seq<FileDiff>, path: string) returns (r: string)
    ensures r == ReadPath(files, path)
  {
    for i := 0 to |files|
      invariant ReadPath(files, path) == ReadPath(files[i..], path)
    {
      assert files[i..][1..] == files[i + 1..];
      var fd := files[i];
      if (path == fd.path || path == fd.newPath) && fd.oldPath != "" && fd.oldPath != path {
        return fd.oldPath;
      }
    }
    r := path;
  }

  // ---------------------------------------------------------------------------------
  // The check of one finding
  // ---------------------------------------------------------------------------------

  predicate Candidate(run: Run, f: Finding) {
    f.dropReason.None? && run.fold(f.severity) in {"error", "warning"} && run.compat(f)
  }

  function PathOf(run: Run, f: Finding): string {
    ReadPath(run.files, f.file)
  }

  /** What the check does to a finding: nothing as it is no candidate, nothing as the answer is not
      known, lower it, or note that the surface is still there. */
  datatype Effect = Passed | NotKnown | Lowered(why: Note) | Present

  function EffectOf(run: Run, f: Finding, lookup: Lookup): Effect {
    if !Candidate(run, f) then Passed
    else
      match lookup
      case Unreadable => NotKnown
      case Absent => Lowered(FileGone)
      case Text(text) =>
        if run.tokens(f) == [] then NotKnown
        else if exists t :: t in run.tokens(f) && run.within(t, text) then Present
        else Lowered(SurfaceGone)
  }

  function Append(body: string, note: string): string {
    if body != "" then body + "\n\n" + note else note
  }

  function Applied(run: Run, f: Finding, e: Effect): Finding {
    match e
    case Passed => f
    case NotKnown => f
    case Lowered(why) => f.(severity := "outofscope", body := Append(f.body, run.note(why)))
    case Present => f.(body := Append(f.body, run.note(StillThere)))
  }

  /** The check without a cache or a limit. */
  function Unlimited(run: Run, f: Finding): Effect {
    EffectOf(run, f, run.read(PathOf(run, f)))
  }

  // ---------------------------------------------------------------------------------
  // The cache
  // ---------------------------------------------------------------------------------

  /** The distinct paths of the candidates among the first `n` findings, in order of first appearance. */
  function Paths(run: Run, findings: seq<Finding>, n: nat): seq<string>
    requires n <= |findings|
  {
    if n == 0 then []
    else
      var before := Paths(run, findings, n - 1);
      var path := PathOf(run, findings[n - 1]);
      if !Candidate(run, findings[n - 1]) || path in before then before else before + [path]
  }

  function Limited(run: Run, paths: seq<string>): (r: seq<string>)
    ensures r <= paths && (|r| <= run.maxPaths || r == [])
  {
    if run.maxPaths <= 0 then [] else if |paths| <= run.maxPaths then paths else paths[..run.maxPaths]
  }

  /** What the run learns of a path: only the first `maxPaths` distinct paths are read. */
  function Learned(run: Run, findings: seq<Finding>, path: string): Lookup {
    if path in Limited(run, Paths(run, findings, |findings|)) then run.read(path) else Unreadable
  }

  function EffectAt(run: Run, findings: seq<Finding>, i: nat): Effect
    requires i < |findings|
  {
    EffectOf(run, findings[i], Learned(run, findings, PathOf(run, findings[i])))
  }

  lemma {:induction false} PathsAreDistinct(run: Run, findings: seq<Finding>, n: nat)
    requires n <= |findings|
    ensures Distinct(Paths(run, findings, n))
  {
    if n > 0 { PathsAreDistinct(run, findings, n - 1); }
  }

  lemma {:induction false} PathsGrow(run: Run, findings: seq<Finding>, n: nat, k: nat)
    requires n <= k <= |findings|
    ensures Paths(run, findings, n) <= Paths(run, findings, k)
  {
    if n < k { PathsGrow(run, findings, n, k - 1); }
  }

  lemma CandidatePath(run: Run, findings: seq<Finding>, i: nat)
    requires i < |findings| && Candidate(run, findings[i])
    ensures PathOf(run, findings[i]) in Paths(run, findings, |findings|)
  {
    PathsGrow(run, findings, i + 1, |findings|);
    var all, some := Paths(run, findings, |findings|), Paths(run, findings, i + 1);
    assert PathOf(run, findings[i]) in some;
    var k :| 0 <= k < |some| && some[k] == PathOf(run, findings[i]);
    assert all[k] == some[k];
  }

  /** With no more distinct paths than the limit, the cached run is the unlimited check of each finding. */
  lemma CacheIsExact(run: Run, findings: seq<Finding>, i: nat)
    requires i < |findings| && |Paths(run, findings, |findings|)| <= run.maxPaths
    ensures EffectAt(run, findings, i) == Unlimited(run, findings[i])
  {
    if Candidate(run, findings[i]) { CandidatePath(run, findings, i); }
  }

  /** Over the limit, a finding whose path was not read is left as it is, never lowered. */
  lemma OverLimitIsUnknown(run: Run, findings: seq<Finding>, i: nat)
    requires i < |findings| && Candidate(run, findings[i])
    requires PathOf(run, findings[i]) !in Limited(run, Paths(run, findings, |findings|))
    ensures EffectAt(run, findings, i) == NotKnown
            && Applied(run, findings[i], EffectAt(run, findings, i)) == findings[i]
  {
  }

  /** Whether the path first met after `before` is within the limit does not depend on what follows. */
  lemma LimitOfPrefix(run: Run, before: seq<string>, all: seq<string>, k: nat)
    requires before <= all && k < |before| && Distinct(all)
    ensures before[k] in Limited(run, all) <==> k < run.maxPaths
  {
    var limited := Limited(run, all);
    assert all[k] == before[k];
    if k < run.maxPaths {
      assert limited[k] == all[k];
    } else {
      forall j | 0 <= j < |limited| ensures limited[j] != all[k] {
        assert j < k;
      }
    }
  }

  /** The cache holds exactly the paths met, each with what the run learns of it. */
  ghost predicate CacheOf(cache: map<string, Lookup>, run: Run, findings: seq<Finding>, n: nat)
    requires n <= |findings|
  {
    && (forall path :: path in cache <==> path in Paths(run, findings, n))
    && (forall path :: path in cache ==> cache[path] == Learned(run, findings, path))
    && |cache| == |Paths(run, findings, n)|
  }

  lemma KnownPath(run: Run, findings: seq<Finding>, n: nat, path: string)
    requires n < |findings| && path == PathOf(run, findings[n]) && path in Paths(run, findings, n)
    ensures Paths(run, findings, n + 1) == Paths(run, findings, n)
  {
  }

  lemma NewPath(run: Run, findings: seq<Finding>, n: nat, path: string)
    requires n < |findings| && Candidate(run, findings[n]) && path == PathOf(run, findings[n])
    requires path !in Paths(run, findings, n)
    ensures var before := Paths(run, findings, n);
            && Paths(run, findings, n + 1) == before + [path]
            && Learned(run, findings, path) == (if |before| < run.maxPaths then run.read(path) else Unreadable)
            && Limited(run, before + [path])
               == (if |before| < run.maxPaths then Limited(run, before) + [path] else Limited(run, before))
  {
    var before := Paths(run, findings, n);
    PathsAreDistinct(run, findings, |findings|);
    PathsGrow(run, findings, n + 1, |findings|);
    LimitOfPrefix(run, before + [path], Paths(run, findings, |findings|), |before|);
  }

  /** One candidate's lookup: from the cache, else from the reader while the limit lasts. */
  method LookUp(run: Run, findings: seq<Finding>, n: nat, path: string, cache: map<string, Lookup>, asked: seq<string>)
    returns (lookup: Lookup, now: map<string, Lookup>, askedNow: seq<string>)
    requires n < |findings| && Candidate(run, findings[n]) && path == PathOf(run, findings[n])
    requires CacheOf(cache, run, findings, n) && asked == Limited(run, Paths(run, findings, n))
    ensures CacheOf(now, run, findings, n + 1) && askedNow == Limited(run, Paths(run, findings, n + 1))
    ensures lookup == Learned(run, findings, path)
  {
    now, askedNow := cache, asked;
    if path in cache {
      KnownPath(run, findings, n, path);
    } else {
      NewPath(run, findings, n, path);
      if |cache| >= run.maxPaths {
        now := now[path := Unreadable];
      } else {
        now := now[path := run.read(path)];
        askedNow := askedNow + [path];
      }
    }
    lookup := now[path];
  }

  // ---------------------------------------------------------------------------------
  // The run
  // ---------------------------------------------------------------------------------

  datatype Tally = Tally(checked: nat, lowered: nat, present: nat, unknown: nat, rows: seq<(string, Note)>)

  function Counted(t: Tally, f: Finding, e: Effect): Tally {
    match e
    case Passed => t
    case NotKnown => t.(unknown := t.unknown + 1)
    case Lowered(why) => t.(checked := t.checked + 1, lowered := t.lowered + 1, rows := t.rows + [(f.file, why)])
    case Present => t.(checked := t.checked + 1, present := t.present + 1)
  }

  function TallyOf(run: Run, findings: seq<Finding>, n: nat): Tally
    requires n <= |findings|
  {
    if n == 0 then Tally(0, 0, 0, 0, [])
    else Counted(TallyOf(run, findings, n - 1), findings[n - 1], EffectAt(run, findings, n - 1))
  }

  function Candidates(run: Run, findings: seq<Finding>, n: nat): nat
    requires n <= |findings|
  {
    if n == 0 then 0
    else if Candidate(run, findings[n - 1]) then Candidates(run, findings, n - 1) + 1
    else Candidates(run, findings, n - 1)
  }

  /** Every candidate is counted once: as unknown, or as checked and then lowered or present. */
  lemma {:induction false} TallyConserves(run: Run, findings: seq<Finding>, n: nat)
    requires n <= |findings|
    ensures var t := TallyOf(run, findings, n);
            && t.checked + t.unknown == Candidates(run, findings, n)
            && t.checked == t.lowered + t.present
            && |t.rows| == t.lowered
  {
    if n > 0 { TallyConserves(run, findings, n - 1); }
  }

  /** Check finding `n` with the cache of the ones before it. */
  method CheckOne(run: Run, findings: seq<Finding>, n: nat, cache: map<string, Lookup>, asked: seq<string>)
    returns (e: Effect, now: map<string, Lookup>, askedNow: seq<string>)
    requires n < |findings| && CacheOf(cache, run, findings, n) && asked == Limited(run, Paths(run, findings, n))
    ensures e == EffectAt(run, findings, n)
    ensures CacheOf(now, run, findings, n + 1) && askedNow == Limited(run, Paths(run, findings, n + 1))
  {
    e, now, askedNow := Passed, cache, asked;
    var f := findings[n];
    if Candidate(run, f) {
      var path := FindReadPath(run.files, f.file);
      var lookup;
      lookup, now, askedNow := LookUp(run, findings, n, path, cache, asked);
      e := EffectOf(run, f, lookup);
    }
  }

  /** The first `n` findings with their effects applied. */
  function AppliedTo(run: Run, findings: seq<Finding>, n: nat): (r: seq<Finding>)
    requires n <= |findings|
    ensures |r| == n && forall i :: 0 <= i < n ==> r[i] == Applied(run, findings[i], EffectAt(run, findings, i))
  {
    seq(n, i requires 0 <= i < n => Applied(run, findings[i], EffectAt(run, findings, i)))
  }

  lemma AppliedStep(run: Run, findings: seq<Finding>, n: nat)
    requires n < |findings|
    ensures AppliedTo(run, findings, n + 1)
         == AppliedTo(run, findings, n) + [Applied(run, findings[n], EffectAt(run, findings, n))]
    ensures TallyOf(run, findings, n + 1) == Counted(TallyOf(run, findings, n), findings[n], EffectAt(run, findings, n))
  {
  }

  // ---------------------------------------------------------------------------------
  // What the check means for a finding
  // ---------------------------------------------------------------------------------

  /** The file was renamed to `path`. */
  ghost predicate RenamedTo(fd: FileDiff, path: string) {
    path in {fd.path, fd.newPath} && fd.oldPath !in {"", path}
  }

  ghost predicate FirstRename(files: seq<FileDiff>, path: string, k: nat) {
    k < |files| && RenamedTo(files[k], path) && forall j :: 0 <= j < k ==> !RenamedTo(files[j], path)
  }

  /** A file is read at the path it had before the first renaming to its path, and else at its path. */
  lemma {:induction false} ReadPathIs(files: seq<FileDiff>, path: string)
    ensures (forall fd :: fd in files ==> !RenamedTo(fd, path)) ==> ReadPath(files, path) == path
    ensures forall k: nat :: FirstRename(files, path, k) ==> ReadPath(files, path) == files[k].oldPath
  {
    if files != [] {
      ReadPathIs(files[1..], path);
      assert files[0] in files && forall fd :: fd in files[1..] ==> fd in files;
      forall k: nat | FirstRename(files, path, k) ensures ReadPath(files, path) == files[k].oldPath {
        if k > 0 {
          assert !RenamedTo(files[0], path) && files[1..][k - 1] == files[k];
          assert FirstRename(files[1..], path, k - 1);
        }
      }
    }
  }

  ghost function WithNote(body: string, note: string): string {
    if body == "" then note else body + "\n\n" + note
  }

  /** An active error or warning that reads as a compatibility concern. */
  ghost predicate MayBeLowered(run: Run, f: Finding) {
    f.dropReason == None && run.fold(f.severity) in {"error", "warning"} && run.compat(f)
  }

  /** What the finding becomes when its file was read: lowered when the file is not there or holds none of its
      surface tokens, kept with a note when it holds one, and left alone when that cannot be told. */
  ghost predicate BecomesBy(run: Run, f: Finding, lookup: Lookup, g: Finding) {
    match lookup
    case Unreadable => g == f
    case Absent => g == f.(severity := "outofscope", body := WithNote(f.body, run.note(FileGone)))
    case Text(text) =>
      && (run.tokens(f) == [] ==> g == f)
      && (forall t :: t in run.tokens(f) && run.within(t, text) ==>
            g == f.(body := WithNote(f.body, run.note(StillThere))))
      && (run.tokens(f) != [] && (forall t :: t in run.tokens(f) ==> !run.within(t, text)) ==>
            g == f.(severity := "outofscope", body := WithNote(f.body, run.note(SurfaceGone))))
  }

  /** The paths that the candidates before finding `i` are read at. */
  ghost function PathsBefore(run: Run, findings: seq<Finding>, i: nat): set<string>
    requires i <= |findings|
  {
    set j | 0 <= j < i && MayBeLowered(run, findings[j]) :: ReadPath(run.files, findings[j].file)
  }

  /** The path of finding `i` is read: it is among the first `maxPaths` that candidates are read at. */
  ghost predicate PathIsRead(run: Run, findings: seq<Finding>, i: nat)
    requires i < |findings|
  {
    exists j :: 0 <= j < |findings| && MayBeLowered(run, findings[j])
      && ReadPath(run.files, findings[j].file) == ReadPath(run.files, findings[i].file)
      && |PathsBefore(run, findings, j)| < run.maxPaths
  }

  lemma {:induction false} PathsAre(run: Run, findings: seq<Finding>, n: nat)
    requires n <= |findings|
    ensures forall path :: path in Paths(run, findings, n) <==> path in PathsBefore(run, findings, n)
    ensures |Paths(run, findings, n)| == |PathsBefore(run, findings, n)|
  {
    if n == 0 {
      assert PathsBefore(run, findings, n) == {};
    } else {
      PathsAre(run, findings, n - 1);
      var before, path := PathsBefore(run, findings, n - 1), PathOf(run, findings[n - 1]);
      PathsBeforeStep(run, findings, n - 1);
      if path !in before {
        CountOneMore(PathsBefore(run, findings, n), before, path, MayBeLowered(run, findings[n - 1]));
      } else {
        assert PathsBefore(run, findings, n) == before;
      }
    }
  }

  lemma PathsBeforeStep(run: Run, findings: seq<Finding>, n: nat)
    requires n < |findings|
    ensures forall path :: path in PathsBefore(run, findings, n + 1)
              <==> || path in PathsBefore(run, findings, n)
                   || (MayBeLowered(run, findings[n]) && path == ReadPath(run.files, findings[n].file))
  {
    assert PathsBefore(run, findings, n + 1) == PathsBefore(run, findings, n)
      + if MayBeLowered(run, findings[n]) then {ReadPath(run.files, findings[n].file)} else {};
  }

  lemma ReadWithinLimit(run: Run, findings: seq<Finding>, j: nat)
    requires j < |findings| && MayBeLowered(run, findings[j]) && |PathsBefore(run, findings, j)| < run.maxPaths
    ensures PathOf(run, findings[j]) in Limited(run, Paths(run, findings, |findings|))
  {
    var before, path := Paths(run, findings, j), PathOf(run, findings[j]);
    PathsAre(run, findings, j);
    PathsAreDistinct(run, findings, |findings|);
    PathsGrow(run, findings, j + 1, |findings|);
    var some := Paths(run, findings, j + 1);
    var k :| 0 <= k < |some| && some[k] == path;
    LimitOfPrefix(run, some, Paths(run, findings, |findings|), k);
  }

  lemma {:induction false} FirstWithPath(run: Run, findings: seq<Finding>, n: nat, path: string) returns (j: nat)
    requires n <= |findings| && path in Paths(run, findings, n)
    ensures j < n && MayBeLowered(run, findings[j]) && PathOf(run, findings[j]) == path
    ensures path !in Paths(run, findings, j)
  {
    if path in Paths(run, findings, n - 1) {
      j := FirstWithPath(run, findings, n - 1, path);
    } else {
      j := n - 1;
    }
  }

  /** Exactly the first `maxPaths` paths are read. */
  lemma ReadIff(run: Run, findings: seq<Finding>, i: nat)
    requires i < |findings|
    ensures PathOf(run, findings[i]) in Limited(run, Paths(run, findings, |findings|))
       <==> PathIsRead(run, findings, i)
  {
    if PathIsRead(run, findings, i) {
      var path := PathOf(run, findings[i]);
      var j :| 0 <= j < |findings| && MayBeLowered(run, findings[j])
               && ReadPath(run.files, findings[j].file) == path && |PathsBefore(run, findings, j)| < run.maxPaths;
      ReadWithinLimit(run, findings, j);
    }
    if PathOf(run, findings[i]) in Limited(run, Paths(run, findings, |findings|)) {
      LimitedIsRead(run, findings, i);
    }
  }

  lemma LimitedIsRead(run: Run, findings: seq<Finding>, i: nat)
    requires i < |findings| && PathOf(run, findings[i]) in Limited(run, Paths(run, findings, |findings|))
    ensures PathIsRead(run, findings, i)
  {
    var all, path := Paths(run, findings, |findings|), PathOf(run, findings[i]);
    var j := FirstWithPath(run, findings, |findings|, path);
    PathsAre(run, findings, j);
    PathsAreDistinct(run, findings, |findings|);
    PathsGrow(run, findings, j + 1, |findings|);
    assert Paths(run, findings, j + 1) == Paths(run, findings, j) + [path];
    LimitOfPrefix(run, Paths(run, findings, j + 1), all, |Paths(run, findings, j)|);
  }

  /** What becomes of finding `i`: nothing unless it may be lowered and its path is read, and else what the
      answer says. */
  ghost predicate CheckedTo(run: Run, findings: seq<Finding>, i: nat, g: Finding)
    requires i < |findings|
  {
    var f := findings[i];
    if MayBeLowered(run, f) && PathIsRead(run, findings, i) then
      BecomesBy(run, f, run.read(ReadPath(run.files, f.file)), g)
    else g == f
  }

  lemma CheckIs(run: Run, findings: seq<Finding>, i: nat)
    requires i < |findings|
    ensures CheckedTo(run, findings, i, AppliedTo(run, findings, |findings|)[i])
  {
    ReadIff(run, findings, i);
  }

  /** Check each finding in order: as many findings come back, in the same order, each with its effect
      applied; the paths asked of the reader are the first `maxPaths` distinct ones, each once. */
  method CheckFindings(run: Run, findings: seq<Finding>) returns (out: seq<Finding>, tally: Tally, asked: seq<string>)
    ensures out == AppliedTo(run, findings, |findings|)
    ensures tally == TallyOf(run, findings, |findings|)
    ensures asked == Limited(run, Paths(run, findings, |findings|)) && Distinct(asked)
    ensures |out| == |findings| && forall i :: 0 <= i < |findings| ==> CheckedTo(run, findings, i, out[i])
  {
    out, tally, asked := [], Tally(0, 0, 0, 0, []), [];
    var cache: map<string, Lookup> := map[];
    for n := 0 to |findings|
      invariant out == AppliedTo(run, findings, n)
      invariant tally == TallyOf(run, findings, n)
      invariant CacheOf(cache, run, findings, n) && asked == Limited(run, Paths(run, findings, n))
    {
      var e;
      e, cache, asked := CheckOne(run, findings, n, cache, asked);
      AppliedStep(run, findings, n);
      out := out + [Applied(run, findings[n], e)];
      tally := Counted(tally, findings[n], e);
    }
    LimitedIsDistinct(run, findings);
    forall i | 0 <= i < |findings| ensures CheckedTo(run, findings, i, out[i]) {
      CheckIs(run, findings, i);
    }
  }

  lemma LimitedIsDistinct(run: Run, findings: seq<Finding>)
    ensures Distinct(Limited(run, Paths(run, findings, |findings|)))
  {
    PathsAreDistinct(run, findings, |findings|);
  }

  datatype Outcome = Outcome(branch: Option<string>, stacked: bool, tally: Tally)

  /** The whole check: without a known default branch, or when the pull request targets it, nothing is
      read and nothing changes. */
  method ApplyCheck(run: Run, findings: seq<Finding>, defaultBranch: Option<string>, target: string)
    returns (out: seq<Finding>, outcome: Outcome, asked: seq<string>)
    ensures outcome.stacked <==> defaultBranch.Some? && defaultBranch.value != "" && target != defaultBranch.value
    ensures !outcome.stacked ==> out == findings && asked == [] && outcome.tally == Tally(0, 0, 0, 0, [])
    ensures outcome.stacked ==>
              && out == AppliedTo(run, findings, |findings|)
              && outcome.tally == TallyOf(run, findings, |findings|)
              && asked == Limited(run, Paths(run, findings, |findings|)) && Distinct(asked)
              && |out| == |findings| && forall i :: 0 <= i < |findings| ==> CheckedTo(run, findings, i, out[i])
  {
    var nothing := Tally(0, 0, 0, 0, []);
    if defaultBranch.None? || defaultBranch.value == "" {
      return findings, Outcome(None, false, nothing), [];
    }
    if target == defaultBranch.value {
      return findings, Outcome(defaultBranch, false, nothing), [];
    }
    var tally;
    out, tally, asked := CheckFindings(run, findings);
    outcome := Outcome(defaultBranch, true, tally);
  }

  /** Nothing is ever dropped, and only severity and body can change, the severity only to lower an
      active error or warning. */
  lemma NothingDropped(run: Run, f: Finding, lookup: Lookup)
    ensures var after := Applied(run, f, EffectOf(run, f, lookup));
            && after.dropReason == f.dropReason && after.file == f.file && after.title == f.title
            && f.body <= after.body
            && (after.severity != f.severity ==> after.severity == "outofscope" && MayBeLowered(run, f))
  {
  }
}
