/** Picking the newest merged pull requests from a listing ordered by update time: a walk that stops
    early returns what reading every page would. */
module CandidateWalk {
  import opened Prelude
  import opened Sorting

  /** One listed pull request: its times, when they are readable, and whether it qualifies. */
  datatype Pull = Pull(number: int, updated: Option<int>, merged: Option<int>, qualifies: bool)

  type Page = seq<Pull>

  datatype WalkError = CannotList

  /** Newest merge first. */
  predicate NewerMerge(a: Pull, b: Pull) {
    MergeTime(a) >= MergeTime(b)
  }

  function MergeTime(p: Pull): int {
    match p.merged
    case None => 0
    case Some(t) => t
  }

  lemma NewerMergeIsOrder()
    ensures TotalPreorder(NewerMerge)
  {
  }

  /** Merged, not before the cutoff, and qualifying. */
  predicate Wanted(p: Pull, cutoff: Option<int>) {
    && p.merged.Some?
    && (cutoff.Some? ==> p.merged.value >= cutoff.value)
    && p.qualifies
  }

  function WantedOf(page: Page, cutoff: Option<int>): (r: seq<Pull>)
    ensures forall p :: p in r <==> p in page && Wanted(p, cutoff)
  {
    if page == [] then []
    else if Wanted(page[0], cutoff) then [page[0]] + WantedOf(page[1..], cutoff)
    else WantedOf(page[1..], cutoff)
  }

  /** Every wanted pull request of the first `k` pages, in listing order. */
  function Candidates(pages: seq<Page>, k: nat, cutoff: Option<int>): seq<Pull>
    requires k <= |pages|
  {
    if k == 0 then [] else Candidates(pages, k - 1, cutoff) + WantedOf(pages[k - 1], cutoff)
  }

  function Ranked(pages: seq<Page>, k: nat, cutoff: Option<int>): seq<Pull>
    requires k <= |pages|
  {
    Sort(NewerMerge, Candidates(pages, k, cutoff))
  }

  function Take<T>(s: seq<T>, n: nat): seq<T> {
    if n <= |s| then s[..n] else s
  }

  /** The `wanted` newest merges of the first `k` pages, equal times in listing order. */
  function Newest(pages: seq<Page>, k: nat, cutoff: Option<int>, wanted: nat): seq<Pull>
    requires k <= |pages|
  {
    Take(Ranked(pages, k, cutoff), wanted)
  }

  // ---------------------------------------------------------------------------------
  // When the walk stops
  // ---------------------------------------------------------------------------------

  function Updates(page: Page): seq<int> {
    if page == [] then []
    else (if page[0].updated.Some? then [page[0].updated.value] else []) + Updates(page[1..])
  }

  lemma {:induction false} UpdatesAre(page: Page)
    ensures forall t :: t in Updates(page) <==> exists p :: p in page && p.updated == Some(t)
  {
    if page != [] {
      UpdatesAre(page[1..]);
      assert page == [page[0]] + page[1..];
    }
  }

  function Max(s: seq<int>): (r: int)
    requires s != []
    ensures r in s && forall t :: t in s ==> t <= r
  {
    assert s == [s[0]] + s[1..];
    if |s| == 1 then s[0] else if s[0] >= Max(s[1..]) then s[0] else Max(s[1..])
  }

  function Min(s: seq<int>): (r: int)
    requires s != []
    ensures r in s && forall t :: t in s ==> r <= t
  {
    assert s == [s[0]] + s[1..];
    if |s| == 1 then s[0] else if s[0] <= Min(s[1..]) then s[0] else Min(s[1..])
  }

  /** The page just read was last updated before the cutoff. */
  predicate PastCutoff(page: Page, cutoff: Option<int>) {
    cutoff.Some? && Updates(page) != [] && Max(Updates(page)) < cutoff.value
  }

  /** Enough are held, and the page just read reaches below the oldest of them. */
  predicate EnoughHeld(page: Page, kept: seq<Pull>, wanted: nat)
    requires wanted >= 1
  {
    |kept| >= wanted && Updates(page) != [] && Min(Updates(page)) < MergeTime(kept[wanted - 1])
  }

  /** The walk may stop after reading `k` pages. */
  predicate StopsAfter(pages: seq<Page>, k: nat, cutoff: Option<int>, wanted: nat)
    requires wanted >= 1 && k <= |pages|
  {
    k >= 1 && (PastCutoff(pages[k - 1], cutoff) || EnoughHeld(pages[k - 1], Ranked(pages, k, cutoff), wanted))
  }

  /** Reading goes on past each of the first `n` counts of pages. */
  predicate GoesOn(pages: seq<Page>, n: nat, cutoff: Option<int>, wanted: nat)
    requires wanted >= 1 && n <= |pages|
  {
    n == 0 || (GoesOn(pages, n - 1, cutoff, wanted) && !StopsAfter(pages, n - 1, cutoff, wanted))
  }

  // ---------------------------------------------------------------------------------
  // Stopping early loses nothing
  // ---------------------------------------------------------------------------------

  /** The listing is ordered by update time across pages, and no merge is later than the last update
      of its pull request. */
  ghost predicate OrderedByUpdate(pages: seq<Page>) {
    && (forall i, p :: 0 <= i < |pages| && p in pages[i] && p.merged.Some? ==>
          p.updated.Some? && p.merged.value <= p.updated.value)
    && (forall i, j, t, u :: 0 <= i < j < |pages| && t in Updates(pages[i]) && u in Updates(pages[j]) ==> u <= t)
  }

  lemma {:induction false} SortOfSorted<T(!new)>(le: (T, T) -> bool, s: seq<T>)
    requires SortedBy(le, s)
    ensures Sort(le, s) == s
  {
    if s != [] {
      var n := |s| - 1;
      SortOfSorted(le, s[..n]);
      InsertLast(le, s[..n], s[n]);
      assert s == s[..n] + [s[n]];
    }
  }

  lemma {:induction false} InsertLast<T(!new)>(le: (T, T) -> bool, s: seq<T>, x: T)
    requires forall i :: 0 <= i < |s| ==> le(s[i], x)
    ensures Insert(le, s, x) == s + [x]
  {
    if s != [] { InsertLast(le, s[1..], x); }
  }

  /** Sorting what is held and what is new together is sorting everything. */
  lemma {:induction false} SortTwice<T(!new)>(le: (T, T) -> bool, a: seq<T>, b: seq<T>)
    requires TotalPreorder(le)
    ensures Sort(le, Sort(le, a) + b) == Sort(le, a + b)
  {
    var s := Sort(le, a);
    if b == [] {
      SortSorted(le, a);
      SortOfSorted(le, s);
      assert a + b == a && s + b == s;
    } else {
      var n := |b| - 1;
      SortTwice(le, a, b[..n]);
      assert (s + b)[..|s + b| - 1] == s + b[..n] && (a + b)[..|a + b| - 1] == a + b[..n];
    }
  }

  /** An element not above the first `n` of a list goes behind them. */
  lemma {:induction false} InsertBehind<T(!new)>(le: (T, T) -> bool, s: seq<T>, x: T, n: nat)
    requires n <= |s| && forall i :: 0 <= i < n ==> le(s[i], x)
    ensures Insert(le, s, x)[..n] == s[..n]
  {
    if n > 0 {
      InsertBehind(le, s[1..], x, n - 1);
      assert s[..n] == [s[0]] + s[1..][..n - 1];
    }
  }

  /** Elements not above the first `n` of a sorted list do not reach them, however many are added. */
  lemma {:induction false} LaterStayBehind<T(!new)>(le: (T, T) -> bool, a: seq<T>, b: seq<T>, n: nat)
    requires TotalPreorder(le) && n <= |a|
    requires forall i, x :: 0 <= i < n && x in b ==> le(Sort(le, a)[i], x)
    ensures Sort(le, a + b)[..n] == Sort(le, a)[..n]
  {
    if b == [] {
      assert a + b == a;
    } else {
      var m := |b| - 1;
      assert forall x :: x in b[..m] ==> x in b;
      LaterStayBehind(le, a, b[..m], n);
      var s := Sort(le, a + b[..m]);
      assert (a + b)[..|a + b| - 1] == a + b[..m] && b[m] in b;
      forall i | 0 <= i < n ensures le(s[i], b[m]) {
        assert s[i] == s[..n][i] == Sort(le, a)[i];
      }
      InsertBehind(le, s, b[m], n);
    }
  }

  ghost predicate OnPage(pages: seq<Page>, k: nat, n: nat, p: Pull)
    requires n <= |pages|
  {
    exists j :: k <= j < n && p in pages[j]
  }

  lemma {:induction false} CandidatesSplit(pages: seq<Page>, k: nat, n: nat, cutoff: Option<int>)
    returns (later: seq<Pull>)
    requires k <= n <= |pages|
    ensures Candidates(pages, n, cutoff) == Candidates(pages, k, cutoff) + later
    ensures forall p :: p in later ==> Wanted(p, cutoff) && OnPage(pages, k, n, p)
    decreases n
  {
    later := [];
    if k < n {
      var front := CandidatesSplit(pages, k, n - 1, cutoff);
      later := front + WantedOf(pages[n - 1], cutoff);
    }
  }

  /** A pull request on a later page was merged no later than any update on an earlier one. */
  lemma MergedBeforeUpdates(pages: seq<Page>, i: nat, j: nat, q: Pull, t: int)
    requires OrderedByUpdate(pages) && i < j < |pages| && q in pages[j] && q.merged.Some? && t in Updates(pages[i])
    ensures q.merged.value <= t
  {
    UpdatesAre(pages[j]);
    assert q.updated.value in Updates(pages[j]);
  }

  /** What the later pages still hold was merged no later than an update on page `k - 1`. */
  lemma LaterIsOlder(pages: seq<Page>, k: nat, cutoff: Option<int>, t: int) returns (later: seq<Pull>)
    requires OrderedByUpdate(pages) && 1 <= k <= |pages| && t in Updates(pages[k - 1])
    ensures Candidates(pages, |pages|, cutoff) == Candidates(pages, k, cutoff) + later
    ensures forall q :: q in later ==> Wanted(q, cutoff) && MergeTime(q) <= t
  {
    later := CandidatesSplit(pages, k, |pages|, cutoff);
    forall q | q in later ensures MergeTime(q) <= t {
      MergedBefore(pages, k, q, t);
    }
  }

  lemma MergedBefore(pages: seq<Page>, k: nat, q: Pull, t: int)
    requires OrderedByUpdate(pages) && 1 <= k <= |pages| && t in Updates(pages[k - 1])
    requires OnPage(pages, k, |pages|, q) && q.merged.Some?
    ensures MergeTime(q) <= t
  {
    var j :| k <= j < |pages| && q in pages[j];
    MergedBeforeUpdates(pages, k - 1, j, q, t);
  }

  lemma SomeIn(s: seq<Pull>)
    ensures s != [] ==> exists q :: q in s
  {
    if s != [] { assert s[0] in s; }
  }

  lemma CutoffLosesNothing(pages: seq<Page>, k: nat, cutoff: Option<int>)
    requires OrderedByUpdate(pages) && 1 <= k <= |pages| && PastCutoff(pages[k - 1], cutoff)
    ensures Candidates(pages, |pages|, cutoff) == Candidates(pages, k, cutoff)
  {
    var later := LaterIsOlder(pages, k, cutoff, Max(Updates(pages[k - 1])));
    SomeIn(later);
  }

  lemma OldStayBehind(held: seq<Pull>, later: seq<Pull>, wanted: nat, t: int)
    requires 1 <= wanted <= |held| && t <= MergeTime(Sort(NewerMerge, held)[wanted - 1])
    requires forall q :: q in later ==> MergeTime(q) <= t
    ensures Take(Sort(NewerMerge, held + later), wanted) == Take(Sort(NewerMerge, held), wanted)
  {
    NewerMergeIsOrder();
    var kept := Sort(NewerMerge, held);
    SortSorted(NewerMerge, held);
    forall i, x | 0 <= i < wanted && x in later ensures NewerMerge(kept[i], x) {
      assert i < wanted - 1 ==> NewerMerge(kept[i], kept[wanted - 1]);
    }
    LaterStayBehind(NewerMerge, held, later, wanted);
  }

  lemma EnoughLosesNothing(pages: seq<Page>, k: nat, cutoff: Option<int>, wanted: nat)
    requires OrderedByUpdate(pages) && wanted >= 1 && 1 <= k <= |pages|
    requires EnoughHeld(pages[k - 1], Ranked(pages, k, cutoff), wanted)
    ensures Newest(pages, |pages|, cutoff, wanted) == Newest(pages, k, cutoff, wanted)
  {
    var later := LaterIsOlder(pages, k, cutoff, Min(Updates(pages[k - 1])));
    OldStayBehind(Candidates(pages, k, cutoff), later, wanted, Min(Updates(pages[k - 1])));
  }

  /** Once the walk may stop, the pages left could not change the result. */
  lemma StopLosesNothing(pages: seq<Page>, k: nat, cutoff: Option<int>, wanted: nat)
    requires OrderedByUpdate(pages) && wanted >= 1 && 1 <= k <= |pages| && StopsAfter(pages, k, cutoff, wanted)
    ensures Newest(pages, |pages|, cutoff, wanted) == Newest(pages, k, cutoff, wanted)
  {
    if PastCutoff(pages[k - 1], cutoff) {
      CutoffLosesNothing(pages, k, cutoff);
    } else {
      EnoughLosesNothing(pages, k, cutoff, wanted);
    }
  }

  /** Sorting what is held together with a new page's pull requests ranks the pages read so far. */
  lemma RankedStep(pages: seq<Page>, k: nat, cutoff: Option<int>)
    requires k < |pages|
    ensures Sort(NewerMerge, Ranked(pages, k, cutoff) + WantedOf(pages[k], cutoff)) == Ranked(pages, k + 1, cutoff)
  {
    NewerMergeIsOrder();
    SortTwice(NewerMerge, Candidates(pages, k, cutoff), WantedOf(pages[k], cutoff));
  }

  lemma {:induction false} CandidatesAre(pages: seq<Page>, k: nat, cutoff: Option<int>)
    requires k <= |pages|
    ensures forall p :: p in Candidates(pages, k, cutoff) <==> Wanted(p, cutoff) && OnPage(pages, 0, k, p)
  {
    if k > 0 {
      CandidatesAre(pages, k - 1, cutoff);
      forall p ensures OnPage(pages, 0, k, p) <==> OnPage(pages, 0, k - 1, p) || p in pages[k - 1] {
        if OnPage(pages, 0, k - 1, p) {
          var j :| 0 <= j < k - 1 && p in pages[j];
        }
      }
    }
  }

  /** A merged pull request that qualifies and was not merged before the cutoff. */
  ghost function MayBeMined(cutoff: Option<int>): Pull -> bool {
    (p: Pull) => p.merged.Some? && p.qualifies && (cutoff == None || cutoff.value <= p.merged.value)
  }

  /** The pull requests of the first `k` pages, in listing order. */
  ghost function Listed(pages: seq<Page>, k: nat): seq<Pull>
    requires k <= |pages|
  {
    if k == 0 then [] else Listed(pages, k - 1) + pages[k - 1]
  }

  ghost function Mined(pages: seq<Page>, k: nat, cutoff: Option<int>): seq<Pull>
    requires k <= |pages|
  {
    Filter(MayBeMined(cutoff), Listed(pages, k))
  }

  lemma {:induction false} WantedAreFiltered(page: Page, cutoff: Option<int>)
    ensures WantedOf(page, cutoff) == Filter(MayBeMined(cutoff), page)
  {
    if page != [] { WantedAreFiltered(page[1..], cutoff); }
  }

  lemma {:induction false} CandidatesAreMined(pages: seq<Page>, k: nat, cutoff: Option<int>)
    requires k <= |pages|
    ensures Candidates(pages, k, cutoff) == Mined(pages, k, cutoff)
  {
    if k > 0 {
      CandidatesAreMined(pages, k - 1, cutoff);
      WantedAreFiltered(pages[k - 1], cutoff);
      FilterConcat(MayBeMined(cutoff), Listed(pages, k - 1), pages[k - 1]);
    }
  }

  ghost predicate MergedNoLater(p: Pull, q: Pull) {
    p.merged.Some? && q.merged.Some? && p.merged.value <= q.merged.value
  }

  /** `r` are the newest `wanted` of `all`: `left` are the others, none merged later than any of `r`, and there
      are others only when enough are held. */
  ghost predicate NewestOf(r: seq<Pull>, left: seq<Pull>, all: seq<Pull>, wanted: nat) {
    && multiset(r) + multiset(left) == multiset(all)
    && |r| <= wanted && (left != [] ==> |r| == wanted)
    && (forall i, j :: 0 <= i < j < |r| ==> MergedNoLater(r[j], r[i]))
    && (forall p, q :: p in left && q in r ==> MergedNoLater(p, q))
  }

  /** The newest are listed pull requests that may be mined, newest merge first, and every other that
      is left out was merged no later than each of them, and only because enough are listed. */
  lemma NewestAreNewest(pages: seq<Page>, k: nat, cutoff: Option<int>, wanted: nat) returns (left: seq<Pull>)
    requires k <= |pages|
    ensures NewestOf(Newest(pages, k, cutoff, wanted), left, Mined(pages, k, cutoff), wanted)
  {
    var all := RankedDescend(pages, k, cutoff);
    var r := Take(all, wanted);
    left := all[|r|..];
    assert all == r + left;
    forall p, q | p in left && q in r ensures MergedNoLater(p, q) {
      var i :| 0 <= i < |left| && left[i] == p;
      var j :| 0 <= j < |r| && r[j] == q;
      assert all[|r| + i] == p && all[j] == q;
    }
  }

  lemma RankedDescend(pages: seq<Page>, k: nat, cutoff: Option<int>) returns (all: seq<Pull>)
    requires k <= |pages|
    ensures all == Ranked(pages, k, cutoff) && multiset(all) == multiset(Mined(pages, k, cutoff))
    ensures forall i, j :: 0 <= i < j < |all| ==> MergedNoLater(all[j], all[i])
  {
    var candidates := Candidates(pages, k, cutoff);
    all := Ranked(pages, k, cutoff);
    NewerMergeIsOrder();
    CandidatesAreMined(pages, k, cutoff);
    SortSorted(NewerMerge, candidates);
    SortMultiset(NewerMerge, candidates);
    CandidatesAre(pages, k, cutoff);
    SortMembers(NewerMerge, candidates);
    forall i, j | 0 <= i < j < |all| ensures MergedNoLater(all[j], all[i]) {
      assert all[i] in all && all[j] in all && NewerMerge(all[i], all[j]);
    }
  }

  ghost function MergedAt(t: int): Pull -> bool {
    (p: Pull) => p.merged == Some(t)
  }

  /** Equal merge times keep their listing order. */
  lemma SameTimesKeepOrder(pages: seq<Page>, k: nat, cutoff: Option<int>, wanted: nat, t: int)
    requires k <= |pages|
    ensures Filter(MergedAt(t), Newest(pages, k, cutoff, wanted)) <= Filter(MergedAt(t), Mined(pages, k, cutoff))
  {
    NewerMergeIsOrder();
    CandidatesAreMined(pages, k, cutoff);
    SortIsStable(NewerMerge, Candidates(pages, k, cutoff), MergedAt(t));
    var all, r := Ranked(pages, k, cutoff), Newest(pages, k, cutoff, wanted);
    var left := all[|r|..];
    assert all == r + left;
    FilterConcat(MergedAt(t), r, left);
  }

  /** Some pull request on the page has an update time, and the page may end the walk: all its update times are
      before the cutoff, or `wanted` pull requests are held that were all merged after one of them. */
  ghost predicate EndsWalk(pages: seq<Page>, k: nat, cutoff: Option<int>, wanted: nat)
    requires 1 <= k <= |pages|
  {
    var page, held := pages[k - 1], Newest(pages, k, cutoff, wanted);
    && (exists p :: p in page && p.updated.Some?)
    && (|| (cutoff.Some? && forall p :: p in page && p.updated.Some? ==> p.updated.value < cutoff.value)
        || (|held| == wanted && AllMergedAfterOne(held, page)))
  }

  /** All were merged after the update time of some pull request of the page. */
  ghost predicate AllMergedAfterOne(held: seq<Pull>, page: Page) {
    exists p :: p in page && p.updated.Some? && AllMergedAfter(held, p.updated.value)
  }

  ghost predicate AllMergedAfter(held: seq<Pull>, t: int) {
    forall q :: q in held ==> q.merged.Some? && t < q.merged.value
  }

  /** The walk stops after the page exactly when it may. */
  lemma StopsIff(pages: seq<Page>, k: nat, cutoff: Option<int>, wanted: nat)
    requires 1 <= k <= |pages| && wanted >= 1
    ensures StopsAfter(pages, k, cutoff, wanted) <==> EndsWalk(pages, k, cutoff, wanted)
  {
    var page := pages[k - 1];
    NoUpdates(page);
    if Updates(page) != [] {
      if cutoff.Some? { PastIff(page, cutoff); }
      HeldIff(pages, k, cutoff, wanted);
    }
  }

  lemma {:induction false} DidNotStop(pages: seq<Page>, n: nat, cutoff: Option<int>, wanted: nat, k: nat)
    requires wanted >= 1 && 1 <= k < n <= |pages| && GoesOn(pages, n, cutoff, wanted)
    ensures !StopsAfter(pages, k, cutoff, wanted)
  {
    if k < n - 1 {
      DidNotStop(pages, n - 1, cutoff, wanted, k);
    }
  }

  lemma NoUpdates(page: Page)
    ensures Updates(page) != [] <==> exists p :: p in page && p.updated.Some?
  {
    UpdatesAre(page);
    if Updates(page) != [] { assert Updates(page)[0] in Updates(page); }
    if p :| p in page && p.updated.Some? {
      var t := p.updated.value;
      assert p in page && p.updated == Some(t);
      assert t in Updates(page);
    }
  }

  lemma PastIff(page: Page, cutoff: Option<int>)
    requires Updates(page) != [] && cutoff.Some?
    ensures Max(Updates(page)) < cutoff.value
       <==> forall p :: p in page && p.updated.Some? ==> p.updated.value < cutoff.value
  {
    UpdatesAre(page);
    var p :| p in page && p.updated == Some(Max(Updates(page)));
    forall q | q in page && q.updated.Some? ensures q.updated.value <= Max(Updates(page)) {
      assert q.updated.value in Updates(page);
    }
  }

  lemma HeldIff(pages: seq<Page>, k: nat, cutoff: Option<int>, wanted: nat)
    requires 1 <= k <= |pages| && wanted >= 1 && Updates(pages[k - 1]) != []
    ensures EnoughHeld(pages[k - 1], Ranked(pages, k, cutoff), wanted)
       <==> && |Newest(pages, k, cutoff, wanted)| == wanted
            && AllMergedAfterOne(Newest(pages, k, cutoff, wanted), pages[k - 1])
  {
    NewestDescend(pages, k, cutoff, wanted);
    HeldBy(pages[k - 1], Ranked(pages, k, cutoff), Newest(pages, k, cutoff, wanted), wanted);
  }

  lemma HeldBy(page: Page, all: seq<Pull>, held: seq<Pull>, wanted: nat)
    requires wanted >= 1 && Updates(page) != [] && held == Take(all, wanted)
    requires forall q :: q in held ==> q.merged.Some?
    requires forall i, j :: 0 <= i < j < |held| ==> MergedNoLater(held[j], held[i])
    ensures EnoughHeld(page, all, wanted)
       <==> |held| == wanted && AllMergedAfterOne(held, page)
  {
    HeldLast(all, held, wanted, Min(Updates(page)));
    LeastDecides(page, held);
  }

  lemma HeldLast(all: seq<Pull>, held: seq<Pull>, wanted: nat, t: int)
    requires wanted >= 1 && held == Take(all, wanted)
    requires forall q :: q in held ==> q.merged.Some?
    requires forall i, j :: 0 <= i < j < |held| ==> MergedNoLater(held[j], held[i])
    ensures |all| >= wanted && t < MergeTime(all[wanted - 1]) <==> |held| == wanted && AllMergedAfter(held, t)
  {
    if |held| == wanted {
      assert held[wanted - 1] == all[wanted - 1];
      LastDecides(held, t);
    }
  }

  lemma NewestDescend(pages: seq<Page>, k: nat, cutoff: Option<int>, wanted: nat)
    requires k <= |pages|
    ensures var held := Newest(pages, k, cutoff, wanted);
            && (forall q :: q in held ==> q.merged.Some?)
            && forall i, j :: 0 <= i < j < |held| ==> MergedNoLater(held[j], held[i])
  {
    var left := NewestAreNewest(pages, k, cutoff, wanted);
    AllMerged(Newest(pages, k, cutoff, wanted), pages, k, cutoff, wanted);
  }

  lemma LastDecides(held: seq<Pull>, t: int)
    requires held != [] && forall q :: q in held ==> q.merged.Some?
    requires forall i, j :: 0 <= i < j < |held| ==> MergedNoLater(held[j], held[i])
    ensures AllMergedAfter(held, t) <==> t < MergeTime(held[|held| - 1])
  {
    var last := held[|held| - 1];
    assert last in held;
    if t < MergeTime(last) {
      forall q | q in held ensures t < q.merged.value {
        var i :| 0 <= i < |held| && held[i] == q;
        if i < |held| - 1 { assert MergedNoLater(last, held[i]); }
      }
    }
  }

  lemma LeastDecides(page: Page, held: seq<Pull>)
    requires Updates(page) != []
    ensures AllMergedAfter(held, Min(Updates(page))) <==> AllMergedAfterOne(held, page)
  {
    UpdatesAre(page);
    var least :| least in page && least.updated == Some(Min(Updates(page)));
    if p :| p in page && p.updated.Some? && AllMergedAfter(held, p.updated.value) {
      assert p.updated.value in Updates(page);
    }
    if AllMergedAfter(held, Min(Updates(page))) {
      assert AllMergedAfter(held, least.updated.value);
    }
  }

  lemma AllMerged(held: seq<Pull>, pages: seq<Page>, k: nat, cutoff: Option<int>, wanted: nat)
    requires k <= |pages| && held == Newest(pages, k, cutoff, wanted)
    ensures forall q :: q in held ==> q.merged.Some?
  {
    CandidatesAre(pages, k, cutoff);
    SortMembers(NewerMerge, Candidates(pages, k, cutoff));
    assert forall q :: q in held ==> q in Ranked(pages, k, cutoff);
  }

  // ---------------------------------------------------------------------------------
  // The walk
  // ---------------------------------------------------------------------------------

  method KeepWanted(kept: seq<Pull>, page: Page, cutoff: Option<int>) returns (r: seq<Pull>)
    ensures r == kept + WantedOf(page, cutoff)
  {
    r := kept;
    var i := 0;
    while i < |page|
      invariant 0 <= i <= |page|
      invariant r + WantedOf(page[i..], cutoff) == kept + WantedOf(page, cutoff)
    {
      var pr := page[i];
      assert page[i..][1..] == page[i + 1..];
      if pr.merged.Some? && (cutoff.None? || pr.merged.value >= cutoff.value) {
        if pr.qualifies {
          r := r + [pr];
        }
      }
      i := i + 1;
    }
  }

  method MayStop(page: Page, kept: seq<Pull>, cutoff: Option<int>, wanted: nat) returns (stop: bool)
    requires wanted >= 1
    ensures stop <==> PastCutoff(page, cutoff) || EnoughHeld(page, kept, wanted)
    ensures stop ==> page != []
  {
    var updates := Updates(page);
    if cutoff.Some? && updates != [] && Max(updates) < cutoff.value {
      return true;
    }
    if |kept| >= wanted && updates != [] {
      return Min(updates) < MergeTime(kept[wanted - 1]);
    }
    return false;
  }

  predicate NothingSeen(pages: seq<Page>, k: nat)
    requires k <= |pages|
  {
    forall i :: 0 <= i < k ==> pages[i] == []
  }

  /** The walk's state after `read` pages: what is kept is ranked, nothing stopped it before, and
      `ended` says whether it may stop now. */
  predicate Walked(pages: seq<Page>, read: nat, kept: seq<Pull>, seen: nat, ended: bool, cutoff: Option<int>,
                   wanted: nat)
    requires wanted >= 1
  {
    && read <= |pages|
    && kept == Ranked(pages, read, cutoff)
    && (seen == 0 <==> NothingSeen(pages, read))
    && GoesOn(pages, read, cutoff, wanted)
    && (ended <==> StopsAfter(pages, read, cutoff, wanted))
    && (ended ==> seen != 0)
  }

  /** Take in one page. */
  method ReadPage(pages: seq<Page>, read: nat, kept: seq<Pull>, seen: nat, cutoff: Option<int>, wanted: nat)
    returns (now: seq<Pull>, seenNow: nat, ended: bool)
    requires wanted >= 1 && read < |pages| && Walked(pages, read, kept, seen, false, cutoff, wanted)
    ensures Walked(pages, read + 1, now, seenNow, ended, cutoff, wanted)
  {
    seenNow := seen + |pages[read]|;
    now := KeepWanted(kept, pages[read], cutoff);
    now := Sort(NewerMerge, now);
    RankedStep(pages, read, cutoff);
    ended := MayStop(pages[read], now, cutoff, wanted);
  }

  /** Read the pages in turn until one of them ends the walk, or the feed has no more. */
  method WalkPages(pages: seq<Page>, cutoff: Option<int>, wanted: nat)
    returns (kept: seq<Pull>, seen: nat, read: nat, ended: bool)
    requires wanted >= 1
    ensures Walked(pages, read, kept, seen, ended, cutoff, wanted)
    ensures !ended ==> read == |pages|
  {
    kept, seen, read, ended := [], 0, 0, false;
    while read < |pages| && !ended
      invariant Walked(pages, read, kept, seen, ended, cutoff, wanted)
      decreases |pages| - read, !ended
    {
      kept, seen, ended := ReadPage(pages, read, kept, seen, cutoff, wanted);
      read := read + 1;
    }
  }

  lemma WalkIsExact(pages: seq<Page>, read: nat, cutoff: Option<int>, wanted: nat)
    requires OrderedByUpdate(pages) && wanted >= 1 && read <= |pages|
    requires read < |pages| ==> StopsAfter(pages, read, cutoff, wanted)
    ensures Newest(pages, read, cutoff, wanted) == Newest(pages, |pages|, cutoff, wanted)
  {
    if read < |pages| {
      StopLosesNothing(pages, read, cutoff, wanted);
    }
  }

  /** Whatever the feed, the result is the newest of the pages read up to the first that may end the
      walk; on an ordered listing it is the newest of all the pages the feed can deliver. */
  method CandidatePulls(pages: seq<Page>, breaks: bool, cutoff: Option<int>, wanted: nat)
    returns (r: Result<seq<Pull>, WalkError>, read: nat)
    requires wanted >= 1
    ensures read <= |pages| && GoesOn(pages, read, cutoff, wanted)
    ensures read < |pages| ==> StopsAfter(pages, read, cutoff, wanted)
    ensures r.Err? <==> breaks && NothingSeen(pages, |pages|)
    ensures r.Ok? ==> r.value == Newest(pages, read, cutoff, wanted)
    ensures r.Ok? && OrderedByUpdate(pages) ==> r.value == Newest(pages, |pages|, cutoff, wanted)
    ensures forall k :: 1 <= k < read ==> !EndsWalk(pages, k, cutoff, wanted)
    ensures read < |pages| ==> read >= 1 && EndsWalk(pages, read, cutoff, wanted)
  {
    var kept, seen, n, ended := WalkPages(pages, cutoff, wanted);
    read := n;
    forall k | 1 <= k < read ensures !EndsWalk(pages, k, cutoff, wanted) {
      DidNotStop(pages, read, cutoff, wanted, k);
      StopsIff(pages, k, cutoff, wanted);
    }
    if read < |pages| { StopsIff(pages, read, cutoff, wanted); }
    if breaks && !ended && seen == 0 {
      return Err(CannotList), read;
    }
    if OrderedByUpdate(pages) {
      WalkIsExact(pages, read, cutoff, wanted);
    }
    r := Ok(Take(kept, wanted));
  }
}
