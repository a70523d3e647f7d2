/** Splitting cases into folds by pull request, each group going to the least loaded fold. */
module Folds {
  import opened Prelude
  import opened Sorting

  /** `prUrl` is empty when the case has none. */
  datatype Case = Case(id: string, prUrl: string)

  datatype FoldError = DuplicateId(id: string) | BadFoldCount(groups: nat) | MissingIds(ids: seq<string>)

  function GroupKey(c: Case): string {
    if c.prUrl != "" then c.prUrl else "id:" + c.id
  }

  // ---------------------------------------------------------------------------------
  // Least loaded first
  // ---------------------------------------------------------------------------------

  /** The lowest index of a least load. */
  function LeastIndex(loads: seq<nat>): (r: nat)
    requires loads != []
    ensures r < |loads|
    ensures forall j :: 0 <= j < |loads| ==> loads[r] <= loads[j]
    ensures forall j :: 0 <= j < r ==> loads[r] < loads[j]
  {
    if |loads| == 1 then 0
    else
      var rest := loads[1..];
      var i := LeastIndex(rest);
      assert forall j :: 0 < j < |loads| ==> loads[j] == rest[j - 1];
      if loads[0] <= rest[i] then 0 else i + 1
  }

  datatype Placed = Placed(loads: seq<nat>, folds: seq<nat>)

  /** Where the first `n` groups go, and the loads they leave. */
  function Place(sizes: seq<nat>, k: nat, n: nat): (r: Placed)
    requires k >= 1 && n <= |sizes|
    ensures |r.loads| == k && |r.folds| == n && forall i :: 0 <= i < n ==> r.folds[i] < k
  {
    if n == 0 then Placed(seq(k, _ => 0), [])
    else
      var p := Place(sizes, k, n - 1);
      var fold := LeastIndex(p.loads);
      Placed(p.loads[fold := p.loads[fold] + sizes[n - 1]], p.folds + [fold])
  }

  /** What the groups of one fold amount to. */
  function LoadOf(sizes: seq<nat>, folds: seq<nat>, n: nat, fold: nat): nat
    requires n <= |sizes| && n <= |folds|
  {
    if n == 0 then 0
    else if folds[n - 1] == fold then LoadOf(sizes, folds, n - 1, fold) + sizes[n - 1]
    else LoadOf(sizes, folds, n - 1, fold)
  }

  lemma {:induction false} LoadOfPrefix(sizes: seq<nat>, folds: seq<nat>, more: seq<nat>, n: nat, fold: nat)
    requires n <= |sizes| && n <= |folds|
    ensures LoadOf(sizes, folds + more, n, fold) == LoadOf(sizes, folds, n, fold)
  {
    if n > 0 { LoadOfPrefix(sizes, folds, more, n - 1, fold); }
  }

  /** The loads are what the groups placed in each fold amount to. */
  lemma {:induction false} LoadsAddUp(sizes: seq<nat>, k: nat, n: nat, fold: nat)
    requires k >= 1 && n <= |sizes| && fold < k
    ensures Place(sizes, k, n).loads[fold] == LoadOf(sizes, Place(sizes, k, n).folds, n, fold)
  {
    if n > 0 {
      var p := Place(sizes, k, n - 1);
      LoadsAddUp(sizes, k, n - 1, fold);
      LoadOfPrefix(sizes, p.folds, [LeastIndex(p.loads)], n - 1, fold);
    }
  }

  /** Any two folds differ by at most the size of the largest group. */
  lemma {:induction false} LoadsAreBalanced(sizes: seq<nat>, k: nat, n: nat, largest: nat, a: nat, b: nat)
    requires k >= 1 && n <= |sizes| && a < k && b < k
    requires forall i :: 0 <= i < n ==> sizes[i] <= largest
    ensures Place(sizes, k, n).loads[a] <= Place(sizes, k, n).loads[b] + largest
  {
    if n > 0 {
      LoadsAreBalanced(sizes, k, n - 1, largest, a, b);
    }
  }

  lemma LeastIsFirstZero(loads: seq<nat>, n: nat)
    requires n < |loads| && loads[n] == 0 && forall j :: 0 <= j < n ==> loads[j] > 0
    ensures LeastIndex(loads) == n
  {
    var least := LeastIndex(loads);
    assert loads[least] <= loads[n];
  }

  /** Group `i` is alone in fold `i`, and the other folds are still empty. */
  predicate Spread(p: Placed, n: nat) {
    && n == |p.folds| <= |p.loads|
    && (forall i :: 0 <= i < n ==> p.folds[i] == i && p.loads[i] > 0)
    && (forall i :: n <= i < |p.loads| ==> p.loads[i] == 0)
  }

  /** The first `k` groups open the folds in turn. */
  lemma {:induction false} FirstGroupsSpread(sizes: seq<nat>, k: nat, n: nat)
    requires k >= 1 && n <= |sizes| && n <= k && forall i :: 0 <= i < n ==> sizes[i] > 0
    ensures Spread(Place(sizes, k, n), n)
  {
    if n > 0 {
      FirstGroupsSpread(sizes, k, n - 1);
      LeastIsFirstZero(Place(sizes, k, n - 1).loads, n - 1);
    }
  }

  /** With at least as many groups as folds, no fold is empty. */
  lemma {:induction false} NoFoldIsEmpty(sizes: seq<nat>, k: nat, n: nat)
    requires k >= 1 && k <= n <= |sizes| && forall i :: 0 <= i < n ==> sizes[i] > 0
    ensures forall j :: 0 <= j < k ==> Place(sizes, k, n).loads[j] > 0
  {
    if n == k {
      FirstGroupsSpread(sizes, k, n);
    } else {
      NoFoldIsEmpty(sizes, k, n - 1);
    }
  }

  /** The load of a fold after `n` single-case groups in turn. */
  function TurnLoad(n: nat, k: nat, j: nat): nat
    requires k >= 1
  {
    if j < n % k then n / k + 1 else n / k
  }

  lemma NextTurn(n: nat, k: nat)
    requires k >= 1
    ensures if n % k + 1 == k then (n + 1) / k == n / k + 1 && (n + 1) % k == 0
            else (n + 1) / k == n / k && (n + 1) % k == n % k + 1
  {
    var q, r := n / k, n % k;
    assert n == q * k + r;
    if r + 1 == k {
      assert n + 1 == (q + 1) * k;
      QuotientIs(n + 1, k, q + 1, 0);
    } else {
      QuotientIs(n + 1, k, q, r + 1);
    }
  }

  ghost predicate DealtInTurn(p: Placed, k: nat, n: nat)
    requires k >= 1 && |p.loads| == k && |p.folds| == n
  {
    && (forall i :: 0 <= i < n ==> p.folds[i] == i % k)
    && (forall j :: 0 <= j < k ==> p.loads[j] == TurnLoad(n, k, j))
  }

  /** The fold whose turn it is gets one more. */
  lemma TurnLoadNext(n: nat, k: nat, j: nat)
    requires k >= 1 && j < k
    ensures TurnLoad(n + 1, k, j) == TurnLoad(n, k, j) + if j == n % k then 1 else 0
  {
    NextTurn(n, k);
  }

  /** It is the first of the least loaded. */
  lemma LeastIsTurn(loads: seq<nat>, k: nat, n: nat)
    requires k >= 1 && |loads| == k && forall j :: 0 <= j < k ==> loads[j] == TurnLoad(n, k, j)
    ensures LeastIndex(loads) == n % k
  {
    var least, turn := LeastIndex(loads), n % k;
    assert loads[turn] == TurnLoad(n, k, turn) == n / k;
    assert loads[least] == TurnLoad(n, k, least);
  }

  lemma DealtNext(p: Placed, k: nat, n: nat)
    requires k >= 1 && |p.loads| == k && |p.folds| == n && DealtInTurn(p, k, n)
    ensures var fold := n % k;
            DealtInTurn(Placed(p.loads[fold := p.loads[fold] + 1], p.folds + [fold]), k, n + 1)
  {
    var loads := p.loads[n % k := p.loads[n % k] + 1];
    forall j | 0 <= j < k ensures loads[j] == TurnLoad(n + 1, k, j) {
      TurnLoadNext(n, k, j);
    }
  }

  /** When every group has one case the folds are dealt in turn. */
  lemma {:induction false} SinglesGoRoundRobin(sizes: seq<nat>, k: nat, n: nat)
    requires k >= 1 && n <= |sizes| && forall i :: 0 <= i < n ==> sizes[i] == 1
    ensures var p := Place(sizes, k, n);
            && (forall i :: 0 <= i < n ==> p.folds[i] == i % k)
            && (forall j :: 0 <= j < k ==> p.loads[j] == TurnLoad(n, k, j))
  {
    if n > 0 {
      var p := Place(sizes, k, n - 1);
      SinglesGoRoundRobin(sizes, k, n - 1);
      LeastIsTurn(p.loads, k, n - 1);
      DealtNext(p, k, n - 1);
    } else {
      QuotientIs(0, k, 0, 0);
    }
  }

  // ---------------------------------------------------------------------------------
  // Groups and their order
  // ---------------------------------------------------------------------------------

  type Hash = string -> string

  predicate KeyLe(hash: Hash, a: string, b: string) {
    if hash(a) == hash(b) then StringLe(a, b) else StringLe(hash(a), hash(b))
  }

  function KeyOrder(hash: Hash): (string, string) -> bool {
    (a, b) => KeyLe(hash, a, b)
  }

  ghost function StrictKeyOrder(hash: Hash): (string, string) -> bool {
    (a, b) => a != b && KeyLe(hash, a, b)
  }

  lemma KeyOrders(hash: Hash)
    ensures TotalPreorder(KeyOrder(hash)) && StrictOrder(StrictKeyOrder(hash))
  {
    StringOrder();
  }

  /** The group keys, in order of first appearance. */
  function Keys(cases: seq<Case>, n: nat): seq<string>
    requires n <= |cases|
  {
    if n == 0 then []
    else
      var key := GroupKey(cases[n - 1]);
      if key in Keys(cases, n - 1) then Keys(cases, n - 1) else Keys(cases, n - 1) + [key]
  }

  lemma {:induction false} KeysAre(cases: seq<Case>, n: nat)
    requires n <= |cases|
    ensures Distinct(Keys(cases, n))
    ensures forall key :: key in Keys(cases, n) <==> exists i :: 0 <= i < n && GroupKey(cases[i]) == key
  {
    if n > 0 {
      KeysAre(cases, n - 1);
      assert GroupKey(cases[n - 1]) in Keys(cases, n);
    }
  }

  /** The group keys in placing order. */
  function Ordered(cases: seq<Case>, hash: Hash): seq<string> {
    Sort(KeyOrder(hash), Keys(cases, |cases|))
  }

  /** The ids of the group of `key`, in input order. */
  function Ids(cases: seq<Case>, n: nat, key: string): seq<string>
    requires n <= |cases|
  {
    if n == 0 then []
    else if GroupKey(cases[n - 1]) == key then Ids(cases, n - 1, key) + [cases[n - 1].id]
    else Ids(cases, n - 1, key)
  }

  function Sizes(cases: seq<Case>, keys: seq<string>): seq<nat> {
    seq(|keys|, i requires 0 <= i < |keys| => |Ids(cases, |cases|, keys[i])|)
  }

  function IndexOf(keys: seq<string>, key: string): (r: nat)
    requires key in keys
    ensures r < |keys| && keys[r] == key
  {
    if keys[0] == key then 0 else IndexOf(keys[1..], key) + 1
  }

  function Folding(cases: seq<Case>, k: nat, hash: Hash): Placed
    requires k >= 1
  {
    var keys := Ordered(cases, hash);
    Place(Sizes(cases, keys), k, |keys|)
  }

  lemma OrderedAre(cases: seq<Case>, hash: Hash)
    ensures var keys := Ordered(cases, hash);
            && Distinct(keys) && SortedBy(KeyOrder(hash), keys) && |keys| == |Keys(cases, |cases|)|
            && forall key :: key in keys <==> exists c :: c in cases && GroupKey(c) == key
  {
    var first := Keys(cases, |cases|);
    KeyOrders(hash);
    KeysAre(cases, |cases|);
    SortSorted(KeyOrder(hash), first);
    SortMultiset(KeyOrder(hash), first);
    SameMultisetDistinct(first, Ordered(cases, hash));
    SortMembers(KeyOrder(hash), first);
    forall key ensures key in first <==> exists c :: c in cases && GroupKey(c) == key {
      if c: Case :| c in cases && GroupKey(c) == key {
        var i :| 0 <= i < |cases| && cases[i] == c;
      }
    }
  }

  // ---------------------------------------------------------------------------------
  // The assignment
  // ---------------------------------------------------------------------------------

  ghost predicate UniqueIds(cases: seq<Case>) {
    forall i, j :: 0 <= i < j < |cases| ==> cases[i].id != cases[j].id
  }

  lemma {:induction false} IdsAre(cases: seq<Case>, n: nat, key: string)
    requires n <= |cases|
    ensures forall id :: id in Ids(cases, n, key) <==>
              exists i :: 0 <= i < n && cases[i].id == id && GroupKey(cases[i]) == key
  {
    if n > 0 {
      IdsAre(cases, n - 1, key);
    }
  }

  /** The id lists of the groups of `keys`. */
  function Lists(cases: seq<Case>, keys: seq<string>): seq<seq<string>> {
    seq(|keys|, i requires 0 <= i < |keys| => Ids(cases, |cases|, keys[i]))
  }

  /** `folds` gives every id of list `i` the fold `placed[i]`, and knows no other id. */
  ghost predicate Follows(folds: map<string, nat>, lists: seq<seq<string>>, placed: seq<nat>, n: nat)
    requires n <= |lists| && n <= |placed|
  {
    && (forall i, id :: 0 <= i < n && id in lists[i] ==> id in folds && folds[id] == placed[i])
    && (forall id :: id in folds ==> Listed(lists, n, id))
  }

  ghost predicate Listed(lists: seq<seq<string>>, n: nat, id: string)
    requires n <= |lists|
  {
    exists i :: 0 <= i < n && id in lists[i]
  }

  /** The folds of `assign_folds`, as a map from case ids. */
  ghost predicate FoldMap(folds: map<string, nat>, cases: seq<Case>, k: nat, hash: Hash)
    requires k >= 1
  {
    var keys := Ordered(cases, hash);
    Follows(folds, Lists(cases, keys), Folding(cases, k, hash).folds, |keys|)
  }

  lemma OneGroup(cases: seq<Case>, a: string, b: string, id: string)
    requires UniqueIds(cases) && id in Ids(cases, |cases|, a) && id in Ids(cases, |cases|, b)
    ensures a == b
  {
    IdsAre(cases, |cases|, a);
    IdsAre(cases, |cases|, b);
    var i :| 0 <= i < |cases| && cases[i].id == id && GroupKey(cases[i]) == a;
    var j :| 0 <= j < |cases| && cases[j].id == id && GroupKey(cases[j]) == b;
    assert i == j;
  }

  lemma GroupIndex(cases: seq<Case>, hash: Hash, c: Case) returns (i: nat)
    requires c in cases
    ensures i < |Ordered(cases, hash)| && Ordered(cases, hash)[i] == GroupKey(c)
  {
    OrderedAre(cases, hash);
    var keys := Ordered(cases, hash);
    assert GroupKey(c) in keys;
    i :| 0 <= i < |keys| && keys[i] == GroupKey(c);
  }

  lemma IdInGroup(cases: seq<Case>, c: Case)
    requires c in cases
    ensures c.id in Ids(cases, |cases|, GroupKey(c))
  {
    IdsAre(cases, |cases|, GroupKey(c));
    var j :| 0 <= j < |cases| && cases[j] == c;
  }

  lemma FollowsAt(folds: map<string, nat>, lists: seq<seq<string>>, placed: seq<nat>, n: nat, i: nat, id: string)
    requires n <= |lists| && n <= |placed| && Follows(folds, lists, placed, n)
    requires i < n && id in lists[i]
    ensures id in folds && folds[id] == placed[i]
  {
  }

  /** Every case is in exactly the fold its group was placed in. */
  lemma FoldOfCase(folds: map<string, nat>, cases: seq<Case>, k: nat, hash: Hash, c: Case) returns (i: nat)
    requires k >= 1 && c in cases && FoldMap(folds, cases, k, hash)
    ensures i < |Ordered(cases, hash)| && Ordered(cases, hash)[i] == GroupKey(c)
    ensures c.id in folds && folds[c.id] == Folding(cases, k, hash).folds[i] < k
  {
    i := GroupIndex(cases, hash, c);
    IdInGroup(cases, c);
    var keys := Ordered(cases, hash);
    FollowsAt(folds, Lists(cases, keys), Folding(cases, k, hash).folds, |keys|, i, c.id);
  }

  // ---------------------------------------------------------------------------------
  // What a group is
  // ---------------------------------------------------------------------------------

  /** Two cases are of one group: they name the same pull request, or neither names one and they are the same
      case, or one names as its pull request what the other would be keyed by. */
  ghost predicate SameGroup(c: Case, d: Case) {
    if c.prUrl != "" && d.prUrl != "" then c.prUrl == d.prUrl
    else if c.prUrl == "" && d.prUrl == "" then c.id == d.id
    else if c.prUrl == "" then d.prUrl == "id:" + c.id
    else c.prUrl == "id:" + d.id
  }

  lemma SameGroupIff(c: Case, d: Case)
    ensures GroupKey(c) == GroupKey(d) <==> SameGroup(c, d)
  {
    assert ("id:" + c.id)[3..] == c.id && ("id:" + d.id)[3..] == d.id;
  }

  ghost function GroupOf(cases: seq<Case>, c: Case): set<nat> {
    set i: nat | i < |cases| && SameGroup(cases[i], c)
  }

  /** The cases that are the first of their group: one for each group. */
  ghost function FirstOfGroups(cases: seq<Case>): set<nat> {
    set i: nat | i < |cases| && forall j :: 0 <= j < i ==> !SameGroup(cases[j], cases[i])
  }

  ghost function InFold(cases: seq<Case>, folds: map<string, nat>, fold: nat): set<nat> {
    set i: nat | i < |cases| && cases[i].id in folds && folds[cases[i].id] == fold
  }

  ghost function WithKey(cases: seq<Case>, n: nat, key: string): set<nat>
    requires n <= |cases|
  {
    set i: nat | i < n && GroupKey(cases[i]) == key
  }

  lemma {:induction false} IdsSize(cases: seq<Case>, n: nat, key: string)
    requires n <= |cases|
    ensures |Ids(cases, n, key)| == |WithKey(cases, n, key)|
  {
    if n == 0 {
      assert WithKey(cases, n, key) == {};
    } else {
      IdsSize(cases, n - 1, key);
      assert WithKey(cases, n, key)
        == WithKey(cases, n - 1, key) + if GroupKey(cases[n - 1]) == key then {n - 1} else {};
    }
  }

  lemma GroupSizeIs(cases: seq<Case>, c: Case)
    ensures |Ids(cases, |cases|, GroupKey(c))| == |GroupOf(cases, c)|
  {
    IdsSize(cases, |cases|, GroupKey(c));
    forall i: nat | i < |cases| ensures GroupKey(cases[i]) == GroupKey(c) <==> SameGroup(cases[i], c) {
      SameGroupIff(cases[i], c);
    }
    assert WithKey(cases, |cases|, GroupKey(c)) == GroupOf(cases, c);
  }

  ghost function FirstWithin(cases: seq<Case>, n: nat): set<nat>
    requires n <= |cases|
  {
    set i: nat | i < n && forall j :: 0 <= j < i ==> !SameGroup(cases[j], cases[i])
  }

  lemma KeyIsNew(cases: seq<Case>, n: nat)
    requires n < |cases|
    ensures GroupKey(cases[n]) in Keys(cases, n) <==> exists j :: 0 <= j < n && SameGroup(cases[j], cases[n])
  {
    KeysAre(cases, n);
    forall j | 0 <= j < n ensures GroupKey(cases[j]) == GroupKey(cases[n]) <==> SameGroup(cases[j], cases[n]) {
      SameGroupIff(cases[j], cases[n]);
    }
  }

  lemma {:induction false} KeysSize(cases: seq<Case>, n: nat)
    requires n <= |cases|
    ensures |Keys(cases, n)| == |FirstWithin(cases, n)|
  {
    if n == 0 {
      assert FirstWithin(cases, n) == {};
    } else {
      KeysSize(cases, n - 1);
      KeyIsNew(cases, n - 1);
      CountOneMore(FirstWithin(cases, n), FirstWithin(cases, n - 1), n - 1,
              GroupKey(cases[n - 1]) !in Keys(cases, n - 1));
    }
  }

  /** There are as many groups as first cases of a group. */
  lemma GroupsAreCounted(cases: seq<Case>)
    ensures |Keys(cases, |cases|)| == |FirstOfGroups(cases)|
  {
    KeysSize(cases, |cases|);
    assert FirstWithin(cases, |cases|) == FirstOfGroups(cases);
  }

  ghost function InFoldWithin(cases: seq<Case>, n: nat, folds: map<string, nat>, fold: nat): set<nat>
    requires n <= |cases|
  {
    set i: nat | i < n && cases[i].id in folds && folds[cases[i].id] == fold
  }

  lemma {:induction false} CountInIs(cases: seq<Case>, n: nat, folds: map<string, nat>, fold: nat)
    requires n <= |cases|
    ensures CountIn(cases, n, folds, fold) == |InFoldWithin(cases, n, folds, fold)|
  {
    if n == 0 {
      assert InFoldWithin(cases, n, folds, fold) == {};
    } else {
      CountInIs(cases, n - 1, folds, fold);
      assert InFoldWithin(cases, n, folds, fold) == InFoldWithin(cases, n - 1, folds, fold)
        + if cases[n - 1].id in folds && folds[cases[n - 1].id] == fold then {n - 1} else {};
    }
  }

  lemma FoldIsCounted(cases: seq<Case>, folds: map<string, nat>, fold: nat)
    ensures CountIn(cases, |cases|, folds, fold) == |InFold(cases, folds, fold)|
  {
    CountInIs(cases, |cases|, folds, fold);
    assert InFoldWithin(cases, |cases|, folds, fold) == InFold(cases, folds, fold);
  }

  /** Two cases of one group never straddle the line between folds. */
  lemma GroupsStayTogether(folds: map<string, nat>, cases: seq<Case>, k: nat, hash: Hash, c: Case, d: Case)
    requires k >= 1 && FoldMap(folds, cases, k, hash) && c in cases && d in cases && SameGroup(c, d)
    ensures c.id in folds && d.id in folds && folds[c.id] == folds[d.id]
  {
    SameGroupIff(c, d);
    var i := FoldOfCase(folds, cases, k, hash, c);
    var j := FoldOfCase(folds, cases, k, hash, d);
    OrderedAre(cases, hash);
    assert i == j;
  }

  // ---------------------------------------------------------------------------------
  // Fold sizes
  // ---------------------------------------------------------------------------------

  /** The first `n` cases that are in a fold. */
  function CountIn(cases: seq<Case>, n: nat, folds: map<string, nat>, fold: nat): nat
    requires n <= |cases|
  {
    if n == 0 then 0
    else if cases[n - 1].id in folds && folds[cases[n - 1].id] == fold then CountIn(cases, n - 1, folds, fold) + 1
    else CountIn(cases, n - 1, folds, fold)
  }

  function SizesUpTo(cases: seq<Case>, n: nat, keys: seq<string>): seq<nat>
    requires n <= |cases|
  {
    seq(|keys|, i requires 0 <= i < |keys| => |Ids(cases, n, keys[i])|)
  }

  lemma {:induction false} LoadBump(sizes: seq<nat>, more: seq<nat>, folds: seq<nat>, m: nat, i: nat, fold: nat)
    requires m <= |sizes| == |more| && m <= |folds| && i < |sizes|
    requires more == sizes[i := sizes[i] + 1]
    ensures LoadOf(more, folds, m, fold)
         == LoadOf(sizes, folds, m, fold) + (if i < m && folds[i] == fold then 1 else 0)
  {
    if m > 0 { LoadBump(sizes, more, folds, m - 1, i, fold); }
  }

  lemma {:induction false} LoadOfZeros(sizes: seq<nat>, folds: seq<nat>, m: nat, fold: nat)
    requires m <= |sizes| && m <= |folds| && forall i :: 0 <= i < m ==> sizes[i] == 0
    ensures LoadOf(sizes, folds, m, fold) == 0
  {
    if m > 0 { LoadOfZeros(sizes, folds, m - 1, fold); }
  }

  lemma SizesStep(cases: seq<Case>, n: nat, keys: seq<string>, i: nat)
    requires n < |cases| && i < |keys| && Distinct(keys) && keys[i] == GroupKey(cases[n])
    ensures var sizes := SizesUpTo(cases, n, keys);
            SizesUpTo(cases, n + 1, keys) == sizes[i := sizes[i] + 1]
  {
    forall j | 0 <= j < |keys| && j != i ensures keys[j] != keys[i] {}
  }

  lemma CountStep(folds: map<string, nat>, cases: seq<Case>, n: nat, keys: seq<string>, placed: seq<nat>, fold: nat,
                  i: nat)
    requires n < |cases| && Distinct(keys) && |placed| == |keys| && i < |keys| && keys[i] == GroupKey(cases[n])
    requires cases[n].id in folds && folds[cases[n].id] == placed[i]
    requires CountIn(cases, n, folds, fold) == LoadOf(SizesUpTo(cases, n, keys), placed, |keys|, fold)
    ensures CountIn(cases, n + 1, folds, fold) == LoadOf(SizesUpTo(cases, n + 1, keys), placed, |keys|, fold)
  {
    SizesStep(cases, n, keys, i);
    LoadBump(SizesUpTo(cases, n, keys), SizesUpTo(cases, n + 1, keys), placed, |keys|, i, fold);
  }

  /** Counting the cases of a fold one by one, or group by group, is the same. */
  lemma {:induction false} CountsAreLoads(folds: map<string, nat>, cases: seq<Case>, n: nat, k: nat, hash: Hash,
                                          fold: nat, keys: seq<string>, placed: seq<nat>)
    requires k >= 1 && n <= |cases| && FoldMap(folds, cases, k, hash)
    requires keys == Ordered(cases, hash) && placed == Folding(cases, k, hash).folds && Distinct(keys)
    ensures CountIn(cases, n, folds, fold) == LoadOf(SizesUpTo(cases, n, keys), placed, |keys|, fold)
  {
    if n == 0 {
      LoadOfZeros(SizesUpTo(cases, 0, keys), placed, |keys|, fold);
    } else {
      CountsAreLoads(folds, cases, n - 1, k, hash, fold, keys, placed);
      var i := FoldOfCase(folds, cases, k, hash, cases[n - 1]);
      CountStep(folds, cases, n - 1, keys, placed, fold, i);
    }
  }

  /** A fold holds as many cases as its load. */
  lemma FoldSize(folds: map<string, nat>, cases: seq<Case>, k: nat, hash: Hash, fold: nat)
    requires fold < k && FoldMap(folds, cases, k, hash)
    ensures CountIn(cases, |cases|, folds, fold) == Folding(cases, k, hash).loads[fold]
  {
    var keys := Ordered(cases, hash);
    OrderedAre(cases, hash);
    CountsAreLoads(folds, cases, |cases|, k, hash, fold, keys, Folding(cases, k, hash).folds);
    LoadsAddUp(Sizes(cases, keys), k, |keys|, fold);
    assert SizesUpTo(cases, |cases|, keys) == Sizes(cases, keys);
  }

  lemma GroupsAreInhabited(cases: seq<Case>, hash: Hash)
    ensures var keys := Ordered(cases, hash); forall i :: 0 <= i < |keys| ==> Sizes(cases, keys)[i] > 0
  {
    OrderedAre(cases, hash);
    var keys := Ordered(cases, hash);
    forall i | 0 <= i < |keys| ensures Sizes(cases, keys)[i] > 0 {
      assert keys[i] in keys;
      var c :| c in cases && GroupKey(c) == keys[i];
      var j :| 0 <= j < |cases| && cases[j] == c;
      IdsAre(cases, |cases|, keys[i]);
      assert c.id in Ids(cases, |cases|, keys[i]);
    }
  }

  /** No fold is empty, and the sizes of two folds differ by no more than the largest group. */
  lemma FoldsAreBalanced(folds: map<string, nat>, cases: seq<Case>, k: nat, hash: Hash, a: nat, b: nat, largest: nat)
    requires 1 <= k <= |FirstOfGroups(cases)| && FoldMap(folds, cases, k, hash) && a < k && b < k
    requires forall c :: c in cases ==> |GroupOf(cases, c)| <= largest
    ensures |InFold(cases, folds, a)| > 0
    ensures |InFold(cases, folds, a)| <= |InFold(cases, folds, b)| + largest
  {
    var keys := Ordered(cases, hash);
    OrderedAre(cases, hash);
    GroupsAreInhabited(cases, hash);
    GroupsAreCounted(cases);
    forall i | 0 <= i < |keys| ensures Sizes(cases, keys)[i] <= largest {
      assert keys[i] in keys;
      var c :| c in cases && GroupKey(c) == keys[i];
      GroupSizeIs(cases, c);
    }
    NoFoldIsEmpty(Sizes(cases, keys), k, |keys|);
    LoadsAreBalanced(Sizes(cases, keys), k, |keys|, largest, a, b);
    FoldSize(folds, cases, k, hash, a);
    FoldSize(folds, cases, k, hash, b);
    FoldIsCounted(cases, folds, a);
    FoldIsCounted(cases, folds, b);
  }

  /** What a case is hashed by. */
  ghost function KeyName(c: Case): string {
    if c.prUrl == "" then "id:" + c.id else c.prUrl
  }

  /** Case `c` comes before case `d`: its key has the earlier hash, or the same hash and is itself earlier. */
  ghost predicate HashedBefore(hash: Hash, c: Case, d: Case) {
    || EarlierText(hash(KeyName(c)), hash(KeyName(d)))
    || (hash(KeyName(c)) == hash(KeyName(d)) && EarlierText(KeyName(c), KeyName(d)))
  }

  ghost function CasesBefore(cases: seq<Case>, hash: Hash, c: Case): set<nat> {
    set i: nat | i < |cases| && HashedBefore(hash, cases[i], c)
  }

  lemma HashedBeforeIff(hash: Hash, c: Case, d: Case)
    ensures HashedBefore(hash, c, d) <==> StrictKeyOrder(hash)(GroupKey(c), GroupKey(d))
  {
    EarlierTextIff(hash(GroupKey(c)), hash(GroupKey(d)));
    EarlierTextIff(GroupKey(c), GroupKey(d));
    StringOrder();
  }

  /** When every group has one case, the cases are dealt to the folds in turn, in the order of their hashes. */
  lemma SingleCasesRoundRobin(folds: map<string, nat>, cases: seq<Case>, k: nat, hash: Hash, c: Case)
    requires k >= 1 && FoldMap(folds, cases, k, hash) && c in cases
    requires forall i, j :: 0 <= i < j < |cases| ==> !SameGroup(cases[i], cases[j])
    ensures c.id in folds && folds[c.id] == |CasesBefore(cases, hash, c)| % k
  {
    var keys := Ordered(cases, hash);
    var i := FoldOfCase(folds, cases, k, hash, c);
    OrderedAre(cases, hash);
    forall j | 0 <= j < |keys| ensures |Ids(cases, |cases|, keys[j])| == 1 {
      AloneInGroup(cases, hash, j);
    }
    SinglesDealt(cases, keys, k);
    PlaceInOrder(cases, hash, c, i);
  }

  lemma AloneInGroup(cases: seq<Case>, hash: Hash, j: nat)
    requires j < |Ordered(cases, hash)|
    requires forall i, j :: 0 <= i < j < |cases| ==> !SameGroup(cases[i], cases[j])
    ensures |Ids(cases, |cases|, Ordered(cases, hash)[j])| == 1
  {
    OrderedAre(cases, hash);
    assert Ordered(cases, hash)[j] in Ordered(cases, hash);
    var d :| d in cases && GroupKey(d) == Ordered(cases, hash)[j];
    var m :| 0 <= m < |cases| && cases[m] == d;
    GroupSizeIs(cases, d);
    forall i: nat | i < |cases| ensures SameGroup(cases[i], d) <==> i == m {
      SameGroupIff(cases[i], d);
      SameGroupIff(d, cases[i]);
    }
    assert GroupOf(cases, d) == {m};
  }

  lemma EarlierKeyHasCase(cases: seq<Case>, hash: Hash, c: Case, i: nat, j: nat) returns (m: nat)
    requires j < i < |Ordered(cases, hash)| && Ordered(cases, hash)[i] == GroupKey(c)
    ensures m in CasesBefore(cases, hash, c) && GroupKey(cases[m]) == Ordered(cases, hash)[j]
  {
    var keys := Ordered(cases, hash);
    OrderedAre(cases, hash);
    KeyOrders(hash);
    assert keys[j] in keys;
    var d :| d in cases && GroupKey(d) == keys[j];
    m :| m < |cases| && cases[m] == d;
    assert StrictKeyOrder(hash)(keys[j], keys[i]);
    HashedBeforeIff(hash, d, c);
  }

  /** The place of a key among the keys is the number of cases with earlier keys. */
  lemma PlaceInOrder(cases: seq<Case>, hash: Hash, c: Case, i: nat)
    requires i < |Ordered(cases, hash)| && Ordered(cases, hash)[i] == GroupKey(c)
    requires forall i, j :: 0 <= i < j < |cases| ==> !SameGroup(cases[i], cases[j])
    ensures |CasesBefore(cases, hash, c)| == i
  {
    var keys, before := Ordered(cases, hash), CasesBefore(cases, hash, c);
    OrderedAre(cases, hash);
    KeyOrders(hash);
    var earlier := UpTo(i);
    forall m | m in before ensures GroupKey(cases[m]) in keys[..i] {
      HashedBeforeIff(hash, cases[m], c);
      assert cases[m] in cases;
      EarlierKeyIsEarlier(cases, hash, GroupKey(cases[m]), i);
    }
    var table := seq(|cases|, m requires 0 <= m < |cases| => PlaceOf(keys, GroupKey(cases[m])));
    forall m | m in before ensures table[m] in earlier && keys[table[m]] == GroupKey(cases[m]) {
      assert GroupKey(cases[m]) in keys[..i];
      var j :| 0 <= j < i && keys[..i][j] == GroupKey(cases[m]);
      assert keys[j] == GroupKey(cases[m]);
    }
    forall m, l | m in before && l in before && m != l ensures table[m] != table[l] {
      SameGroupIff(cases[m], cases[l]);
      SameGroupIff(cases[l], cases[m]);
    }
    forall j | j in earlier ensures exists m :: m in before && table[m] == j {
      var m := EarlierKeyHasCase(cases, hash, c, i, j);
      assert m in before && table[m] == j;
    }
    ImageSize(before, earlier, table);
  }

  lemma EarlierKeyIsEarlier(cases: seq<Case>, hash: Hash, key: string, i: nat)
    requires i < |Ordered(cases, hash)| && StrictKeyOrder(hash)(key, Ordered(cases, hash)[i])
    requires exists c :: c in cases && GroupKey(c) == key
    ensures key in Ordered(cases, hash)[..i]
  {
    var keys := Ordered(cases, hash);
    OrderedAre(cases, hash);
    KeyOrders(hash);
    assert key in keys;
    var j :| 0 <= j < |keys| && keys[j] == key;
    LaterKeyIsLater(keys, hash, i, j);
    assert keys[..i][j] == key;
  }

  lemma LaterKeyIsLater(keys: seq<string>, hash: Hash, i: nat, j: nat)
    requires i < |keys| && j < |keys| && SortedBy(KeyOrder(hash), keys) && Distinct(keys)
    ensures StrictKeyOrder(hash)(keys[j], keys[i]) ==> j < i
  {
    KeyOrders(hash);
    if i < j {
      assert StrictKeyOrder(hash)(keys[i], keys[j]);
      assert !StrictKeyOrder(hash)(keys[j], keys[i]);
    }
  }

  /** Where a key stands, or 0. */
  ghost function PlaceOf(keys: seq<string>, key: string): (r: nat)
    ensures key in keys ==> r < |keys| && keys[r] == key
  {
    if key in keys then (var j: nat :| j < |keys| && keys[j] == key; j) else 0
  }

  lemma SinglesDealt(cases: seq<Case>, keys: seq<string>, k: nat)
    requires k >= 1 && forall i :: 0 <= i < |keys| ==> |Ids(cases, |cases|, keys[i])| == 1
    ensures forall i :: 0 <= i < |keys| ==> Place(Sizes(cases, keys), k, |keys|).folds[i] == i % k
  {
    SinglesGoRoundRobin(Sizes(cases, keys), k, |keys|);
  }

  // ---------------------------------------------------------------------------------
  // The input order does not matter
  // ---------------------------------------------------------------------------------

  lemma SameKeyOrder(a: seq<Case>, b: seq<Case>, hash: Hash)
    requires multiset(a) == multiset(b)
    ensures Ordered(a, hash) == Ordered(b, hash)
  {
    OrderedAre(a, hash);
    OrderedAre(b, hash);
    SameCases(a, b);
    KeyOrders(hash);
    var s, t := Ordered(a, hash), Ordered(b, hash);
    forall i, j | 0 <= i < j < |s| ensures StrictKeyOrder(hash)(s[i], s[j]) {
      assert KeyOrder(hash)(s[i], s[j]);
    }
    forall i, j | 0 <= i < j < |t| ensures StrictKeyOrder(hash)(t[i], t[j]) {
      assert KeyOrder(hash)(t[i], t[j]);
    }
    StrictlySortedUnique(StrictKeyOrder(hash), s, t);
  }

  lemma SameCases(a: seq<Case>, b: seq<Case>)
    requires multiset(a) == multiset(b)
    ensures forall c :: c in a <==> c in b
  {
    forall c ensures c in a <==> c in b {
      assert c in a <==> c in multiset(a);
      assert c in b <==> c in multiset(b);
    }
  }

  /** How many of the cases are in the group of `key`. */
  function GroupSize(cases: seq<Case>, key: string): nat {
    if cases == [] then 0 else (if GroupKey(cases[0]) == key then 1 else 0) + GroupSize(cases[1..], key)
  }

  lemma {:induction false} GroupSizeConcat(a: seq<Case>, b: seq<Case>, key: string)
    ensures GroupSize(a + b, key) == GroupSize(a, key) + GroupSize(b, key)
  {
    if a == [] {
      assert a + b == b;
    } else {
      assert (a + b)[1..] == a[1..] + b;
      GroupSizeConcat(a[1..], b, key);
    }
  }

  lemma {:induction false} IdsLength(cases: seq<Case>, n: nat, key: string)
    requires n <= |cases|
    ensures |Ids(cases, n, key)| == GroupSize(cases[..n], key)
  {
    if n > 0 {
      IdsLength(cases, n - 1, key);
      assert cases[..n] == cases[..n - 1] + [cases[n - 1]];
      GroupSizeConcat(cases[..n - 1], [cases[n - 1]], key);
    }
  }

  lemma {:induction false} GroupSizePermutes(a: seq<Case>, b: seq<Case>, key: string)
    requires multiset(a) == multiset(b)
    ensures GroupSize(a, key) == GroupSize(b, key)
  {
    if a == [] {
      assert |multiset(b)| == 0;
    } else {
      var j := PullOut(a, b);
      GroupSizePermutes(a[1..], b[..j] + b[j + 1..], key);
      GroupSizeConcat(b[..j], b[j + 1..], key);
      GroupSizeConcat(b[..j], [a[0]] + b[j + 1..], key);
      assert ([a[0]] + b[j + 1..])[1..] == b[j + 1..];
    }
  }

  /** The same cases get the same folds in any input order. */
  lemma InputOrderDoesNotMatter(f: map<string, nat>, g: map<string, nat>, a: seq<Case>, b: seq<Case>, k: nat,
                                hash: Hash)
    requires k >= 1 && multiset(a) == multiset(b) && FoldMap(f, a, k, hash) && FoldMap(g, b, k, hash)
    requires UniqueIds(a)
    ensures f == g
  {
    var keys := Ordered(a, hash);
    SameKeyOrder(a, b, hash);
    forall i | 0 <= i < |keys| ensures Sizes(a, keys)[i] == Sizes(b, keys)[i] {
      GroupSizePermutes(a, b, keys[i]);
      IdsLength(a, |a|, keys[i]);
      IdsLength(b, |b|, keys[i]);
      assert a[..|a|] == a && b[..|b|] == b;
    }
    assert Sizes(a, keys) == Sizes(b, keys);
    SameCases(a, b);
    SameFollowers(f, g, a, b, keys, Folding(a, k, hash).folds);
  }

  lemma SameIds(a: seq<Case>, b: seq<Case>, key: string, id: string)
    requires forall c :: c in a <==> c in b
    ensures id in Ids(a, |a|, key) ==> id in Ids(b, |b|, key)
  {
    IdsAre(a, |a|, key);
    IdsAre(b, |b|, key);
    if id in Ids(a, |a|, key) {
      var i :| 0 <= i < |a| && a[i].id == id && GroupKey(a[i]) == key;
      assert a[i] in b;
    }
  }

  lemma SameFollower(f: map<string, nat>, g: map<string, nat>, a: seq<Case>, b: seq<Case>, keys: seq<string>,
                     placed: seq<nat>, id: string)
    requires |keys| == |placed| && Follows(f, Lists(a, keys), placed, |keys|)
             && Follows(g, Lists(b, keys), placed, |keys|)
    requires (forall c :: c in a <==> c in b) && id in f
    ensures id in g && g[id] == f[id]
  {
    assert Listed(Lists(a, keys), |keys|, id);
    var i :| 0 <= i < |keys| && id in Lists(a, keys)[i];
    SameIds(a, b, keys[i], id);
    FollowsAt(f, Lists(a, keys), placed, |keys|, i, id);
    FollowsAt(g, Lists(b, keys), placed, |keys|, i, id);
  }

  lemma SameFollowers(f: map<string, nat>, g: map<string, nat>, a: seq<Case>, b: seq<Case>, keys: seq<string>,
                      placed: seq<nat>)
    requires |keys| == |placed| && Follows(f, Lists(a, keys), placed, |keys|)
             && Follows(g, Lists(b, keys), placed, |keys|)
    requires forall c :: c in a <==> c in b
    ensures f == g
  {
    forall id | id in f ensures id in g && g[id] == f[id] {
      SameFollower(f, g, a, b, keys, placed, id);
    }
    forall id | id in g ensures id in f && f[id] == g[id] {
      SameFollower(g, f, b, a, keys, placed, id);
    }
  }

  // ---------------------------------------------------------------------------------
  // Assigning
  // ---------------------------------------------------------------------------------

  ghost predicate GroupsOf(groups: map<string, seq<string>>, keys: seq<string>, cases: seq<Case>, n: nat)
    requires n <= |cases|
  {
    && keys == Keys(cases, n)
    && (forall key :: key in groups <==> key in keys)
    && (forall key :: key in groups ==> groups[key] == Ids(cases, n, key))
  }

  lemma {:induction false} NoIdsYet(cases: seq<Case>, n: nat, key: string)
    requires n <= |cases| && key !in Keys(cases, n)
    ensures Ids(cases, n, key) == []
  {
    if n > 0 { NoIdsYet(cases, n - 1, key); }
  }

  /** Append one case to its group, a new one if need be. */
  method AddCase(groups: map<string, seq<string>>, keys: seq<string>, cases: seq<Case>, n: nat)
    returns (now: map<string, seq<string>>, keysNow: seq<string>)
    requires n < |cases| && GroupsOf(groups, keys, cases, n)
    ensures GroupsOf(now, keysNow, cases, n + 1)
  {
    var id, key := cases[n].id, GroupKey(cases[n]);
    if key !in groups {
      NoIdsYet(cases, n, key);
      keysNow := keys + [key];
      now := groups[key := [id]];
    } else {
      keysNow := keys;
      now := groups[key := groups[key] + [id]];
    }
  }

  /** The ids of the first `n` cases, which are all different. */
  ghost predicate SeenIds(cases: seq<Case>, n: nat, seen: set<string>) {
    && n <= |cases|
    && (forall id :: id in seen <==> exists i :: 0 <= i < n && cases[i].id == id)
    && (forall i, j :: 0 <= i < j < n ==> cases[i].id != cases[j].id)
  }

  lemma SeenNext(cases: seq<Case>, n: nat, seen: set<string>)
    requires SeenIds(cases, n, seen) && n < |cases|
    ensures cases[n].id in seen ==> !UniqueIds(cases)
    ensures cases[n].id !in seen ==> SeenIds(cases, n + 1, seen + {cases[n].id})
  {
    if cases[n].id !in seen {
      var now := seen + {cases[n].id};
      forall id ensures id in now <==> exists i :: 0 <= i < n + 1 && cases[i].id == id {
        if id in seen {
          var i :| 0 <= i < n && cases[i].id == id;
        }
      }
    }
  }

  /** Gather the ids of each group; a repeated id is refused. */
  method Group(cases: seq<Case>) returns (r: Result<map<string, seq<string>>, FoldError>, keys: seq<string>)
    ensures r.Ok? <==> UniqueIds(cases)
    ensures r.Ok? ==> GroupsOf(r.value, keys, cases, |cases|)
    ensures r.Err? ==> r.error.DuplicateId?
  {
    var groups: map<string, seq<string>> := map[];
    keys := [];
    var seen: set<string> := {};
    for n := 0 to |cases|
      invariant GroupsOf(groups, keys, cases, n) && SeenIds(cases, n, seen)
    {
      SeenNext(cases, n, seen);
      var id := cases[n].id;
      if id in seen {
        return Err(DuplicateId(id)), keys;
      }
      seen := seen + {id};
      groups, keys := AddCase(groups, keys, cases, n);
    }
    r := Ok(groups);
  }

  ghost predicate Apart(lists: seq<seq<string>>) {
    forall i, j, id :: 0 <= i < j < |lists| && id in lists[i] ==> id !in lists[j]
  }

  lemma GroupsAreApart(cases: seq<Case>, keys: seq<string>)
    requires UniqueIds(cases) && Distinct(keys)
    ensures Apart(Lists(cases, keys))
  {
    var lists := Lists(cases, keys);
    forall i, j, id | 0 <= i < j < |lists| && id in lists[i] ensures id !in lists[j] {
      if id in lists[j] { OneGroup(cases, keys[i], keys[j], id); }
    }
  }

  lemma FollowsMore(was: map<string, nat>, now: map<string, nat>, lists: seq<seq<string>>, placed: seq<nat>, n: nat)
    requires n < |lists| && n < |placed| && Apart(lists) && Follows(was, lists, placed, n)
    requires Put(now, was, lists[n], placed[n])
    ensures Follows(now, lists, placed, n + 1)
  {
    forall id | id in now ensures Listed(lists, n + 1, id) {
      if id in was {
        assert Listed(lists, n, id);
      }
    }
  }

  ghost predicate Put(now: map<string, nat>, was: map<string, nat>, ids: seq<string>, fold: nat) {
    && (forall id :: id in now <==> id in was || id in ids)
    && (forall id :: id in now ==> now[id] == if id in ids then fold else was[id])
  }

  /** Put every id of a group in `fold`. */
  method PutGroup(was: map<string, nat>, ids: seq<string>, fold: nat) returns (now: map<string, nat>)
    ensures Put(now, was, ids, fold)
  {
    now := was;
    for i := 0 to |ids|
      invariant Put(now, was, ids[..i], fold)
    {
      now := now[ids[i] := fold];
      assert ids[..i + 1] == ids[..i] + [ids[i]];
    }
    assert ids[..|ids|] == ids;
  }

  lemma {:induction false} PlaceStep(sizes: seq<nat>, k: nat, n: nat, m: nat)
    requires k >= 1 && n <= m <= |sizes|
    ensures Place(sizes, k, m).folds[..n] == Place(sizes, k, n).folds
  {
    if n < m { PlaceStep(sizes, k, n, m - 1); }
  }

  lemma PlaceOne(lists: seq<seq<string>>, sizes: seq<nat>, k: nat, n: nat, loads: seq<nat>)
    requires k >= 1 && n < |sizes| && loads == Place(sizes, k, n).loads && sizes == SizesOf(lists)
    ensures var fold := LeastIndex(loads);
            && Place(sizes, k, n + 1).folds[n] == fold
            && Place(sizes, k, n + 1).loads == loads[fold := loads[fold] + |lists[n]|]
  {
    assert sizes[n] == |lists[n]|;
  }

  lemma NextFold(lists: seq<seq<string>>, sizes: seq<nat>, k: nat, n: nat, loads: seq<nat>)
    requires k >= 1 && n < |sizes| && loads == Place(sizes, k, n).loads && sizes == SizesOf(lists)
    ensures var fold := LeastIndex(loads);
            && Place(sizes, k, |sizes|).folds[n] == fold
            && Place(sizes, k, n + 1).loads == loads[fold := loads[fold] + |lists[n]|]
  {
    PlaceOne(lists, sizes, k, n, loads);
    PlaceStep(sizes, k, n + 1, |sizes|);
    assert Place(sizes, k, |sizes|).folds[..n + 1][n] == Place(sizes, k, n + 1).folds[n];
  }

  /** Place the groups in key order, each in the lowest fold of least load. */
  method PlaceGroups(cases: seq<Case>, groups: map<string, seq<string>>, k: nat, hash: Hash)
    returns (folds: map<string, nat>)
    requires UniqueIds(cases) && k >= 1
    requires GroupsOf(groups, Keys(cases, |cases|), cases, |cases|)
    ensures FoldMap(folds, cases, k, hash)
  {
    var keys := Ordered(cases, hash);
    OrderedAre(cases, hash);
    SortMembers(KeyOrder(hash), Keys(cases, |cases|));
    GroupsAreApart(cases, keys);
    folds := PlaceLists(keys, groups, Lists(cases, keys), k);
    assert SizesOf(Lists(cases, keys)) == Sizes(cases, keys);
  }

  ghost function SizesOf(lists: seq<seq<string>>): seq<nat> {
    seq(|lists|, i requires 0 <= i < |lists| => |lists[i]|)
  }

  method PlaceLists(keys: seq<string>, groups: map<string, seq<string>>, ghost lists: seq<seq<string>>, k: nat)
    returns (folds: map<string, nat>)
    requires k >= 1 && Apart(lists) && |lists| == |keys|
    requires forall i :: 0 <= i < |keys| ==> keys[i] in groups && groups[keys[i]] == lists[i]
    ensures Follows(folds, lists, Place(SizesOf(lists), k, |lists|).folds, |lists|)
  {
    var loads: seq<nat> := seq(k, _ => 0);
    ghost var sizes := SizesOf(lists);
    ghost var placed := Place(sizes, k, |lists|).folds;
    folds := map[];
    for n := 0 to |keys|
      invariant loads == Place(sizes, k, n).loads
      invariant Follows(folds, lists, placed, n)
    {
      NextFold(lists, sizes, k, n, loads);
      folds, loads := PlaceList(folds, loads, groups[keys[n]], lists, placed, n);
    }
  }

  /** Put one group in the lowest fold of least load. */
  method PlaceList(was: map<string, nat>, loads: seq<nat>, ids: seq<string>, ghost lists: seq<seq<string>>,
                   ghost placed: seq<nat>, ghost n: nat)
    returns (folds: map<string, nat>, after: seq<nat>)
    requires loads != [] && n < |lists| && n < |placed| && Apart(lists) && Follows(was, lists, placed, n)
    requires ids == lists[n] && placed[n] == LeastIndex(loads)
    ensures Follows(folds, lists, placed, n + 1)
    ensures after == loads[LeastIndex(loads) := loads[LeastIndex(loads)] + |ids|]
  {
    var fold := LeastIndex(loads);
    after := loads[fold := loads[fold] + |ids|];
    folds := PutGroup(was, ids, fold);
    FollowsMore(was, folds, lists, placed, n);
  }

  /** Assign every case a fold below `k`, or refuse a repeated id or a bad number of folds. */
  method AssignFolds(cases: seq<Case>, k: int, hash: Hash) returns (r: Result<map<string, nat>, FoldError>)
    ensures r.Err? && r.error.DuplicateId? <==> !UniqueIds(cases)
    ensures UniqueIds(cases) ==>
              if k < 2 || k > |FirstOfGroups(cases)| then r == Err(BadFoldCount(|FirstOfGroups(cases)|))
              else r.Ok? && FoldMap(r.value, cases, k, hash)
  {
    GroupsAreCounted(cases);
    var grouped, keys := Group(cases);
    if grouped.Err? {
      return Err(grouped.error);
    }
    if k < 2 || k > |keys| {
      return Err(BadFoldCount(|keys|));
    }
    var folds := PlaceGroups(cases, grouped.value, k, hash);
    r := Ok(folds);
  }

  // ---------------------------------------------------------------------------------
  // The cases rules may be mined from
  // ---------------------------------------------------------------------------------

  function MissingOf(cases: seq<Case>, folds: map<string, nat>): (r: seq<string>)
    ensures r == [] <==> forall c :: c in cases ==> c.id in folds
  {
    if cases == [] then []
    else
      assert cases == [cases[0]] + cases[1..];
      if cases[0].id in folds then MissingOf(cases[1..], folds) else [cases[0].id] + MissingOf(cases[1..], folds)
  }

  function Outside(cases: seq<Case>, folds: map<string, nat>, fold: int): (r: seq<Case>)
    requires forall c :: c in cases ==> c.id in folds
    ensures forall c :: c in r <==> c in cases && folds[c.id] != fold
  {
    if cases == [] then []
    else
      assert cases == [cases[0]] + cases[1..];
      if folds[cases[0].id] != fold then [cases[0]] + Outside(cases[1..], folds, fold)
      else Outside(cases[1..], folds, fold)
  }

  function TrainingCases(cases: seq<Case>, folds: map<string, nat>, fold: int): Result<seq<Case>, FoldError> {
    if MissingOf(cases, folds) != [] then Err(MissingIds(MissingOf(cases, folds))) else Ok(Outside(cases, folds, fold))
  }

  ghost function NotIn(folds: map<string, nat>, fold: int): Case -> bool {
    (c: Case) => c.id in folds && folds[c.id] != fold
  }

  lemma {:induction false} OutsideIs(cases: seq<Case>, folds: map<string, nat>, fold: int)
    requires forall c :: c in cases ==> c.id in folds
    ensures Outside(cases, folds, fold) == Filter(NotIn(folds, fold), cases)
  {
    if cases != [] {
      assert cases[0] in cases && forall c :: c in cases[1..] ==> c in cases;
      OutsideIs(cases[1..], folds, fold);
    }
  }

  /** The cases a fold's rules are mined from share no pull request with the cases of that fold, and are
      all the cases of the other folds. */
  lemma TrainingSharesNoGroup(folds: map<string, nat>, cases: seq<Case>, k: nat, hash: Hash, fold: nat)
    requires k >= 1 && FoldMap(folds, cases, k, hash)
    ensures TrainingCases(cases, folds, fold).Ok?
    ensures var training := TrainingCases(cases, folds, fold).value;
            && training == Filter(NotIn(folds, fold), cases)
            && (forall c :: c in cases ==> c.id in folds && (c in training <==> folds[c.id] != fold))
            && (forall c, d :: c in training && d in cases && folds[d.id] == fold ==> !SameGroup(c, d))
  {
    forall c | c in cases ensures c.id in folds {
      var i := FoldOfCase(folds, cases, k, hash, c);
    }
    var training := TrainingCases(cases, folds, fold).value;
    OutsideIs(cases, folds, fold);
    forall c, d | c in training && d in cases && folds[d.id] == fold ensures !SameGroup(c, d) {
      if SameGroup(c, d) {
        GroupsStayTogether(folds, cases, k, hash, c, d);
      }
    }
  }
}
