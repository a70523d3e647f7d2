/** Python's `sorted`: a stable insertion sort under a total preorder, what characterises its
    result, and the lexicographic order of strings by code point. */
module Sorting {

  ghost predicate TotalPreorder<T(!new)>(le: (T, T) -> bool) {
    && (forall x, y :: le(x, y) || le(y, x))
    && (forall x, y, z :: le(x, y) && le(y, z) ==> le(x, z))
  }

  ghost predicate SortedBy<T(!new)>(le: (T, T) -> bool, s: seq<T>) {
    forall i, j :: 0 <= i < j < |s| ==> le(s[i], s[j])
  }

  /** Insert `x` after every element that is not above it. */
  function Insert<T>(le: (T, T) -> bool, s: seq<T>, x: T): (r: seq<T>)
    ensures |r| == |s| + 1
  {
    if s == [] then [x]
    else if le(s[0], x) then [s[0]] + Insert(le, s[1..], x)
    else [x] + s
  }

  function Sort<T>(le: (T, T) -> bool, s: seq<T>): (r: seq<T>)
    ensures |r| == |s|
  {
    if s == [] then [] else Insert(le, Sort(le, s[..|s| - 1]), s[|s| - 1])
  }

  lemma {:induction false} InsertMultiset<T>(le: (T, T) -> bool, s: seq<T>, x: T)
    ensures multiset(Insert(le, s, x)) == multiset(s) + multiset{x}
  {
    if s != [] {
      assert s == [s[0]] + s[1..];
      if le(s[0], x) { InsertMultiset(le, s[1..], x); }
    }
  }

  lemma {:induction false} SortMultiset<T>(le: (T, T) -> bool, s: seq<T>)
    ensures multiset(Sort(le, s)) == multiset(s)
  {
    if s != [] {
      SortMultiset(le, s[..|s| - 1]);
      InsertMultiset(le, Sort(le, s[..|s| - 1]), s[|s| - 1]);
      assert s == s[..|s| - 1] + [s[|s| - 1]];
    }
  }

  lemma SortMembers<T>(le: (T, T) -> bool, s: seq<T>)
    ensures forall x :: x in Sort(le, s) <==> x in s
  {
    SortMultiset(le, s);
    forall x ensures x in Sort(le, s) <==> x in s {
      assert x in Sort(le, s) <==> x in multiset(Sort(le, s));
    }
  }

  lemma {:induction false} InsertSorted<T(!new)>(le: (T, T) -> bool, s: seq<T>, x: T)
    requires TotalPreorder(le) && SortedBy(le, s)
    ensures SortedBy(le, Insert(le, s, x))
  {
    if s != [] && le(s[0], x) {
      InsertSorted(le, s[1..], x);
      var rest := Insert(le, s[1..], x);
      forall y | y in rest ensures le(s[0], y) {
        InsertMultiset(le, s[1..], x);
        assert y in multiset(rest);
        assert y == x || y in s[1..];
      }
    } else if s != [] {
      forall j | 0 <= j < |s| ensures le(x, s[j]) {
        assert le(x, s[0]);
      }
    }
  }

  lemma {:induction false} SortSorted<T(!new)>(le: (T, T) -> bool, s: seq<T>)
    requires TotalPreorder(le)
    ensures SortedBy(le, Sort(le, s))
  {
    if s != [] {
      SortSorted(le, s[..|s| - 1]);
      InsertSorted(le, Sort(le, s[..|s| - 1]), s[|s| - 1]);
    }
  }

  function Filter<T>(p: T -> bool, s: seq<T>): seq<T> {
    if s == [] then [] else if p(s[0]) then [s[0]] + Filter(p, s[1..]) else Filter(p, s[1..])
  }

  lemma {:induction false} FilterConcat<T>(p: T -> bool, a: seq<T>, b: seq<T>)
    ensures Filter(p, a + b) == Filter(p, a) + Filter(p, b)
  {
    if a == [] {
      assert a + b == b;
    } else {
      assert (a + b)[1..] == a[1..] + b;
      FilterConcat(p, a[1..], b);
    }
  }

  lemma {:induction false} FilterNone<T(!new)>(p: T -> bool, s: seq<T>)
    requires forall i :: 0 <= i < |s| ==> !p(s[i])
    ensures Filter(p, s) == []
  {
    if s != [] { FilterNone(p, s[1..]); }
  }

  lemma AboveIsOther<T(!new)>(le: (T, T) -> bool, low: T, y: T, x: T, p: T -> bool)
    requires TotalPreorder(le) && p(x) && le(low, y) && !le(low, x) && forall y, z :: p(y) && p(z) ==> le(y, z)
    ensures !p(y)
  {
  }

  lemma {:induction false} InsertStable<T(!new)>(le: (T, T) -> bool, s: seq<T>, x: T, p: T -> bool)
    requires TotalPreorder(le) && SortedBy(le, s) && forall y, z :: p(y) && p(z) ==> le(y, z)
    ensures Filter(p, Insert(le, s, x)) == if p(x) then Filter(p, s) + [x] else Filter(p, s)
  {
    if s != [] {
      if le(s[0], x) {
        InsertStable(le, s[1..], x, p);
      } else if p(x) {
        assert le(s[0], s[0]);
        forall i | 0 <= i < |s| ensures !p(s[i]) {
          AboveIsOther(le, s[0], s[i], x, p);
        }
        FilterNone(p, s);
      }
    }
  }

  /** Elements that count as equal keep their order. */
  lemma {:induction false} SortIsStable<T(!new)>(le: (T, T) -> bool, s: seq<T>, p: T -> bool)
    requires TotalPreorder(le) && forall y, z :: p(y) && p(z) ==> le(y, z)
    ensures Filter(p, Sort(le, s)) == Filter(p, s)
  {
    if s != [] {
      var n := |s| - 1;
      SortIsStable(le, s[..n], p);
      SortSorted(le, s[..n]);
      InsertStable(le, Sort(le, s[..n]), s[n], p);
      assert s == s[..n] + [s[n]];
      FilterConcat(p, s[..n], [s[n]]);
    }
  }

  /** Where the first element of a permuted sequence went, and that the rest is permuted too. */
  lemma PullOut<T>(a: seq<T>, b: seq<T>) returns (j: nat)
    requires a != [] && multiset(a) == multiset(b)
    ensures j < |b| && b == b[..j] + ([a[0]] + b[j + 1..])
    ensures multiset(a[1..]) == multiset(b[..j] + b[j + 1..])
  {
    var x := a[0];
    assert x in multiset(b);
    j :| 0 <= j < |b| && b[j] == x;
    var rest := b[..j] + b[j + 1..];
    assert a == [x] + a[1..] && b == b[..j] + ([x] + b[j + 1..]);
    assert multiset(b) == multiset(rest) + multiset{x};
    MultisetCancel(multiset(a[1..]), multiset(rest), x);
  }

  lemma MultisetCancel<T>(a: multiset<T>, b: multiset<T>, x: T)
    requires a + multiset{x} == b + multiset{x}
    ensures a == b
  {
    assert a == a + multiset{x} - multiset{x};
    assert b == b + multiset{x} - multiset{x};
  }

  ghost predicate Distinct<T(!new)>(s: seq<T>) {
    forall i, j :: 0 <= i < j < |s| ==> s[i] != s[j]
  }

  lemma SameMultisetDistinct<T(!new)>(s: seq<T>, t: seq<T>)
    requires multiset(s) == multiset(t) && Distinct(s)
    ensures Distinct(t)
  {
    forall i, j | 0 <= i < j < |t| ensures t[i] != t[j] {
      if t[i] == t[j] {
        TwiceInMultiset(t, i, j);
        DistinctOnce(s, t[i]);
      }
    }
  }

  lemma TwiceInMultiset<T(!new)>(s: seq<T>, i: nat, j: nat)
    requires i < j < |s| && s[i] == s[j]
    ensures multiset(s)[s[i]] >= 2
  {
    assert s == s[..j] + [s[j]] + s[j + 1..];
    assert s[i] == s[..j][i];
    assert s[i] in multiset(s[..j]);
  }

  lemma {:induction false} DistinctOnce<T(!new)>(s: seq<T>, x: T)
    requires Distinct(s)
    ensures multiset(s)[x] <= 1
  {
    if s != [] {
      assert s == [s[0]] + s[1..];
      DistinctOnce(s[1..], x);
      assert s[0] !in s[1..];
    }
  }

  ghost predicate StrictOrder<T(!new)>(lt: (T, T) -> bool) {
    && (forall x :: !lt(x, x))
    && (forall x, y, z :: lt(x, y) && lt(y, z) ==> lt(x, z))
  }

  lemma HeadOnlyFirst<T(!new)>(lt: (T, T) -> bool, s: seq<T>)
    requires StrictOrder(lt) && SortedBy(lt, s) && s != []
    ensures forall x :: x in s[1..] <==> x in s && x != s[0]
  {
    assert s == [s[0]] + s[1..];
    forall j | 0 <= j < |s| - 1 ensures s[1..][j] != s[0] {
      assert lt(s[0], s[j + 1]);
    }
  }

  lemma HeadIsLeast<T(!new)>(lt: (T, T) -> bool, s: seq<T>)
    requires SortedBy(lt, s) && s != []
    ensures forall x :: x in s ==> x == s[0] || lt(s[0], x)
  {
  }

  lemma SameMembersEmpty<T>(s: seq<T>, t: seq<T>)
    requires forall x :: x in s <==> x in t
    ensures s == [] <==> t == []
  {
    var members := set x | x in s;
    assert members == set x | x in t;
    assert s == [] <==> members == {} by {
      if s != [] { assert s[0] in members; }
    }
    if t != [] { assert t[0] in members; }
  }

  /** At most one arrangement of a set of elements is strictly increasing. */
  lemma {:induction false} StrictlySortedUnique<T(!new)>(lt: (T, T) -> bool, s: seq<T>, t: seq<T>)
    requires StrictOrder(lt) && SortedBy(lt, s) && SortedBy(lt, t)
    requires forall x :: x in s <==> x in t
    ensures s == t
  {
    SameMembersEmpty(s, t);
    if s != [] {
      HeadIsLeast(lt, s);
      HeadIsLeast(lt, t);
      assert t[0] in s && s[0] in t;
      HeadOnlyFirst(lt, s);
      HeadOnlyFirst(lt, t);
      forall x ensures x in s[1..] <==> x in t[1..] {
        assert x in s <==> x in t;
      }
      StrictlySortedUnique(lt, s[1..], t[1..]);
    }
  }

  // ---------------------------------------------------------------------------------

  predicate StringLe(a: string, b: string) {
    if a == "" then true
    else if b == "" then false
    else if a[0] != b[0] then a[0] < b[0]
    else StringLe(a[1..], b[1..])
  }

  lemma {:induction false} StringLeTotal(a: string, b: string)
    ensures StringLe(a, b) || StringLe(b, a)
  {
    if a != "" && b != "" && a[0] == b[0] { StringLeTotal(a[1..], b[1..]); }
  }

  lemma {:induction false} StringLeAntisymmetric(a: string, b: string)
    requires StringLe(a, b) && StringLe(b, a)
    ensures a == b
  {
    if a != "" && b != "" {
      assert a[0] == b[0];
      StringLeAntisymmetric(a[1..], b[1..]);
      assert a == [a[0]] + a[1..] && b == [b[0]] + b[1..];
    }
  }

  lemma {:induction false} StringLeTransitive(a: string, b: string, c: string)
    requires StringLe(a, b) && StringLe(b, c)
    ensures StringLe(a, c)
  {
    if a != "" && a[0] == b[0] == c[0] { StringLeTransitive(a[1..], b[1..], c[1..]); }
  }

  /** `a` sorts before `b`: it is a proper beginning of it, or its first other character is lower. */
  ghost predicate EarlierText(a: string, b: string) {
    exists k: nat :: EarlierFrom(a, b, k)
  }

  ghost predicate EarlierFrom(a: string, b: string, k: nat) {
    k <= |a| && k < |b| && a[..k] == b[..k] && (k == |a| || a[k] < b[k])
  }

  lemma {:induction false} EarlierTextIff(a: string, b: string)
    ensures EarlierText(a, b) <==> StringLe(a, b) && a != b
  {
    if a != "" && b != "" && a[0] == b[0] {
      EarlierTextIff(a[1..], b[1..]);
      assert a == [a[0]] + a[1..] && b == [b[0]] + b[1..];
      if k: nat :| EarlierFrom(a, b, k) {
        EarlierShift(a, b, k - 1);
      }
      if k: nat :| EarlierFrom(a[1..], b[1..], k) {
        EarlierShift(a, b, k);
      }
    } else {
      assert b != "" ==> (EarlierFrom(a, b, 0) <==> StringLe(a, b) && a != b);
    }
  }

  lemma EarlierShift(a: string, b: string, k: nat)
    requires a != "" && b != "" && a[0] == b[0]
    ensures EarlierFrom(a, b, k + 1) <==> EarlierFrom(a[1..], b[1..], k)
  {
    if k + 1 <= |a| && k + 1 <= |b| {
      assert a[..k + 1] == [a[0]] + a[1..][..k] && b[..k + 1] == [b[0]] + b[1..][..k];
      assert a[..k + 1] == b[..k + 1] ==> a[1..][..k] == b[1..][..k] by {
        assert a[..k + 1][1..] == a[1..][..k] && b[..k + 1][1..] == b[1..][..k];
      }
    }
  }

  lemma StringOrder()
    ensures forall a, b :: StringLe(a, b) || StringLe(b, a)
    ensures forall a, b :: StringLe(a, b) && StringLe(b, a) ==> a == b
    ensures forall a, b, c :: StringLe(a, b) && StringLe(b, c) ==> StringLe(a, c)
  {
    forall a, b ensures StringLe(a, b) || StringLe(b, a) { StringLeTotal(a, b); }
    forall a, b | StringLe(a, b) && StringLe(b, a) ensures a == b { StringLeAntisymmetric(a, b); }
    forall a, b, c | StringLe(a, b) && StringLe(b, c) ensures StringLe(a, c) { StringLeTransitive(a, b, c); }
  }
}
