/** Values that may be absent, computations that may be refused, and small facts of sequences, sets and
    division. */
module Prelude {
  datatype Option<+T> = None | Some(value: T)

  datatype Result<+T, +E> = Ok(value: T) | Err(error: E)

  lemma ConcatAssociates<T>(a: seq<T>, b: seq<T>, c: seq<T>)
    ensures (a + b) + c == a + (b + c)
  {
  }

  /** The numbers below `n`. */
  ghost function UpTo(n: nat): (r: set<nat>)
    ensures |r| == n && forall k: nat :: k in r <==> k < n
  {
    if n == 0 then {} else UpTo(n - 1) + {n - 1}
  }

  lemma SubsetSize<T>(a: set<T>, b: set<T>)
    requires a <= b
    ensures |a| <= |b|
  {
    assert b == a + (b - a);
  }

  /** A one-to-one map into a set: there are no more keys than values. */
  lemma {:induction false} InjectiveInto<K, T>(keys: set<K>, a: map<K, T>, values: set<T>)
    requires forall i :: i in keys ==> i in a && a[i] in values
    requires forall i, j :: i in keys && j in keys && i != j ==> a[i] != a[j]
    ensures |keys| <= |values|
    decreases |keys|
  {
    if keys != {} {
      var i :| i in keys;
      InjectiveInto(keys - {i}, a, values - {a[i]});
    }
  }

  /** A table that takes one set onto another, one to one. */
  lemma ImageSize(a: set<nat>, b: set<nat>, table: seq<nat>)
    requires forall j :: j in a ==> j < |table| && table[j] in b
    requires forall j, k :: j in a && k in a && j != k ==> table[j] != table[k]
    requires forall i :: i in b ==> exists j :: j in a && table[j] == i
    ensures |a| == |b|
  {
    InjectiveInto(a, map j | j in a :: table[j], b);
    var back := map i | i in b :: (var j :| j in a && table[j] == i; j);
    InjectiveInto(b, back, a);
  }

  /** The places of a sequence that pass a test. */
  ghost function Passing<T>(p: T -> bool, s: seq<T>): set<nat> {
    set j: nat | j < |s| && p(s[j])
  }

  lemma PassingTail<T>(p: T -> bool, s: seq<T>, tail: seq<T>, i: nat)
    requires |s| == |tail| + 1 && forall j :: 0 <= j < |tail| ==> tail[j] == s[j + 1]
    ensures i in Passing(p, s) && i > 0 <==> i > 0 && i - 1 in Passing(p, tail)
  {
  }

  lemma Shifted(a: set<nat>, b: set<nat>, n: nat)
    requires forall i :: i in a <==> i > 0 && i - 1 in b
    requires forall j :: j in b ==> j < n
    ensures |a| == |b|
  {
    var table: seq<nat> := seq(n, j => j + 1);
    forall i | i in a ensures exists j :: j in b && table[j] == i {
      assert table[i - 1] == i;
    }
    ImageSize(b, a, table);
  }

  lemma PassingHead<T>(p: T -> bool, s: seq<T>)
    requires s != []
    ensures |Passing(p, s)| == |Passing(p, s[1..])| + if p(s[0]) then 1 else 0
  {
    var here, rest := Passing(p, s), Passing(p, s[1..]);
    forall i: nat ensures i in here - {0} <==> i > 0 && i - 1 in rest {
      PassingTail(p, s, s[1..], i);
    }
    Shifted(here - {0}, rest, |s|);
    CountOneMore(here, here - {0}, 0, p(s[0]));
  }

  /** A set that has one more element when `more` holds. */
  lemma CountOneMore<T>(now: set<T>, was: set<T>, x: T, more: bool)
    requires x !in was && forall y :: y in now <==> y in was || (more && y == x)
    ensures |now| == |was| + if more then 1 else 0
  {
    assert now == if more then was + {x} else was;
  }

  lemma SmallMultiple(d: int, k: int)
    requires k >= 1 && -k < d * k < k
    ensures d == 0
  {
    assert d >= 1 ==> d * k >= k;
    assert d <= -1 ==> d * k <= -k;
  }

  lemma QuotientIs(n: nat, k: nat, q: nat, r: nat)
    requires k >= 1 && n == q * k + r && r < k
    ensures n / k == q && n % k == r
  {
    var d := n / k - q;
    assert d * k == n / k * k - q * k;
    SmallMultiple(d, k);
  }
}
