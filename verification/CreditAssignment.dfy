/** Credit assignment of the deterministic grading tier: the capacitated augmenting-path
    matching of `_assign`, as a recursive specification, an imperative implementation
    proved equal to it, and the proof that the assignment it finds is a maximum one.

    Humans and units are indices.  `prefs[h]` ranks the units human `h` may be credited at;
    `slots[u]` lists the humans unit `u` credits, oldest first. */
module CreditAssignment {
  import opened Prelude
  import opened Sorting

  const MAX_CREDITS_PER_FINDING: nat := 2

  type Slots = seq<seq<nat>>
  type Prefs = seq<seq<nat>>

  /** What one augmenting search leaves behind. */
  datatype Attempt = Attempt(ok: bool, slots: Slots, seen: set<nat>)

  ghost predicate Fits(prefs: Prefs, slots: Slots) {
    && (forall h :: 0 <= h < |prefs| ==> Below(prefs[h], |slots|))
    && (forall u :: 0 <= u < |slots| ==> Below(slots[u], |prefs|))
  }

  ghost predicate Below(s: seq<nat>, n: nat) {
    forall i :: 0 <= i < |s| ==> s[i] < n
  }

  lemma BelowSubset(s: seq<nat>, t: seq<nat>, n: nat)
    requires Below(s, n) && forall y :: y in t ==> y in s
    ensures Below(t, n)
  {
    forall i | 0 <= i < |t| ensures t[i] < n {
      assert t[i] in s;
    }
  }

  ghost function Unseen(n: nat, seen: set<nat>): set<nat> {
    UpTo(n) - seen
  }

  function RemoveFirst(s: seq<nat>, x: nat): (r: seq<nat>)
    requires x in s
    ensures multiset(r) == multiset(s) - multiset{x}
    ensures |r| == |s| - 1
    ensures forall y :: y in r ==> y in s
  {
    assert s == [s[0]] + s[1..];
    if s[0] == x then s[1..] else [s[0]] + RemoveFirst(s[1..], x)
  }

  // ---------------------------------------------------------------------------------
  // The search, as specification functions
  // ---------------------------------------------------------------------------------

  /** `human` looks for a unit along its ranked preferences, re-routing holders when full. */
  function Augment(prefs: Prefs, slots: Slots, seen: set<nat>, human: nat): (r: Attempt)
    requires Fits(prefs, slots) && human < |prefs|
    ensures |r.slots| == |slots| && Fits(prefs, r.slots) && seen <= r.seen
    ensures !r.ok ==> r.slots == slots
    ensures forall u :: u in seen && u < |slots| ==> r.slots[u] == slots[u]
    decreases Unseen(|slots|, seen), 2, 0
  {
    TryUnits(prefs, slots, seen, human, prefs[human])
  }

  function TryUnits(prefs: Prefs, slots: Slots, seen: set<nat>, human: nat, units: seq<nat>): (r: Attempt)
    requires Fits(prefs, slots) && human < |prefs|
    requires Below(units, |slots|)
    ensures |r.slots| == |slots| && Fits(prefs, r.slots) && seen <= r.seen
    ensures !r.ok ==> r.slots == slots
    ensures forall u :: u in seen && u < |slots| ==> r.slots[u] == slots[u]
    decreases Unseen(|slots|, seen), 1, |units|
  {
    if units == [] then
      Attempt(false, slots, seen)
    else
      var unit := units[0];
      if unit in seen then
        TryUnits(prefs, slots, seen, human, units[1..])
      else
        assert unit in Unseen(|slots|, seen);
        if |slots[unit]| < MAX_CREDITS_PER_FINDING then
          Attempt(true, slots[unit := slots[unit] + [human]], seen + {unit})
        else
          var r := TryHolders(prefs, slots, seen + {unit}, human, unit, slots[unit]);
          if r.ok then r else TryUnits(prefs, slots, r.seen, human, units[1..])
  }

  /** Try to move one of `holders` off the full `unit`, so that `human` can take its place. */
  function TryHolders(prefs: Prefs, slots: Slots, seen: set<nat>, human: nat, unit: nat, holders: seq<nat>)
    : (r: Attempt)
    requires Fits(prefs, slots) && human < |prefs| && unit < |slots| && unit in seen
    requires Below(holders, |prefs|) && forall h :: h in holders ==> h in slots[unit]
    ensures |r.slots| == |slots| && Fits(prefs, r.slots) && seen <= r.seen
    ensures !r.ok ==> r.slots == slots
    ensures forall u :: u in seen && u < |slots| && u != unit ==> r.slots[u] == slots[u]
    decreases Unseen(|slots|, seen), 3, |holders|
  {
    if holders == [] then
      Attempt(false, slots, seen)
    else
      var r := Augment(prefs, slots, seen, holders[0]);
      if r.ok then
        var moved := RemoveFirst(r.slots[unit], holders[0]);
        BelowSubset(r.slots[unit], moved, |prefs|);
        Attempt(true, r.slots[unit := moved + [human]], r.seen)
      else
        TryHolders(prefs, slots, r.seen, human, unit, holders[1..])
  }

  // ---------------------------------------------------------------------------------
  // A successful search credits exactly one more human
  // ---------------------------------------------------------------------------------

  /** Every credit held over all units, with multiplicity. */
  ghost function Credits(slots: Slots): multiset<nat> {
    if slots == [] then multiset{} else multiset(slots[0]) + Credits(slots[1..])
  }

  lemma {:induction false} CreditsUpdate(slots: Slots, unit: nat, holders: seq<nat>)
    requires unit < |slots|
    ensures multiset(slots[unit]) <= Credits(slots)
    ensures Credits(slots[unit := holders]) == Credits(slots) - multiset(slots[unit]) + multiset(holders)
  {
    var after := slots[unit := holders];
    if unit == 0 {
      assert after[1..] == slots[1..];
    } else {
      assert after[1..] == slots[1..][unit - 1 := holders];
      CreditsUpdate(slots[1..], unit - 1, holders);
      OneMore(multiset(slots[0]), Credits(slots[1..]), multiset(slots[unit]), multiset(holders));
    }
  }

  lemma OneMore(first: multiset<nat>, rest: multiset<nat>, old_: multiset<nat>, new_: multiset<nat>)
    requires old_ <= rest
    ensures first + (rest - old_ + new_) == first + rest - old_ + new_
  {
  }

  /** The cap holds on every unit, and every credit follows a preference of its human. */
  ghost predicate Sound(prefs: Prefs, slots: Slots) {
    && Fits(prefs, slots)
    && (forall u :: 0 <= u < |slots| ==> SoundUnit(prefs, u, slots[u]))
  }

  ghost predicate SoundUnit(prefs: Prefs, unit: nat, holders: seq<nat>)
    requires Below(holders, |prefs|)
  {
    && |holders| <= MAX_CREDITS_PER_FINDING
    && forall h :: h in holders ==> unit in prefs[h]
  }

  /** No unit ever loses a credit on balance. */
  ghost predicate KeepsFill(before: Slots, after: Slots) {
    && |before| == |after|
    && forall u :: 0 <= u < |before| ==> |before[u]| <= |after[u]|
  }

  /** `after` is `before` with one credit more, for `human`. */
  ghost predicate Gains(prefs: Prefs, before: Slots, after: Slots, human: nat) {
    Sound(prefs, after) && KeepsFill(before, after) && Credits(after) == Credits(before) + multiset{human}
  }

  lemma MultisetSwap(all: multiset<nat>, old_: multiset<nat>, gone: multiset<nat>, human: nat)
    requires old_ <= all && gone <= old_
    ensures all - old_ + (old_ - gone + multiset{human}) == all - gone + multiset{human}
  {
  }

  /** Replacing one unit's holders keeps `Sound` when the new list is sound for that unit. */
  lemma SoundUpdate(prefs: Prefs, slots: Slots, unit: nat, holders: seq<nat>)
    requires Sound(prefs, slots) && unit < |slots|
    requires Below(holders, |prefs|) && SoundUnit(prefs, unit, holders)
    ensures Sound(prefs, slots[unit := holders])
  {
    var after := slots[unit := holders];
    forall u | 0 <= u < |after| ensures Below(after[u], |prefs|) && SoundUnit(prefs, u, after[u]) {
      assert Below(slots[u], |prefs|) && SoundUnit(prefs, u, slots[u]);
    }
  }

  lemma CreditAdded(slots: Slots, unit: nat, human: nat)
    requires unit < |slots|
    ensures Credits(slots[unit := slots[unit] + [human]]) == Credits(slots) + multiset{human}
  {
    CreditsUpdate(slots, unit, slots[unit] + [human]);
    assert multiset(slots[unit] + [human]) == multiset(slots[unit]) - multiset{} + multiset{human};
    MultisetSwap(Credits(slots), multiset(slots[unit]), multiset{}, human);
  }

  lemma GainsByAppend(prefs: Prefs, slots: Slots, unit: nat, human: nat)
    requires Sound(prefs, slots) && human < |prefs| && unit < |slots| && unit in prefs[human]
    requires |slots[unit]| < MAX_CREDITS_PER_FINDING
    ensures Gains(prefs, slots, slots[unit := slots[unit] + [human]], human)
  {
    assert Below(slots[unit], |prefs|) && SoundUnit(prefs, unit, slots[unit]);
    SoundUpdate(prefs, slots, unit, slots[unit] + [human]);
    CreditAdded(slots, unit, human);
  }

  lemma GainsByReroute(prefs: Prefs, slots: Slots, after: Slots, unit: nat, holder: nat, human: nat)
    requires Gains(prefs, slots, after, holder) && unit < |slots| && holder in slots[unit]
    requires after[unit] == slots[unit]
    requires human < |prefs| && unit in prefs[human]
    ensures Gains(prefs, slots, after[unit := RemoveFirst(after[unit], holder) + [human]], human)
  {
    RerouteIsSound(prefs, after, unit, holder, human);
    CreditSwapped(after, unit, holder, human);
    TradedBack(Credits(slots), holder);
  }

  lemma RerouteIsSound(prefs: Prefs, slots: Slots, unit: nat, holder: nat, human: nat)
    requires Sound(prefs, slots) && unit < |slots| && holder in slots[unit]
    requires human < |prefs| && unit in prefs[human]
    ensures Sound(prefs, slots[unit := RemoveFirst(slots[unit], holder) + [human]])
  {
    var moved := RemoveFirst(slots[unit], holder);
    assert Below(slots[unit], |prefs|) && SoundUnit(prefs, unit, slots[unit]);
    BelowSubset(slots[unit], moved, |prefs|);
    SoundUpdate(prefs, slots, unit, moved + [human]);
  }

  lemma TradedBack(all: multiset<nat>, holder: nat)
    ensures all + multiset{holder} - multiset{holder} == all
  {
  }

  /** Exchanging a holder of a unit for another human exchanges their credits. */
  lemma CreditSwapped(slots: Slots, unit: nat, holder: nat, human: nat)
    requires unit < |slots| && holder in slots[unit]
    ensures Credits(slots[unit := RemoveFirst(slots[unit], holder) + [human]])
         == Credits(slots) - multiset{holder} + multiset{human}
  {
    var holders := RemoveFirst(slots[unit], holder) + [human];
    CreditsUpdate(slots, unit, holders);
    assert multiset(holders) == multiset(slots[unit]) - multiset{holder} + multiset{human};
    MultisetSwap(Credits(slots), multiset(slots[unit]), multiset{holder}, human);
  }

  /** A successful search credits its human and un-credits nobody. */
  lemma {:induction false} AugmentGains(prefs: Prefs, slots: Slots, seen: set<nat>, human: nat)
    requires Sound(prefs, slots) && human < |prefs| && Augment(prefs, slots, seen, human).ok
    ensures Gains(prefs, slots, Augment(prefs, slots, seen, human).slots, human)
    decreases Unseen(|slots|, seen), 2, 0
  {
    forall u | u in prefs[human] ensures u < |slots| {
      assert Below(prefs[human], |slots|);
    }
    TryUnitsGains(prefs, slots, seen, human, prefs[human]);
  }

  lemma {:induction false} TryUnitsGains(prefs: Prefs, slots: Slots, seen: set<nat>, human: nat, units: seq<nat>)
    requires Sound(prefs, slots) && human < |prefs| && Below(units, |slots|)
    requires forall u :: u in units ==> u in prefs[human]
    requires TryUnits(prefs, slots, seen, human, units).ok
    ensures Gains(prefs, slots, TryUnits(prefs, slots, seen, human, units).slots, human)
    decreases Unseen(|slots|, seen), 1, |units|
  {
    var unit := units[0];
    if unit in seen {
      TryUnitsGains(prefs, slots, seen, human, units[1..]);
    } else {
      assert unit in Unseen(|slots|, seen);
      if |slots[unit]| < MAX_CREDITS_PER_FINDING {
        GainsByAppend(prefs, slots, unit, human);
      } else {
        var r := TryHolders(prefs, slots, seen + {unit}, human, unit, slots[unit]);
        if r.ok {
          TryHoldersGains(prefs, slots, seen + {unit}, human, unit, slots[unit]);
        } else {
          TryUnitsGains(prefs, slots, r.seen, human, units[1..]);
        }
      }
    }
  }

  lemma {:induction false} TryHoldersGains(prefs: Prefs, slots: Slots, seen: set<nat>, human: nat,
                                           unit: nat, holders: seq<nat>)
    requires Sound(prefs, slots) && human < |prefs| && unit < |slots| && unit in seen && unit in prefs[human]
    requires Below(holders, |prefs|) && forall h :: h in holders ==> h in slots[unit]
    requires TryHolders(prefs, slots, seen, human, unit, holders).ok
    ensures Gains(prefs, slots, TryHolders(prefs, slots, seen, human, unit, holders).slots, human)
    decreases Unseen(|slots|, seen), 3, |holders|
  {
    var r := Augment(prefs, slots, seen, holders[0]);
    if r.ok {
      AugmentGains(prefs, slots, seen, holders[0]);
      GainsByReroute(prefs, slots, r.slots, unit, holders[0], human);
    } else {
      TryHoldersGains(prefs, slots, r.seen, human, unit, holders[1..]);
    }
  }

  // ---------------------------------------------------------------------------------
  // A failed search leaves a certificate: a saturated set of units nobody can leave
  // ---------------------------------------------------------------------------------

  /** Every unit of `dead` is full, and its holders prefer only units of `dead`. */
  ghost predicate Dead(prefs: Prefs, slots: Slots, dead: set<nat>)
    requires Fits(prefs, slots)
  {
    forall u :: u in dead ==> u < |slots| && Saturated(prefs, slots[u], dead)
  }

  ghost predicate Saturated(prefs: Prefs, holders: seq<nat>, dead: set<nat>)
    requires Below(holders, |prefs|)
  {
    && |holders| >= MAX_CREDITS_PER_FINDING
    && forall i :: 0 <= i < |holders| ==> Confined(prefs[holders[i]], dead)
  }

  ghost predicate Confined(units: seq<nat>, dead: set<nat>) {
    forall i :: 0 <= i < |units| ==> units[i] in dead
  }

  /** The units a failed search newly visited are saturated within what it saw. */
  ghost predicate Exhausted(prefs: Prefs, slots: Slots, before: set<nat>, after: set<nat>)
    requires Fits(prefs, slots)
  {
    forall u :: u in after && u !in before ==> u < |slots| && Saturated(prefs, slots[u], after)
  }

  lemma {:induction false} AugmentFails(prefs: Prefs, slots: Slots, seen: set<nat>, human: nat)
    requires Fits(prefs, slots) && human < |prefs|
    requires !Augment(prefs, slots, seen, human).ok
    ensures var after := Augment(prefs, slots, seen, human).seen;
            Confined(prefs[human], after) && Exhausted(prefs, slots, seen, after)
    decreases Unseen(|slots|, seen), 2, 0
  {
    TryUnitsFails(prefs, slots, seen, human, prefs[human]);
  }

  lemma {:induction false} TryUnitsFails(prefs: Prefs, slots: Slots, seen: set<nat>, human: nat, units: seq<nat>)
    requires Fits(prefs, slots) && human < |prefs| && Below(units, |slots|)
    requires !TryUnits(prefs, slots, seen, human, units).ok
    ensures var after := TryUnits(prefs, slots, seen, human, units).seen;
            Confined(units, after) && Exhausted(prefs, slots, seen, after)
    decreases Unseen(|slots|, seen), 1, |units|
  {
    if units != [] {
      var unit := units[0];
      var after := TryUnits(prefs, slots, seen, human, units).seen;
      if unit in seen {
        TryUnitsFails(prefs, slots, seen, human, units[1..]);
      } else {
        assert unit in Unseen(|slots|, seen);
        TryHoldersFails(prefs, slots, seen + {unit}, human, unit, slots[unit]);
        var r := TryHolders(prefs, slots, seen + {unit}, human, unit, slots[unit]);
        TryUnitsFails(prefs, slots, r.seen, human, units[1..]);
        assert Saturated(prefs, slots[unit], after);
      }
      assert forall i :: 0 < i < |units| ==> units[i] == units[1..][i - 1];
    }
  }

  lemma {:induction false} TryHoldersFails(prefs: Prefs, slots: Slots, seen: set<nat>, human: nat,
                                           unit: nat, holders: seq<nat>)
    requires Fits(prefs, slots) && human < |prefs| && unit < |slots| && unit in seen
    requires Below(holders, |prefs|) && forall h :: h in holders ==> h in slots[unit]
    requires !TryHolders(prefs, slots, seen, human, unit, holders).ok
    ensures var after := TryHolders(prefs, slots, seen, human, unit, holders).seen;
            && (forall i :: 0 <= i < |holders| ==> Confined(prefs[holders[i]], after))
            && Exhausted(prefs, slots, seen, after)
    decreases Unseen(|slots|, seen), 3, |holders|
  {
    if holders != [] {
      AugmentFails(prefs, slots, seen, holders[0]);
      var r := Augment(prefs, slots, seen, holders[0]);
      TryHoldersFails(prefs, slots, r.seen, human, unit, holders[1..]);
      assert forall i :: 0 < i < |holders| ==> holders[i] == holders[1..][i - 1];
    }
  }

  /** A human that prefers only dead units cannot be credited. */
  lemma {:induction false} DeadBlocks(prefs: Prefs, slots: Slots, seen: set<nat>, human: nat, dead: set<nat>)
    requires Fits(prefs, slots) && human < |prefs| && Dead(prefs, slots, dead) && Confined(prefs[human], dead)
    ensures !Augment(prefs, slots, seen, human).ok
    decreases Unseen(|slots|, seen), 2, 0
  {
    DeadBlocksUnits(prefs, slots, seen, human, prefs[human], dead);
  }

  lemma {:induction false} DeadBlocksUnits(prefs: Prefs, slots: Slots, seen: set<nat>, human: nat,
                                           units: seq<nat>, dead: set<nat>)
    requires Fits(prefs, slots) && human < |prefs| && Below(units, |slots|)
    requires Dead(prefs, slots, dead) && Confined(units, dead)
    ensures !TryUnits(prefs, slots, seen, human, units).ok
    decreases Unseen(|slots|, seen), 1, |units|
  {
    if units != [] {
      var unit := units[0];
      if unit in seen {
        DeadBlocksUnits(prefs, slots, seen, human, units[1..], dead);
      } else {
        assert unit in Unseen(|slots|, seen);
        DeadBlocksHolders(prefs, slots, seen + {unit}, human, unit, slots[unit], dead);
        var r := TryHolders(prefs, slots, seen + {unit}, human, unit, slots[unit]);
        DeadBlocksUnits(prefs, slots, r.seen, human, units[1..], dead);
      }
    }
  }

  lemma {:induction false} DeadBlocksHolders(prefs: Prefs, slots: Slots, seen: set<nat>, human: nat,
                                             unit: nat, holders: seq<nat>, dead: set<nat>)
    requires Fits(prefs, slots) && human < |prefs| && unit < |slots| && unit in seen
    requires Below(holders, |prefs|) && forall h :: h in holders ==> h in slots[unit]
    requires Dead(prefs, slots, dead)
    requires forall i :: 0 <= i < |holders| ==> Confined(prefs[holders[i]], dead)
    ensures !TryHolders(prefs, slots, seen, human, unit, holders).ok
    decreases Unseen(|slots|, seen), 3, |holders|
  {
    if holders != [] {
      DeadBlocks(prefs, slots, seen, holders[0], dead);
      var r := Augment(prefs, slots, seen, holders[0]);
      DeadBlocksHolders(prefs, slots, r.seen, human, unit, holders[1..], dead);
    }
  }

  /** No later search, successful or not, touches a dead unit. */
  lemma {:induction false} DeadStays(prefs: Prefs, slots: Slots, seen: set<nat>, human: nat, dead: set<nat>)
    requires Fits(prefs, slots) && human < |prefs| && Dead(prefs, slots, dead)
    ensures var r := Augment(prefs, slots, seen, human);
            (forall u :: u in dead ==> r.slots[u] == slots[u]) && Dead(prefs, r.slots, dead)
    decreases Unseen(|slots|, seen), 2, 0
  {
    DeadStaysUnits(prefs, slots, seen, human, prefs[human], dead);
  }

  lemma {:induction false} DeadStaysUnits(prefs: Prefs, slots: Slots, seen: set<nat>, human: nat,
                                          units: seq<nat>, dead: set<nat>)
    requires Fits(prefs, slots) && human < |prefs| && Below(units, |slots|) && Dead(prefs, slots, dead)
    ensures var r := TryUnits(prefs, slots, seen, human, units);
            forall u :: u in dead ==> r.slots[u] == slots[u]
    decreases Unseen(|slots|, seen), 1, |units|
  {
    if units != [] {
      var unit := units[0];
      if unit in seen {
        DeadStaysUnits(prefs, slots, seen, human, units[1..], dead);
      } else {
        assert unit in Unseen(|slots|, seen);
        if unit in dead {
          DeadBlocksHolders(prefs, slots, seen + {unit}, human, unit, slots[unit], dead);
        } else {
          DeadStaysHolders(prefs, slots, seen + {unit}, human, unit, slots[unit], dead);
        }
        var r := TryHolders(prefs, slots, seen + {unit}, human, unit, slots[unit]);
        if !r.ok {
          DeadStaysUnits(prefs, slots, r.seen, human, units[1..], dead);
        }
      }
    }
  }

  lemma {:induction false} DeadStaysHolders(prefs: Prefs, slots: Slots, seen: set<nat>, human: nat,
                                            unit: nat, holders: seq<nat>, dead: set<nat>)
    requires Fits(prefs, slots) && human < |prefs| && unit < |slots| && unit in seen && unit !in dead
    requires Below(holders, |prefs|) && forall h :: h in holders ==> h in slots[unit]
    requires Dead(prefs, slots, dead)
    ensures var r := TryHolders(prefs, slots, seen, human, unit, holders);
            forall u :: u in dead ==> r.slots[u] == slots[u]
    decreases Unseen(|slots|, seen), 3, |holders|
  {
    if holders != [] {
      DeadStays(prefs, slots, seen, holders[0], dead);
      var r := Augment(prefs, slots, seen, holders[0]);
      if !r.ok {
        DeadStaysHolders(prefs, slots, r.seen, human, unit, holders[1..], dead);
      }
    }
  }

  // ---------------------------------------------------------------------------------
  // The whole assignment: one search per human, in order
  // ---------------------------------------------------------------------------------

  /** Preferences over `n` units, for humans `0..|prefs|`, tried in `order`. */
  ghost predicate Instance(prefs: Prefs, n: nat, order: seq<nat>) {
    && (forall h :: 0 <= h < |prefs| ==> Below(prefs[h], n))
    && Below(order, |prefs|)
    && forall i, j :: 0 <= i < j < |order| ==> order[i] != order[j]
  }

  lemma InstancePrefix(prefs: Prefs, n: nat, order: seq<nat>, k: nat)
    requires Instance(prefs, n, order) && k <= |order|
    ensures Instance(prefs, n, order[..k])
  {
  }

  function EmptySlots(n: nat): (r: Slots)
    ensures |r| == n && forall u :: 0 <= u < n ==> r[u] == []
  {
    seq(n, _ => [])
  }

  /** The slots after every human of `order` had its one search. */
  function Assigned(prefs: Prefs, n: nat, order: seq<nat>): (r: Slots)
    requires Instance(prefs, n, order)
    ensures |r| == n && Fits(prefs, r)
    decreases |order|
  {
    if order == [] then
      EmptySlots(n)
    else
      var k := |order| - 1;
      InstancePrefix(prefs, n, order, k);
      Augment(prefs, Assigned(prefs, n, order[..k]), {}, order[k]).slots
  }

  ghost function LastAttempt(prefs: Prefs, n: nat, order: seq<nat>): Attempt
    requires Instance(prefs, n, order) && order != []
  {
    InstancePrefix(prefs, n, order, |order| - 1);
    Augment(prefs, Assigned(prefs, n, order[..|order| - 1]), {}, order[|order| - 1])
  }

  /** The humans credited by the search. */
  ghost function Credited(prefs: Prefs, n: nat, order: seq<nat>): set<nat>
    requires Instance(prefs, n, order)
  {
    if order == [] then {}
    else
      InstancePrefix(prefs, n, order, |order| - 1);
      Credited(prefs, n, order[..|order| - 1])
      + if LastAttempt(prefs, n, order).ok then {order[|order| - 1]} else {}
  }

  /** Everything a failed search of the run saw. */
  ghost function DeadUnits(prefs: Prefs, n: nat, order: seq<nat>): set<nat>
    requires Instance(prefs, n, order)
  {
    if order == [] then {}
    else
      InstancePrefix(prefs, n, order, |order| - 1);
      DeadUnits(prefs, n, order[..|order| - 1])
      + if LastAttempt(prefs, n, order).ok then {} else LastAttempt(prefs, n, order).seen
  }

  lemma {:induction false} EmptyCredits(n: nat)
    ensures Credits(EmptySlots(n)) == multiset{}
  {
    if n > 0 {
      assert EmptySlots(n)[1..] == EmptySlots(n - 1);
      EmptyCredits(n - 1);
    }
  }

  /** What the run keeps: the cap and the preferences are respected, each credited human holds
      exactly one credit and nobody else holds any, and the dead units confine every human of
      `order` left without credit. */
  ghost predicate RunOk(prefs: Prefs, order: seq<nat>, slots: Slots, credited: set<nat>, dead: set<nat>) {
    && Sound(prefs, slots) && Below(order, |prefs|)
    && Credits(slots) == multiset(credited)
    && (forall h :: h in credited ==> h in order)
    && Dead(prefs, slots, dead)
    && forall h :: h in order && h !in credited ==> Confined(prefs[h], dead)
  }

  lemma RunOkSuccess(prefs: Prefs, order: seq<nat>, slots: Slots, credited: set<nat>, dead: set<nat>, human: nat)
    requires RunOk(prefs, order, slots, credited, dead) && human < |prefs| && human !in order
    requires Augment(prefs, slots, {}, human).ok
    ensures RunOk(prefs, order + [human], Augment(prefs, slots, {}, human).slots, credited + {human}, dead)
  {
    AugmentGains(prefs, slots, {}, human);
    DeadStays(prefs, slots, {}, human, dead);
    assert multiset(credited + {human}) == multiset(credited) + multiset{human};
  }

  lemma RunOkFailure(prefs: Prefs, order: seq<nat>, slots: Slots, credited: set<nat>, dead: set<nat>, human: nat)
    requires RunOk(prefs, order, slots, credited, dead) && human < |prefs| && human !in order
    requires !Augment(prefs, slots, {}, human).ok
    ensures RunOk(prefs, order + [human], slots, credited, dead + Augment(prefs, slots, {}, human).seen)
  {
    AugmentFails(prefs, slots, {}, human);
    DeadUnion(prefs, slots, dead, Augment(prefs, slots, {}, human).seen);
  }

  lemma {:induction false} RunInvariant(prefs: Prefs, n: nat, order: seq<nat>)
    requires Instance(prefs, n, order)
    ensures RunOk(prefs, order, Assigned(prefs, n, order), Credited(prefs, n, order), DeadUnits(prefs, n, order))
    decreases |order|
  {
    if order == [] {
      EmptyCredits(n);
    } else {
      var k := |order| - 1;
      InstancePrefix(prefs, n, order, k);
      RunInvariant(prefs, n, order[..k]);
      RunUnfolds(prefs, n, order, k);
      RunStep(prefs, order[..k], Assigned(prefs, n, order[..k]), Credited(prefs, n, order[..k]),
              DeadUnits(prefs, n, order[..k]), order[k], LastAttempt(prefs, n, order));
    }
  }

  lemma RunUnfolds(prefs: Prefs, n: nat, order: seq<nat>, k: nat)
    requires Instance(prefs, n, order) && k + 1 == |order| && Instance(prefs, n, order[..k])
    ensures var r := LastAttempt(prefs, n, order);
            && r == Augment(prefs, Assigned(prefs, n, order[..k]), {}, order[k])
            && Assigned(prefs, n, order) == r.slots
            && Credited(prefs, n, order) == Credited(prefs, n, order[..k]) + (if r.ok then {order[k]} else {})
            && DeadUnits(prefs, n, order) == DeadUnits(prefs, n, order[..k]) + (if r.ok then {} else r.seen)
    ensures order[..k] + [order[k]] == order && order[k] < |prefs| && order[k] !in order[..k]
  {
  }

  lemma RunStep(prefs: Prefs, order: seq<nat>, slots: Slots, credited: set<nat>, dead: set<nat>, human: nat, r: Attempt)
    requires RunOk(prefs, order, slots, credited, dead) && human < |prefs| && human !in order
    requires r == Augment(prefs, slots, {}, human)
    ensures RunOk(prefs, order + [human], r.slots, credited + if r.ok then {human} else {},
                  dead + if r.ok then {} else r.seen)
  {
    if r.ok {
      RunOkSuccess(prefs, order, slots, credited, dead, human);
      assert dead + {} == dead;
    } else {
      RunOkFailure(prefs, order, slots, credited, dead, human);
      assert credited + {} == credited;
    }
  }

  lemma DeadUnion(prefs: Prefs, slots: Slots, a: set<nat>, b: set<nat>)
    requires Fits(prefs, slots) && Dead(prefs, slots, a) && Exhausted(prefs, slots, {}, b)
    ensures Dead(prefs, slots, a + b)
  {
    forall u | u in a + b ensures u < |slots| && Saturated(prefs, slots[u], a + b) {
      if u in a {
        assert Saturated(prefs, slots[u], a);
      } else {
        assert Saturated(prefs, slots[u], b);
      }
    }
  }

  // ---------------------------------------------------------------------------------
  // Maximality
  // ---------------------------------------------------------------------------------

  /** Any way of crediting humans at units they prefer, under the cap. */
  ghost predicate Feasible(prefs: Prefs, order: seq<nat>, pick: map<nat, nat>) {
    && (forall h :: h in pick ==> h in order && h < |prefs| && pick[h] in prefs[h])
    && (forall u :: |CreditedAt(pick, u)| <= MAX_CREDITS_PER_FINDING)
  }

  ghost function CreditedAt(pick: map<nat, nat>, unit: nat): set<nat> {
    set h | h in pick && pick[h] == unit
  }

  ghost function CreditedIn(pick: map<nat, nat>, units: set<nat>): set<nat> {
    set h | h in pick && pick[h] in units
  }

  lemma {:induction false} CapacityOf(prefs: Prefs, order: seq<nat>, pick: map<nat, nat>, units: set<nat>)
    requires Feasible(prefs, order, pick)
    ensures |CreditedIn(pick, units)| <= MAX_CREDITS_PER_FINDING * |units|
    decreases |units|
  {
    if units == {} {
      assert CreditedIn(pick, units) == {};
    } else {
      var u :| u in units;
      CapacityOf(prefs, order, pick, units - {u});
      assert CreditedIn(pick, units) == CreditedIn(pick, units - {u}) + CreditedAt(pick, u);
    }
  }

  ghost function HoldersIn(slots: Slots, units: set<nat>): set<nat> {
    set u, i | u in units && 0 <= u < |slots| && 0 <= i < |slots[u]| :: slots[u][i]
  }

  /** When no human holds two credits, a set of full units holds cap-many humans per unit. */
  lemma {:induction false} HoldersCount(prefs: Prefs, slots: Slots, units: set<nat>)
    requires forall h :: Credits(slots)[h] <= 1
    requires forall u :: u in units ==> u < |slots| && |slots[u]| >= MAX_CREDITS_PER_FINDING
    ensures |HoldersIn(slots, units)| >= MAX_CREDITS_PER_FINDING * |units|
    decreases |units|
  {
    if units != {} {
      var u :| u in units;
      HoldersCount(prefs, slots, units - {u});
      var here := Members(slots[u]);
      HoldersDistinct(slots, u);
      forall h | h in here ensures h !in HoldersIn(slots, units - {u}) {
        if h in HoldersIn(slots, units - {u}) {
          var v, i :| v in units - {u} && 0 <= i < |slots[v]| && slots[v][i] == h;
          HeldTwice(slots, u, v, h);
        }
      }
      HoldersSplit(slots, units, u);
      var rest := HoldersIn(slots, units - {u});
      assert |rest + here| == |rest| + |here|;
      assert |units| == |units - {u}| + 1;
      assert MAX_CREDITS_PER_FINDING * |units| == MAX_CREDITS_PER_FINDING * |units - {u}| + MAX_CREDITS_PER_FINDING;
    }
  }

  lemma HoldersDistinct(slots: Slots, u: nat)
    requires u < |slots| && forall h :: Credits(slots)[h] <= 1
    ensures |Members(slots[u])| == |slots[u]|
  {
    forall i, j | 0 <= i < j < |slots[u]| ensures slots[u][i] != slots[u][j] {
      if slots[u][i] == slots[u][j] {
        TwiceInMultiset(slots[u], i, j);
        CreditsUpdate(slots, u, []);
      }
    }
    DistinctSize(slots[u]);
  }

  lemma HoldersSplit(slots: Slots, units: set<nat>, u: nat)
    requires u in units && u < |slots|
    ensures HoldersIn(slots, units) == HoldersIn(slots, units - {u}) + Members(slots[u])
  {
    forall h | h in HoldersIn(slots, units) ensures h in HoldersIn(slots, units - {u}) || h in slots[u] {
      var v, i :| v in units && 0 <= v < |slots| && 0 <= i < |slots[v]| && slots[v][i] == h;
      if v != u { assert v in units - {u}; }
    }
    forall h | h in slots[u] ensures h in HoldersIn(slots, units) {
      var i :| 0 <= i < |slots[u]| && slots[u][i] == h;
    }
  }

  lemma HeldTwice(slots: Slots, u: nat, v: nat, h: nat)
    requires u < |slots| && v < |slots| && u != v && h in slots[u] && h in slots[v]
    ensures Credits(slots)[h] >= 2
  {
    CreditsUpdate(slots, u, []);
    CreditsUpdate(slots[u := []], v, []);
    assert h in multiset(slots[u]) && h in multiset(slots[v]);
  }

  lemma HoldersAreCredited(slots: Slots, units: set<nat>)
    ensures forall h :: h in HoldersIn(slots, units) ==> h in Credits(slots)
  {
    forall h | h in HoldersIn(slots, units) ensures h in Credits(slots) {
      var v, i :| v in units && 0 <= v < |slots| && 0 <= i < |slots[v]| && slots[v][i] == h;
      CreditsUpdate(slots, v, []);
      assert h in multiset(slots[v]);
    }
  }

  ghost function Members(s: seq<nat>): (r: set<nat>)
    ensures forall h :: h in r <==> h in s
  {
    if s == [] then {} else {s[0]} + Members(s[1..])
  }

  lemma {:induction false} DistinctSize(s: seq<nat>)
    requires forall i, j :: 0 <= i < j < |s| ==> s[i] != s[j]
    ensures |Members(s)| == |s|
  {
    if s != [] {
      DistinctSize(s[1..]);
      assert s[0] !in s[1..];
    }
  }

  lemma SizeOfParts<T>(all: set<T>, part: set<T>)
    requires part <= all
    ensures |all| == |part| + |all - part|
  {
    assert all == part + (all - part);
  }

  /** The holders of dead units prefer only dead units. */
  lemma HoldersConfined(prefs: Prefs, slots: Slots, dead: set<nat>, h: nat)
    requires Fits(prefs, slots) && Dead(prefs, slots, dead) && h in HoldersIn(slots, dead)
    ensures h < |prefs| && Confined(prefs[h], dead)
  {
    var u, i :| u in dead && 0 <= u < |slots| && 0 <= i < |slots[u]| && slots[u][i] == h;
    assert Below(slots[u], |prefs|);
    assert Saturated(prefs, slots[u], dead);
  }

  /** The dead units of the final state certify that nothing feasible credits more humans. */
  lemma DeadUnitsBound(prefs: Prefs, order: seq<nat>, slots: Slots, credited: set<nat>, dead: set<nat>,
                       pick: map<nat, nat>)
    requires RunOk(prefs, order, slots, credited, dead) && Feasible(prefs, order, pick)
    ensures |pick| <= |credited|
  {
    var inside := HoldersIn(slots, dead);
    DeadUnitsAreFull(prefs, slots, credited, dead);
    CapacityOf(prefs, order, pick, dead);
    var there := CreditedIn(pick, dead);
    forall h | h in pick.Keys - there ensures h in credited - inside {
      assert pick[h] in prefs[h] && pick[h] !in dead;
      if h in inside {
        HoldersConfined(prefs, slots, dead, h);
      }
    }
    SubsetSize(pick.Keys - there, credited - inside);
    SizeOfParts(pick.Keys, there);
    SizeOfParts(credited, inside);
  }

  lemma DeadUnitsAreFull(prefs: Prefs, slots: Slots, credited: set<nat>, dead: set<nat>)
    requires Sound(prefs, slots) && Credits(slots) == multiset(credited) && Dead(prefs, slots, dead)
    ensures HoldersIn(slots, dead) <= credited
    ensures |HoldersIn(slots, dead)| >= MAX_CREDITS_PER_FINDING * |dead|
  {
    forall u | u in dead ensures u < |slots| && |slots[u]| >= MAX_CREDITS_PER_FINDING {
      assert Saturated(prefs, slots[u], dead);
    }
    HoldersCount(prefs, slots, dead);
    HoldersAreCredited(slots, dead);
  }

  /** No assignment of humans to units they prefer, under the cap, credits more humans. */
  lemma AssignmentIsMaximum(prefs: Prefs, n: nat, order: seq<nat>, pick: map<nat, nat>)
    requires Instance(prefs, n, order) && Feasible(prefs, order, pick)
    ensures |pick| <= |Credited(prefs, n, order)|
  {
    RunInvariant(prefs, n, order);
    DeadUnitsBound(prefs, order, Assigned(prefs, n, order), Credited(prefs, n, order),
                   DeadUnits(prefs, n, order), pick);
  }

  /** A failed search proves that its human cannot be credited on top of `credited`. */
  lemma FailureIsHopeless(prefs: Prefs, order: seq<nat>, slots: Slots, credited: set<nat>, human: nat,
                          pick: map<nat, nat>)
    requires Sound(prefs, slots) && Credits(slots) == multiset(credited)
    requires human < |prefs| && human !in credited && !Augment(prefs, slots, {}, human).ok
    requires Feasible(prefs, order, pick) && credited <= pick.Keys
    ensures human !in pick
  {
    var seen := Augment(prefs, slots, {}, human).seen;
    AugmentFails(prefs, slots, {}, human);
    assert Dead(prefs, slots, seen);
    DeadUnitsAreFull(prefs, slots, credited, seen);
    var inside := HoldersIn(slots, seen);
    if human in pick {
      forall h | h in inside + {human} ensures h in CreditedIn(pick, seen) {
        if h in inside {
          HoldersConfined(prefs, slots, seen, h);
        }
        assert Confined(prefs[h], seen);
        assert pick[h] in prefs[h];
      }
      SubsetSize(inside + {human}, CreditedIn(pick, seen));
      CapacityOf(prefs, order, pick, seen);
      assert false;
    }
  }

  /** One search per human is enough: a human that failed in its turn fails again at the end of the run,
      whatever was seen. */
  lemma FailsAgain(prefs: Prefs, n: nat, order: seq<nat>, seen: set<nat>, human: nat)
    requires Instance(prefs, n, order) && human in order && human !in Credited(prefs, n, order)
    ensures human < |prefs| && Fits(prefs, Assigned(prefs, n, order))
    ensures !Augment(prefs, Assigned(prefs, n, order), seen, human).ok
  {
    RunInvariant(prefs, n, order);
    DeadBlocks(prefs, Assigned(prefs, n, order), seen, human, DeadUnits(prefs, n, order));
  }

  /** A human stays without credit only when its search would fail again, and when no assignment credits
      it together with everyone credited before it. */
  lemma FailedHumanIsHopeless(prefs: Prefs, n: nat, order: seq<nat>, k: nat, pick: map<nat, nat>)
    requires Instance(prefs, n, order) && k < |order| && Feasible(prefs, order, pick)
    requires order[k] !in Credited(prefs, n, order)
    ensures order[k] < |prefs| && Fits(prefs, Assigned(prefs, n, order))
    ensures !Augment(prefs, Assigned(prefs, n, order), {}, order[k]).ok
    ensures (forall i :: 0 <= i < k && order[i] in Credited(prefs, n, order) ==> order[i] in pick) ==> order[k] !in pick
  {
    FailsAgain(prefs, n, order, {}, order[k]);
    if forall i :: 0 <= i < k && order[i] in Credited(prefs, n, order) ==> order[i] in pick {
      FailedInTurn(prefs, n, order, k);
      var before := Credited(prefs, n, order[..k]);
      RunInvariant(prefs, n, order[..k]);
      forall h | h in before ensures h in pick {
        CreditedIsDecidedInTurn(prefs, n, order, k);
        assert h in order[..k];
      }
      FailureIsHopeless(prefs, order, Assigned(prefs, n, order[..k]), before, order[k], pick);
    }
  }

  /** Who is without credit at the end failed in its own turn. */
  lemma FailedInTurn(prefs: Prefs, n: nat, order: seq<nat>, k: nat)
    requires Instance(prefs, n, order) && k < |order| && order[k] !in Credited(prefs, n, order)
    ensures Instance(prefs, n, order[..k]) && order[k] < |prefs| && order[k] !in Credited(prefs, n, order[..k])
    ensures !Augment(prefs, Assigned(prefs, n, order[..k]), {}, order[k]).ok
  {
    InstancePrefix(prefs, n, order, k);
    InstancePrefix(prefs, n, order, k + 1);
    CreditedIsDecidedInTurn(prefs, n, order, k);
    CreditedIsDecidedInTurn(prefs, n, order, k + 1);
    assert order[..k + 1][..k] == order[..k];
    RunUnfolds(prefs, n, order[..k + 1], k);
    assert order[k] in order[..k + 1];
  }

  /** Nobody credited on its turn is ever un-credited, and nobody is credited later. */
  lemma {:induction false} CreditedIsDecidedInTurn(prefs: Prefs, n: nat, order: seq<nat>, k: nat)
    requires Instance(prefs, n, order) && k <= |order|
    ensures Instance(prefs, n, order[..k])
    ensures forall h :: h in Credited(prefs, n, order[..k]) <==> h in Credited(prefs, n, order) && h in order[..k]
    decreases |order|
  {
    InstancePrefix(prefs, n, order, k);
    if k == |order| {
      assert order[..k] == order;
      RunInvariant(prefs, n, order);
    } else {
      var last := |order| - 1;
      InstancePrefix(prefs, n, order, last);
      CreditedIsDecidedInTurn(prefs, n, order[..last], k);
      assert order[..last][..k] == order[..k];
      RunUnfolds(prefs, n, order, last);
      assert order[last] !in order[..k];
    }
  }

  // ---------------------------------------------------------------------------------
  // The resulting map, and the algorithm as it runs
  // ---------------------------------------------------------------------------------

  /** The unit of each credited human, read off the slots. */
  function Placement(slots: Slots): map<nat, nat> {
    if slots == [] then map[]
    else
      var last := |slots| - 1;
      Placement(slots[..last]) + map h | h in slots[last] :: last
  }

  lemma {:induction false} CreditHasHolder(slots: Slots, h: nat) returns (u: nat)
    requires h in Credits(slots)
    ensures u < |slots| && h in slots[u]
  {
    if h in multiset(slots[0]) {
      u := 0;
    } else {
      u := CreditHasHolder(slots[1..], h);
      u := u + 1;
    }
  }

  lemma {:induction false} PlacementReadsSlots(slots: Slots)
    ensures forall u, h :: 0 <= u < |slots| && h in slots[u] ==> h in Placement(slots)
    ensures forall h :: h in Placement(slots) ==> Placement(slots)[h] < |slots| && h in slots[Placement(slots)[h]]
  {
    if slots != [] {
      PlacementReadsSlots(slots[..|slots| - 1]);
    }
  }

  lemma PlacementKeys(slots: Slots)
    ensures forall h :: h in Placement(slots) <==> h in Credits(slots)
  {
    PlacementReadsSlots(slots);
    forall h | h in Placement(slots) ensures h in Credits(slots) {
      CreditsUpdate(slots, Placement(slots)[h], []);
      assert h in multiset(slots[Placement(slots)[h]]);
    }
    forall h | h in Credits(slots) ensures h in Placement(slots) {
      var _ := CreditHasHolder(slots, h);
    }
  }

  lemma {:induction false} MembersSize(s: seq<nat>)
    ensures |Members(s)| <= |s|
  {
    if s != [] { MembersSize(s[1..]); }
  }

  lemma PlacementIsFeasible(prefs: Prefs, order: seq<nat>, slots: Slots, credited: set<nat>, dead: set<nat>)
    requires RunOk(prefs, order, slots, credited, dead)
    ensures Feasible(prefs, order, Placement(slots)) && Placement(slots).Keys == credited
  {
    var found := Placement(slots);
    PlacementReadsSlots(slots);
    PlacementKeys(slots);
    forall h ensures h in found.Keys <==> h in credited {
      assert h in Credits(slots) <==> h in multiset(credited);
    }
    forall h | h in found ensures h in order && h < |prefs| && found[h] in prefs[h] {
      assert SoundUnit(prefs, found[h], slots[found[h]]);
    }
    forall u: nat ensures |CreditedAt(found, u)| <= MAX_CREDITS_PER_FINDING {
      if 0 <= u < |slots| {
        assert SoundUnit(prefs, u, slots[u]);
        MembersSize(slots[u]);
        SubsetSize(CreditedAt(found, u), Members(slots[u]));
      } else {
        assert CreditedAt(found, u) == {};
      }
    }
  }

  /** The assignment respects the cap and the preferences, credits exactly the credited humans,
      and credits as many humans as any assignment can. */
  lemma PlacementIsMaximumMatching(prefs: Prefs, n: nat, order: seq<nat>)
    requires Instance(prefs, n, order)
    ensures var found := Placement(Assigned(prefs, n, order));
            && Feasible(prefs, order, found)
            && found.Keys == Credited(prefs, n, order)
            && forall pick :: Feasible(prefs, order, pick) ==> |pick| <= |found|
  {
    RunInvariant(prefs, n, order);
    var slots, credited := Assigned(prefs, n, order), Credited(prefs, n, order);
    PlacementIsFeasible(prefs, order, slots, credited, DeadUnits(prefs, n, order));
    var found := Placement(slots);
    assert |found| == |found.Keys|;
    forall pick | Feasible(prefs, order, pick) ensures |pick| <= |found| {
      AssignmentIsMaximum(prefs, n, order, pick);
    }
  }

  /** What taking a unit, or failing to, means for the search over the units left. */
  lemma UnitTaken(prefs: Prefs, slots: Slots, seen: set<nat>, human: nat, units: seq<nat>, r: Attempt)
    requires Fits(prefs, slots) && human < |prefs| && Below(units, |slots|) && units != [] && units[0] !in seen
    requires if |slots[units[0]]| < MAX_CREDITS_PER_FINDING
             then r == Attempt(true, slots[units[0] := slots[units[0]] + [human]], seen + {units[0]})
             else r == TryHolders(prefs, slots, seen + {units[0]}, human, units[0], slots[units[0]])
    ensures r.ok ==> TryUnits(prefs, slots, seen, human, units) == r
    ensures !r.ok ==> r.slots == slots && seen <= r.seen
                      && TryUnits(prefs, slots, seen, human, units)
                         == TryUnits(prefs, slots, r.seen, human, units[1..])
  {
  }

  /** The running algorithm: slot lists and the set of units already seen, updated in place. */
  class Assigner {
    const prefs: Prefs
    var slots: Slots
    var seen: set<nat>

    constructor (prefs: Prefs, n: nat)
      ensures this.prefs == prefs && slots == EmptySlots(n) && seen == {}
    {
      this.prefs := prefs;
      slots := EmptySlots(n);
      seen := {};
    }

    method Search(human: nat) returns (ok: bool)
      requires Fits(prefs, slots) && human < |prefs|
      modifies this
      ensures Attempt(ok, slots, seen) == Augment(prefs, old(slots), old(seen), human)
      decreases Unseen(|slots|, seen), 1
    {
      ghost var slots0, seen0 := slots, seen;
      var i := 0;
      while i < |prefs[human]|
        invariant 0 <= i <= |prefs[human]| && slots == slots0 && seen0 <= seen
        invariant TryUnits(prefs, slots0, seen0, human, prefs[human])
               == TryUnits(prefs, slots, seen, human, prefs[human][i..])
      {
        var unit := prefs[human][i];
        assert prefs[human][i..][1..] == prefs[human][i + 1..];
        if unit !in seen {
          ghost var seen1 := seen;
          ok := TakeUnit(human, unit);
          UnitTaken(prefs, slots0, seen1, human, prefs[human][i..], Attempt(ok, slots, seen));
          if ok { return; }
        }
        i := i + 1;
      }
      ok := false;
    }

    /** Take a place of a unit not seen before: a free one, or one a holder can be moved off. */
    method TakeUnit(human: nat, unit: nat) returns (ok: bool)
      requires Fits(prefs, slots) && human < |prefs| && unit < |slots| && unit !in seen
      modifies this
      ensures if |old(slots)[unit]| < MAX_CREDITS_PER_FINDING
              then ok && slots == old(slots)[unit := old(slots)[unit] + [human]] && seen == old(seen) + {unit}
              else Attempt(ok, slots, seen)
                   == TryHolders(prefs, old(slots), old(seen) + {unit}, human, unit, old(slots)[unit])
      decreases Unseen(|slots|, seen), 0
    {
      assert unit in Unseen(|slots|, seen);
      seen := seen + {unit};
      if |slots[unit]| < MAX_CREDITS_PER_FINDING {
        slots := slots[unit := slots[unit] + [human]];
        return true;
      }
      ok := MoveHolder(human, unit, slots[unit]);
    }

    method MoveHolder(human: nat, unit: nat, holders: seq<nat>) returns (ok: bool)
      requires Fits(prefs, slots) && human < |prefs| && unit < |slots| && unit in seen
      requires holders == slots[unit]
      modifies this
      ensures Attempt(ok, slots, seen) == TryHolders(prefs, old(slots), old(seen), human, unit, holders)
      decreases Unseen(|slots|, seen), 2
    {
      ghost var slots0, seen0 := slots, seen;
      var i := 0;
      while i < |holders|
        invariant 0 <= i <= |holders| && slots == slots0 && seen0 <= seen
        invariant TryHolders(prefs, slots0, seen0, human, unit, holders)
               == TryHolders(prefs, slots, seen, human, unit, holders[i..])
      {
        var holder := holders[i];
        assert holders[i..][1..] == holders[i + 1..];
        ok := Search(holder);
        if ok {
          slots := slots[unit := RemoveFirst(slots[unit], holder) + [human]];
          return;
        }
        i := i + 1;
      }
      ok := false;
    }

    /** One search per human of `order`; the result is the unit of every credited human. */
    method Assign(order: seq<nat>) returns (placement: map<nat, nat>)
      requires Instance(prefs, |slots|, order) && slots == EmptySlots(|slots|)
      modifies this
      ensures slots == Assigned(prefs, old(|slots|), order)
      ensures placement == Placement(slots)
    {
      ghost var n := |slots|;
      for k := 0 to |order|
        invariant |slots| == n && Instance(prefs, n, order[..k])
        invariant slots == Assigned(prefs, n, order[..k])
      {
        InstancePrefix(prefs, n, order, k + 1);
        assert order[..k + 1][..k] == order[..k];
        seen := {};
        var _ := Search(order[k]);
      }
      assert order[..|order|] == order;
      placement := Placement(slots);
    }
  }
}
