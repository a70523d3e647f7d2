/** `_assign` does not look at what its indices are: renaming the units and the humans renames
    the assignment.  This simulation is what makes the grades independent of input order. */
module CreditRenaming {
  import opened Prelude
  import opened CreditAssignment

  /** `f` is an injective renaming of indices, given as a table. */
  ghost predicate Injective(f: seq<nat>) {
    forall i, j :: 0 <= i < j < |f| ==> f[i] != f[j]
  }

  function Rename(f: seq<nat>, s: seq<nat>): (r: seq<nat>)
    requires Below(s, |f|)
    ensures |r| == |s| && forall i :: 0 <= i < |s| ==> r[i] == f[s[i]]
  {
    seq(|s|, i requires 0 <= i < |s| => f[s[i]])
  }

  lemma RenameAppend(f: seq<nat>, s: seq<nat>, x: nat)
    requires Below(s, |f|) && x < |f|
    ensures Rename(f, s + [x]) == Rename(f, s) + [f[x]]
  {
  }

  lemma {:induction false} RenameRemove(f: seq<nat>, s: seq<nat>, x: nat)
    requires Injective(f) && Below(s, |f|) && x in s
    ensures f[x] in Rename(f, s)
    ensures Below(RemoveFirst(s, x), |f|)
    ensures Rename(f, RemoveFirst(s, x)) == RemoveFirst(Rename(f, s), f[x])
  {
    assert Rename(f, s)[0] == f[s[0]];
    assert Rename(f, s)[1..] == Rename(f, s[1..]);
    if s[0] == x {
      assert Below(s[1..], |f|);
    } else {
      assert f[s[0]] != f[x] by { assert x < |f| && s[0] < |f|; }
      RenameRemove(f, s[1..], x);
      RenamePrepend(f, s[0], RemoveFirst(s[1..], x));
    }
  }

  lemma RenamePrepend(f: seq<nat>, x: nat, s: seq<nat>)
    requires Below(s, |f|) && x < |f|
    ensures Below([x] + s, |f|) && Rename(f, [x] + s) == [f[x]] + Rename(f, s)
  {
  }

  ghost predicate RenamedPrefs(units: seq<nat>, humans: seq<nat>, prefs: Prefs, prefs': Prefs) {
    && |humans| == |prefs|
    && Below(humans, |prefs'|)
    && forall h :: 0 <= h < |prefs| ==> Below(prefs[h], |units|) && prefs'[humans[h]] == Rename(units, prefs[h])
  }

  ghost predicate RenamedSlots(units: seq<nat>, humans: seq<nat>, slots: Slots, slots': Slots) {
    && |units| == |slots| == |slots'|
    && Below(units, |slots'|)
    && forall u :: 0 <= u < |slots| ==> Below(slots[u], |humans|) && slots'[units[u]] == Rename(humans, slots[u])
  }

  ghost predicate RenamedSet(units: seq<nat>, seen: set<nat>, seen': set<nat>) {
    forall u :: 0 <= u < |units| ==> (u in seen <==> units[u] in seen')
  }

  /** The two searches, step by step, are images of each other. */
  ghost predicate Simulates(units: seq<nat>, humans: seq<nat>, r: Attempt, r': Attempt) {
    r.ok == r'.ok && RenamedSlots(units, humans, r.slots, r'.slots) && RenamedSet(units, r.seen, r'.seen)
  }

  /** Two states of two runs that are images of each other. */
  ghost predicate Matched(units: seq<nat>, humans: seq<nat>, prefs: Prefs, prefs': Prefs,
                          slots: Slots, slots': Slots, seen: set<nat>, seen': set<nat>)
  {
    && Injective(units) && Injective(humans)
    && Fits(prefs, slots) && Fits(prefs', slots')
    && RenamedPrefs(units, humans, prefs, prefs')
    && RenamedSlots(units, humans, slots, slots')
    && RenamedSet(units, seen, seen')
  }

  lemma {:induction false} AugmentRenamed(units: seq<nat>, humans: seq<nat>, prefs: Prefs, prefs': Prefs,
      slots: Slots, slots': Slots, seen: set<nat>, seen': set<nat>, human: nat)
    requires Matched(units, humans, prefs, prefs', slots, slots', seen, seen') && human < |prefs|
    ensures Simulates(units, humans, Augment(prefs, slots, seen, human),
                      Augment(prefs', slots', seen', humans[human]))
    decreases Unseen(|slots|, seen), 2, 0
  {
    assert Below(prefs[human], |slots|);
    TryUnitsRenamed(units, humans, prefs, prefs', slots, slots', seen, seen', human, prefs[human]);
  }

  lemma {:induction false} TryUnitsRenamed(units: seq<nat>, humans: seq<nat>, prefs: Prefs, prefs': Prefs,
      slots: Slots, slots': Slots, seen: set<nat>, seen': set<nat>, human: nat, wanted: seq<nat>)
    requires Matched(units, humans, prefs, prefs', slots, slots', seen, seen') && human < |prefs|
    requires Below(wanted, |slots|) && Below(Rename(units, wanted), |slots'|)
    ensures Simulates(units, humans, TryUnits(prefs, slots, seen, human, wanted),
                      TryUnits(prefs', slots', seen', humans[human], Rename(units, wanted)))
    decreases Unseen(|slots|, seen), 1, |wanted|
  {
    if wanted != [] {
      var unit := wanted[0];
      var unit' := units[unit];
      assert Rename(units, wanted)[1..] == Rename(units, wanted[1..]);
      if unit in seen {
        TryUnitsRenamed(units, humans, prefs, prefs', slots, slots', seen, seen', human, wanted[1..]);
      } else {
        assert unit in Unseen(|slots|, seen);
        assert unit' !in seen';
        assert slots'[unit'] == Rename(humans, slots[unit]);
        SeenAdd(units, seen, seen', unit);
        if |slots[unit]| < MAX_CREDITS_PER_FINDING {
          RenameAppend(humans, slots[unit], human);
          SlotsUpdate(units, humans, slots, slots', unit, slots[unit] + [human]);
        } else {
          TryHoldersRenamed(units, humans, prefs, prefs', slots, slots', seen + {unit}, seen' + {unit'},
                            human, unit, slots[unit]);
          var r := TryHolders(prefs, slots, seen + {unit}, human, unit, slots[unit]);
          var r' := TryHolders(prefs', slots', seen' + {unit'}, humans[human], unit', slots'[unit']);
          if !r.ok {
            TryUnitsRenamed(units, humans, prefs, prefs', slots, slots', r.seen, r'.seen, human, wanted[1..]);
          }
        }
      }
    }
  }

  lemma SeenAdd(units: seq<nat>, seen: set<nat>, seen': set<nat>, unit: nat)
    requires Injective(units) && RenamedSet(units, seen, seen') && unit < |units|
    ensures RenamedSet(units, seen + {unit}, seen' + {units[unit]})
  {
  }

  lemma SlotsUpdate(units: seq<nat>, humans: seq<nat>, slots: Slots, slots': Slots, unit: nat, holders: seq<nat>)
    requires Injective(units) && RenamedSlots(units, humans, slots, slots') && unit < |units|
    requires Below(holders, |humans|)
    ensures RenamedSlots(units, humans, slots[unit := holders], slots'[units[unit] := Rename(humans, holders)])
  {
  }

  lemma {:induction false} TryHoldersRenamed(units: seq<nat>, humans: seq<nat>, prefs: Prefs, prefs': Prefs,
      slots: Slots, slots': Slots, seen: set<nat>, seen': set<nat>, human: nat, unit: nat, holders: seq<nat>)
    requires Matched(units, humans, prefs, prefs', slots, slots', seen, seen') && human < |prefs|
    requires unit < |slots| && unit in seen
    requires Below(holders, |prefs|) && forall h :: h in holders ==> h in slots[unit]
    requires Below(Rename(humans, holders), |prefs'|)
    requires forall h :: h in Rename(humans, holders) ==> h in slots'[units[unit]]
    ensures Simulates(units, humans, TryHolders(prefs, slots, seen, human, unit, holders),
                      TryHolders(prefs', slots', seen', humans[human], units[unit], Rename(humans, holders)))
    decreases Unseen(|slots|, seen), 3, |holders|
  {
    if holders != [] {
      AugmentRenamed(units, humans, prefs, prefs', slots, slots', seen, seen', holders[0]);
      var r := Augment(prefs, slots, seen, holders[0]);
      var r' := Augment(prefs', slots', seen', humans[holders[0]]);
      assert Rename(humans, holders)[1..] == Rename(humans, holders[1..]);
      if r.ok {
        var moved := RemoveFirst(r.slots[unit], holders[0]);
        RenameRemove(humans, r.slots[unit], holders[0]);
        RenameAppend(humans, moved, human);
        SlotsUpdate(units, humans, r.slots, r'.slots, unit, moved + [human]);
      } else {
        TryHoldersRenamed(units, humans, prefs, prefs', slots, slots', r.seen, r'.seen, human, unit, holders[1..]);
      }
    }
  }

  /** Two inputs of `_assign` that differ only by the names of units and humans. */
  ghost predicate RenamedInstance(units: seq<nat>, humans: seq<nat>, prefs: Prefs, prefs': Prefs,
                                  order: seq<nat>, order': seq<nat>)
  {
    && Injective(units) && Injective(humans)
    && Below(units, |units|)
    && Instance(prefs, |units|, order) && Instance(prefs', |units|, order')
    && RenamedPrefs(units, humans, prefs, prefs')
    && order' == Rename(humans, order)
  }

  lemma {:induction false} AssignedRenamed(units: seq<nat>, humans: seq<nat>, prefs: Prefs, prefs': Prefs,
                                           order: seq<nat>, order': seq<nat>)
    requires RenamedInstance(units, humans, prefs, prefs', order, order')
    ensures RenamedSlots(units, humans, Assigned(prefs, |units|, order), Assigned(prefs', |units|, order'))
    decreases |order|
  {
    var n := |units|;
    if order == [] {
      assert Rename(humans, []) == [];
    } else {
      var k := |order| - 1;
      InstancePrefix(prefs, n, order, k);
      InstancePrefix(prefs', n, order', k);
      assert order'[..k] == Rename(humans, order[..k]);
      AssignedRenamed(units, humans, prefs, prefs', order[..k], order'[..k]);
      AugmentRenamed(units, humans, prefs, prefs', Assigned(prefs, n, order[..k]),
                     Assigned(prefs', n, order'[..k]), {}, {}, order[k]);
    }
  }

  /** The same humans are credited, each at the renamed unit. */
  lemma PlacementRenamed(units: seq<nat>, humans: seq<nat>, prefs: Prefs, prefs': Prefs,
                         order: seq<nat>, order': seq<nat>, h: nat)
    requires RenamedInstance(units, humans, prefs, prefs', order, order') && h < |humans|
    ensures var found := Placement(Assigned(prefs, |units|, order));
            var found' := Placement(Assigned(prefs', |units|, order'));
            && (h in found ==> found[h] < |units| && humans[h] in found' && found'[humans[h]] == units[found[h]])
            && (humans[h] in found' ==> h in found)
  {
    var n := |units|;
    AssignedRenamed(units, humans, prefs, prefs', order, order');
    var slots, slots' := Assigned(prefs, n, order), Assigned(prefs', n, order');
    PlacementReadsSlots(slots);
    PlacementReadsSlots(slots');
    RunInvariant(prefs', n, order');
    var found, found' := Placement(slots), Placement(slots');
    if h in found {
      RenamedMember(humans, slots[found[h]], h);
      assert humans[h] in slots'[units[found[h]]];
      OneHolder(slots', Credited(prefs', n, order'), found'[humans[h]], units[found[h]], humans[h]);
    }
    if humans[h] in found' {
      var u' := found'[humans[h]];
      var u := Preimage(units, u');
      var i :| 0 <= i < |slots'[u']| && slots'[u'][i] == humans[h];
      assert slots'[u'] == Rename(humans, slots[u]);
      assert slots[u][i] == h by { assert humans[slots[u][i]] == humans[h]; }
      assert h in slots[u];
    }
  }

  lemma RenamedMember(f: seq<nat>, s: seq<nat>, x: nat)
    requires Below(s, |f|) && x in s
    ensures f[x] in Rename(f, s)
  {
    var i :| 0 <= i < |s| && s[i] == x;
    assert Rename(f, s)[i] == f[x];
  }

  lemma OneHolder(slots: Slots, credited: set<nat>, u: nat, v: nat, h: nat)
    requires Credits(slots) == multiset(credited)
    requires u < |slots| && v < |slots| && h in slots[u] && h in slots[v]
    ensures u == v
  {
    if u != v { HeldTwice(slots, u, v, h); }
  }

  /** An injective table over its own range is onto. */
  lemma Preimage(f: seq<nat>, y: nat) returns (x: nat)
    requires Injective(f) && Below(f, |f|) && y < |f|
    ensures x < |f| && f[x] == y
  {
    MissesNone(f, y);
    x :| 0 <= x < |f| && f[x] == y;
  }

  lemma MissesNone(f: seq<nat>, y: nat)
    requires Injective(f) && Below(f, |f|) && y < |f|
    ensures y in f
  {
    DistinctSize(f);
    var rest := UpTo(|f|) - {y};
    if y !in f {
      assert Members(f) <= rest;
      SubsetSize(Members(f), rest);
    }
  }
}
