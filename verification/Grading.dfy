/** What the graders read and write: human labels, AI findings, credit units and grades. */
module Grading {
  import opened Prelude
  import opened Sorting

  /** One extra location of a grouped finding, as recorded. */
  datatype Location = Location(file: Option<string>, line: Option<int>)

  datatype Finding = Finding(
    file: string, line: Option<int>, severity: Option<string>, title: string, body: string,
    dropReason: Option<string>, locations: seq<Location>)

  datatype Human = Human(
    id: string, file: string, line: Option<int>, severity: Option<string>, category: Option<string>,
    accepted: Option<bool>, text: string, mustMatch: string)

  predicate UniqueIds(humans: seq<Human>) {
    forall i, j :: 0 <= i < j < |humans| ==> humans[i].id != humans[j].id
  }

  datatype GradeValue = Full | Partial | NoMatch | JudgeError

  predicate CreditedValue(g: GradeValue) {
    g.Full? || g.Partial?
  }

  datatype Grade = Grade(humanId: string, value: GradeValue, aiRef: Option<nat>, aiLine: Option<int>)

  /** One place an AI finding can be credited at: location `order` of finding `ref`. */
  datatype Unit = Unit(ref: nat, file: string, line: Option<int>, order: nat)

  type Spot = (string, Option<int>)

  // ---------------------------------------------------------------------------------
  // The locations of one finding
  // ---------------------------------------------------------------------------------

  /** An entry without a file inherits the finding's; one without a line is no location. */
  function ParseLocation(entry: Location, defaultFile: string): Option<Spot> {
    match entry.line
    case None => None
    case Some(_) =>
      Some((if entry.file.Some? && entry.file.value != "" then entry.file.value else defaultFile, entry.line))
  }

  function AddLocations(spots: seq<Spot>, entries: seq<Location>, file: string): (r: seq<Spot>)
    ensures spots <= r
    decreases |entries|
  {
    if entries == [] then spots
    else
      var parsed := ParseLocation(entries[0], file);
      AddLocations(if parsed.Some? && parsed.value !in spots then spots + [parsed.value] else spots,
                   entries[1..], file)
  }

  function CreditLocations(f: Finding): (r: seq<Spot>)
    ensures |r| >= 1 && r[0] == (f.file, f.line)
  {
    AddLocations([(f.file, f.line)], f.locations, f.file)
  }

  /** The locations are deduplicated, and they are the finding's own place plus exactly the
      places its entries name. */
  lemma {:induction false} AddLocationsMembers(spots: seq<Spot>, entries: seq<Location>, file: string)
    requires Distinct(spots)
    ensures Distinct(AddLocations(spots, entries, file))
    ensures forall s :: s in AddLocations(spots, entries, file) <==>
              s in spots || exists e :: e in entries && ParseLocation(e, file) == Some(s)
    decreases |entries|
  {
    if entries != [] {
      var parsed := ParseLocation(entries[0], file);
      var more := if parsed.Some? && parsed.value !in spots then spots + [parsed.value] else spots;
      AddLocationsMembers(more, entries[1..], file);
      assert forall e :: e in entries <==> e == entries[0] || e in entries[1..];
    }
  }

  /** A place of a finding: its own, or that of an entry with a line, in the file of the entry or, when
      the entry names none, of the finding. */
  ghost predicate IsPlace(f: Finding, s: Spot) {
    || s == (f.file, f.line)
    || exists e :: e in f.locations && EntryNames(e, f.file, s)
  }

  ghost predicate EntryNames(e: Location, file: string, s: Spot) {
    && e.line.Some? && s.1 == e.line
    && if e.file == None || e.file == Some("") then s.0 == file else e.file == Some(s.0)
  }

  lemma CreditLocationsMembers(f: Finding)
    ensures Distinct(CreditLocations(f))
    ensures forall s :: s in CreditLocations(f) <==> IsPlace(f, s)
  {
    AddLocationsMembers([(f.file, f.line)], f.locations, f.file);
    forall e, s ensures ParseLocation(e, f.file) == Some(s) <==> EntryNames(e, f.file, s) {
      assert s == (s.0, s.1);
    }
  }

  method CollectLocations(f: Finding) returns (spots: seq<Spot>)
    ensures spots == CreditLocations(f)
  {
    spots := [(f.file, f.line)];
    for i := 0 to |f.locations|
      invariant CreditLocations(f) == AddLocations(spots, f.locations[i..], f.file)
    {
      assert f.locations[i..][1..] == f.locations[i + 1..];
      var parsed := ParseLocation(f.locations[i], f.file);
      if parsed.Some? && parsed.value !in spots {
        spots := spots + [parsed.value];
      }
    }
  }

  // ---------------------------------------------------------------------------------
  // The credit units of a record
  // ---------------------------------------------------------------------------------

  function UnitsOf(f: Finding, ref: nat): (r: seq<Unit>)
  {
    if f.dropReason.Some? then [] else UnitsAt(CreditLocations(f), ref)
  }

  function UnitsAt(spots: seq<Spot>, ref: nat): (r: seq<Unit>)
  {
    seq(|spots|, k requires 0 <= k < |spots| => Unit(ref, spots[k].0, spots[k].1, k))
  }

  function Units(findings: seq<Finding>): (r: seq<Unit>)
    ensures forall p :: 0 <= p < |r| ==> r[p].ref < |findings| && findings[r[p].ref].dropReason.None?
  {
    if findings == [] then []
    else Units(findings[..|findings| - 1]) + UnitsOf(findings[|findings| - 1], |findings| - 1)
  }

  lemma UnitsSnoc(findings: seq<Finding>, ref: nat)
    requires ref < |findings|
    ensures Units(findings[..ref + 1]) == Units(findings[..ref]) + UnitsOf(findings[ref], ref)
  {
    assert findings[..ref + 1][..ref] == findings[..ref];
  }

  method ListUnits(spots: seq<Spot>, ref: nat) returns (units: seq<Unit>)
    ensures units == UnitsAt(spots, ref)
  {
    units := [];
    for order := 0 to |spots|
      invariant |units| == order && forall k :: 0 <= k < order ==> units[k] == Unit(ref, spots[k].0, spots[k].1, k)
    {
      units := units + [Unit(ref, spots[order].0, spots[order].1, order)];
    }
  }

  method CollectUnits(findings: seq<Finding>) returns (units: seq<Unit>)
    ensures units == Units(findings)
  {
    units := [];
    for ref := 0 to |findings|
      invariant units == Units(findings[..ref])
    {
      if findings[ref].dropReason.None? {
        var spots := CollectLocations(findings[ref]);
        var more := ListUnits(spots, ref);
        units := units + more;
      }
      UnitsSnoc(findings, ref);
    }
    assert findings[..|findings|] == findings;
  }

  ghost predicate UnitIsPlace(findings: seq<Finding>, u: Unit) {
    u.ref < |findings| && findings[u.ref].dropReason.None? && IsPlace(findings[u.ref], (u.file, u.line))
  }

  /** Every unit is a place of an active finding ... */
  lemma {:induction false} UnitsArePlaces(findings: seq<Finding>, p: nat)
    requires p < |Units(findings)|
    ensures UnitIsPlace(findings, Units(findings)[p])
  {
    var k := |findings| - 1;
    var front := Units(findings[..k]);
    if p < |front| {
      UnitsArePlaces(findings[..k], p);
    } else {
      var spots := CreditLocations(findings[k]);
      CreditLocationsMembers(findings[k]);
      assert spots[p - |front|] in spots;
    }
  }

  /** ... and every place of an active finding is a unit. */
  lemma {:induction false} PlacesAreUnits(findings: seq<Finding>, ref: nat, s: Spot) returns (p: nat)
    requires ref < |findings| && findings[ref].dropReason.None? && IsPlace(findings[ref], s)
    ensures p < |Units(findings)| && Units(findings)[p].ref == ref
    ensures (Units(findings)[p].file, Units(findings)[p].line) == s
    decreases |findings|
  {
    var k := |findings| - 1;
    if ref < k {
      p := PlacesAreUnits(findings[..k], ref, s);
    } else {
      var i := PlaceIsLocation(findings[k], s);
      p := |Units(findings[..k])| + i;
      assert Units(findings)[p] == UnitsOf(findings[k], k)[i];
    }
  }

  lemma PlaceIsLocation(f: Finding, s: Spot) returns (i: nat)
    requires IsPlace(f, s)
    ensures i < |CreditLocations(f)| && CreditLocations(f)[i] == s
  {
    CreditLocationsMembers(f);
    i :| 0 <= i < |CreditLocations(f)| && CreditLocations(f)[i] == s;
  }

  /** Units are listed by finding, then by location. */
  lemma {:induction false} UnitsAreOrdered(findings: seq<Finding>, p: nat, q: nat)
    requires p < q < |Units(findings)|
    ensures var a, b := Units(findings)[p], Units(findings)[q];
            a.ref < b.ref || (a.ref == b.ref && a.order < b.order)
  {
    var k := |findings| - 1;
    var front := Units(findings[..k]);
    if q < |front| {
      UnitsAreOrdered(findings[..k], p, q);
    }
  }

  /** No two units are the same place of the same finding. */
  lemma {:induction false} UnitsAreDistinct(findings: seq<Finding>, p: nat, q: nat)
    requires p < q < |Units(findings)|
    ensures var a, b := Units(findings)[p], Units(findings)[q]; (a.ref, a.file, a.line) != (b.ref, b.file, b.line)
  {
    UnitsAreOrdered(findings, p, q);
    var k := |findings| - 1;
    var front := Units(findings[..k]);
    if q < |front| {
      UnitsAreDistinct(findings[..k], p, q);
    } else if |front| <= p {
      CreditLocationsMembers(findings[k]);
    }
  }

  /** What the graders can tell about a unit, apart from where it stands in the input. */
  datatype Content = Content(file: string, line: Option<int>, title: string, body: string)

  function UnitContent(findings: seq<Finding>, unit: Unit): Content
    requires unit.ref < |findings|
  {
    Content(unit.file, unit.line, findings[unit.ref].title, findings[unit.ref].body)
  }
}
