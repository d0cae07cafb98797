/** tasks/cases.py: the number of bronchiolitis cases in each census unit.
    Every unit is checked against every case point; the geometric test
    `intersects` is a parameter of the model. */
module Cases {
  import opened PyBase
  import Sorting

  /** A census unit of the shapefile: its `toponimo_i` and its polygon. */
  datatype CensusUnit = CensusUnit(toponimo: string, geometry: nat)

  /** A record of the output table. */
  datatype UnitCases = UnitCases(toponimo: string, casos: nat)

  /** `census_unit.geometry.intersects(point.geometry)` for every point, in
      the order of the points. */
  function Intersections(u: CensusUnit, points: seq<nat>, intersects: (nat, nat) -> bool): (xs: seq<bool>)
    ensures |xs| == |points| && forall j :: 0 <= j < |points| ==> xs[j] == intersects(u.geometry, points[j])
  {
    seq(|points|, j requires 0 <= j < |points| => intersects(u.geometry, points[j]))
  }

  /** `len(list(filter(bool, intersections)))`. */
  function Casos(u: CensusUnit, points: seq<nat>, intersects: (nat, nat) -> bool): (n: nat)
    ensures n <= |points|
  {
    Count(Intersections(u, points, intersects), true)
  }

  /** The indices of the points that fall in a unit. */
  ghost function Hits(u: CensusUnit, points: seq<nat>, intersects: (nat, nat) -> bool): set<nat> {
    set j: nat | j < |points| && intersects(u.geometry, points[j])
  }

  /** The count of a unit is the number of points that intersect it. */
  lemma {:induction false} CasosCountsHits(u: CensusUnit, points: seq<nat>, intersects: (nat, nat) -> bool)
    ensures Casos(u, points, intersects) == |Hits(u, points, intersects)|
    decreases |points|
  {
    if points != [] {
      var n := |points| - 1;
      var init := points[..n];
      CasosCountsHits(u, init, intersects);
      var xs := Intersections(u, points, intersects);
      assert xs[..n] == Intersections(u, init, intersects);
      if intersects(u.geometry, points[n]) {
        assert Hits(u, points, intersects) == Hits(u, init, intersects) + {n};
      } else {
        assert Hits(u, points, intersects) == Hits(u, init, intersects);
      }
    }
  }

  /** One record per unit, in the order of the shapefile. */
  function PerUnit(units: seq<CensusUnit>, points: seq<nat>, intersects: (nat, nat) -> bool): (r: seq<UnitCases>)
    ensures |r| == |units|
    ensures forall i :: 0 <= i < |units| ==> r[i] == UnitCases(units[i].toponimo, Casos(units[i], points, intersects))
  {
    seq(|units|, i requires 0 <= i < |units| => UnitCases(units[i].toponimo, Casos(units[i], points, intersects)))
  }

  function CasosKey(c: UnitCases): real {
    -(c.casos as real)
  }

  /** `get_cases`: count the points of every unit, then sort by `casos`
      descending. */
  method GetCases(units: seq<CensusUnit>, points: seq<nat>, intersects: (nat, nat) -> bool) returns (out: seq<UnitCases>)
    ensures |out| == |units|
    ensures multiset(out) == multiset(PerUnit(units, points, intersects))
    ensures forall i :: 0 <= i < |units| ==> UnitCases(units[i].toponimo, Casos(units[i], points, intersects)) in out
    ensures forall i :: 0 <= i < |out| ==> out[i].casos <= |points|
    ensures forall i, j :: 0 <= i < j < |out| ==> out[i].casos >= out[j].casos
  {
    var casesPerCensusUnit: seq<UnitCases> := [];
    for i := 0 to |units|
      invariant |casesPerCensusUnit| == i
      invariant forall k :: 0 <= k < i ==>
                  casesPerCensusUnit[k] == UnitCases(units[k].toponimo, Casos(units[k], points, intersects))
    {
      var intersections: seq<bool> := [];
      for j := 0 to |points|
        invariant intersections == Intersections(units[i], points[..j], intersects)
      {
        intersections := intersections + [intersects(units[i].geometry, points[j])];
      }
      assert points[..|points|] == points;
      casesPerCensusUnit := casesPerCensusUnit + [UnitCases(units[i].toponimo, Count(intersections, true))];
    }
    assert casesPerCensusUnit == PerUnit(units, points, intersects);
    out := Sorting.SortBy(casesPerCensusUnit, CasosKey);
    ByCasosDescending(casesPerCensusUnit, |points|);
  }

  /** Sorting by `-casos` puts the records in non-increasing order of
      `casos` and keeps every record and its bound. */
  lemma ByCasosDescending(records: seq<UnitCases>, bound: nat)
    requires forall i :: 0 <= i < |records| ==> records[i].casos <= bound
    ensures var out := Sorting.SortBy(records, CasosKey);
            && (forall i :: 0 <= i < |records| ==> records[i] in out)
            && (forall i :: 0 <= i < |out| ==> out[i].casos <= bound)
            && (forall i, j :: 0 <= i < j < |out| ==> out[i].casos >= out[j].casos)
  {
    var out := Sorting.SortBy(records, CasosKey);
    Sorting.SortByMembers(records, CasosKey);
    forall i | 0 <= i < |out| ensures out[i].casos <= bound {
      assert out[i] in records;
    }
    forall i, j | 0 <= i < j < |out| ensures out[i].casos >= out[j].casos {
      assert CasosKey(out[i]) <= CasosKey(out[j]);
    }
  }

  /** A point that falls in every unit. */
  predicate Everywhere(unit: nat, point: nat) {
    true
  }

  /** A point that falls in no unit. */
  predicate Nowhere(unit: nat, point: nat) {
    false
  }

  const Unit1 := CensusUnit("322017", 1)
  const Unit2 := CensusUnit("321999", 2)

  /** Units are counted independently: one point in two overlapping units
      is a case of each. */
  lemma OnePointTwoUnits()
    ensures PerUnit([Unit1, Unit2], [5], Everywhere) == [UnitCases("322017", 1), UnitCases("321999", 1)]
  {
    assert Intersections(Unit1, [5], Everywhere) == [true];
    assert Intersections(Unit2, [5], Everywhere) == [true];
  }

  /** And a point outside every unit is a case of none. */
  lemma OnePointNoUnit()
    ensures PerUnit([Unit1, Unit2], [5], Nowhere) == [UnitCases("322017", 0), UnitCases("321999", 0)]
  {
    assert Intersections(Unit1, [5], Nowhere) == [false];
    assert Intersections(Unit2, [5], Nowhere) == [false];
  }
}
