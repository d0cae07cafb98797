/** tasks/get.py: the cases of bronchiolitis with their coordinates
    (`get_bronchiolitis_locations`), the census tracts with their newborn
    population (`get_shape`) and the NBI value of each tract (`get_nbi`).
    File reads and writes and the construction of point geometries are not
    modelled; the tables arrive as sequences of records. */
module Get {
  import opened PyBase
  import Sorting
  import Merge
  import Frames

  // ---------------------------------------------------------------------------
  // Records
  // ---------------------------------------------------------------------------

  /** A row of the medical-records sheet, cut to the six columns the step
      keeps. `hc` is None where the sheet has no clinical-record number. The
      admission and discharge dates are day numbers: the sheet's ISO dates
      order the same way. */
  datatype MedicalRecord = MedicalRecord(hc: Option<int>, ingreso: int, egreso: int, se: real, edad: real,
                                         domicilioDefinitivo: string)

  /** A row of the cleaned case table: a record with its clinical-record
      number and the added readmission flag. */
  datatype Case = Case(hc: int, ingreso: int, egreso: int, se: real, edad: real,
                       domicilioDefinitivo: string, esReinternacion: bool)

  /** A row of the address table. */
  datatype Address = Address(domicilioDefinitivo: string, latitud: real, longitud: real)

  // ---------------------------------------------------------------------------
  // Series.duplicated and DataFrame.drop_duplicates
  // ---------------------------------------------------------------------------

  /** `Series.duplicated()` with its default `keep='first'`: a position is
      flagged when its value already occurred before it. */
  function Duplicated<T(==)>(xs: seq<T>): (flags: seq<bool>)
    ensures |flags| == |xs|
    ensures forall i :: 0 <= i < |xs| ==> (flags[i] <==> exists j :: 0 <= j < i && xs[j] == xs[i])
  {
    seq(|xs|, i requires 0 <= i < |xs| => xs[i] in xs[..i])
  }

  /** The flags as a scan over the values, remembering those already seen. */
  method DuplicatedScan<T(==)>(xs: seq<T>) returns (flags: seq<bool>)
    ensures flags == Duplicated(xs)
  {
    var seen: set<T> := {};
    flags := [];
    var i := 0;
    while i < |xs|
      invariant 0 <= i <= |xs| && |flags| == i
      invariant seen == set j | 0 <= j < i :: xs[j]
      invariant forall j :: 0 <= j < i ==> flags[j] == (xs[j] in xs[..j])
    {
      assert xs[i] in seen <==> xs[i] in xs[..i] by {
        if xs[i] in seen {
          var j :| 0 <= j < i && xs[j] == xs[i];
          assert xs[..i][j] == xs[i];
        }
        if xs[i] in xs[..i] {
          var j :| 0 <= j < i && xs[..i][j] == xs[i];
        }
      }
      flags := flags + [xs[i] in seen];
      seen := seen + {xs[i]};
      i := i + 1;
    }
  }

  /** Appending one value appends one flag, and the earlier flags stay. */
  lemma DuplicatedSnoc<T>(xs: seq<T>, x: T)
    ensures Duplicated(xs + [x]) == Duplicated(xs) + [x in xs]
  {
    var ys := xs + [x];
    assert ys[..|xs|] == xs;
    forall i | 0 <= i < |xs| ensures Duplicated(ys)[i] == Duplicated(xs)[i] {
      assert ys[..i] == xs[..i];
    }
  }

  /** The values of a sequence, as a set. */
  function Elements<T>(xs: seq<T>): set<T> {
    set x | x in xs
  }

  /** The unflagged positions are the first occurrences: there are as many
      as there are distinct values. */
  lemma {:induction false} UnflaggedCountsDistinct<T>(xs: seq<T>)
    ensures Count(Duplicated(xs), false) == |Elements(xs)|
  {
    if xs != [] {
      var init := xs[..|xs| - 1];
      var x := xs[|xs| - 1];
      assert xs == init + [x];
      UnflaggedCountsDistinct(init);
      DuplicatedSnoc(init, x);
      CountAppend(Duplicated(init), [x in init], false);
      assert Elements(xs) == Elements(init) + {x};
      if x in init {
        assert Elements(xs) == Elements(init);
      } else {
        assert x !in Elements(init);
      }
    }
  }

  /** `DataFrame.drop_duplicates()`: the rows that are not repeats of an
      earlier row, in their order. */
  function DropDuplicates<T(==)>(xs: seq<T>): (r: seq<T>)
    ensures Distinct(r)
    ensures forall i :: 0 <= i < |r| ==> r[i] in xs
    ensures forall i :: 0 <= i < |xs| ==> xs[i] in r
  {
    if xs == [] then []
    else
      var init := xs[..|xs| - 1];
      var x := xs[|xs| - 1];
      var rest := DropDuplicates(init);
      assert xs == init + [x];
      assert forall i :: 0 <= i < |init| ==> init[i] == xs[i];
      if x in init then
        assert forall i :: 0 <= i < |xs| ==> xs[i] in init by {
          forall i | 0 <= i < |xs| ensures xs[i] in init {
            if i < |init| {
              assert xs[i] == init[i];
            }
          }
        }
        rest
      else
        assert x !in rest;
        rest + [x]
  }

  /** The rows of `xs` whose flag is false. */
  function Unflagged<T>(xs: seq<T>, flags: seq<bool>): seq<T>
    requires |xs| == |flags|
  {
    if xs == [] then []
    else Unflagged(xs[..|xs| - 1], flags[..|flags| - 1]) + (if flags[|flags| - 1] then [] else [xs[|xs| - 1]])
  }

  /** `drop_duplicates()` is `df[~df.duplicated()]`, so it keeps as many rows
      as there are distinct rows. */
  lemma DropDuplicatesKeepsUnflagged<T>(xs: seq<T>)
    ensures DropDuplicates(xs) == Unflagged(xs, Duplicated(xs))
    ensures |DropDuplicates(xs)| == |Elements(xs)|
  {
    DropDuplicatesIsUnflagged(xs);
    DropDuplicatesCountsDistinct(xs);
  }

  lemma {:induction false} DropDuplicatesIsUnflagged<T>(xs: seq<T>)
    ensures DropDuplicates(xs) == Unflagged(xs, Duplicated(xs))
  {
    if xs != [] {
      var init := xs[..|xs| - 1];
      var x := xs[|xs| - 1];
      assert xs == init + [x];
      DropDuplicatesIsUnflagged(init);
      DuplicatedSnoc(init, x);
      var flags := Duplicated(xs);
      assert flags[..|flags| - 1] == Duplicated(init);
    }
  }

  lemma {:induction false} DropDuplicatesCountsDistinct<T>(xs: seq<T>)
    ensures |DropDuplicates(xs)| == |Elements(xs)|
  {
    if xs != [] {
      var init := xs[..|xs| - 1];
      var x := xs[|xs| - 1];
      assert xs == init + [x];
      DropDuplicatesCountsDistinct(init);
      assert Elements(xs) == Elements(init) + {x};
      if x in init {
        assert Elements(xs) == Elements(init);
      } else {
        assert x !in Elements(init);
      }
    } else {
      assert Elements(xs) == {};
    }
  }

  /** Removing repeats keeps an order in place. */
  lemma {:induction false} DropDuplicatesKeepsOrder<T>(xs: seq<T>, key: T -> real)
    requires Sorting.SortedBy(xs, key)
    ensures Sorting.SortedBy(DropDuplicates(xs), key)
  {
    if xs != [] {
      var init := xs[..|xs| - 1];
      var x := xs[|xs| - 1];
      assert Sorting.SortedBy(init, key);
      DropDuplicatesKeepsOrder(init, key);
      var rest := DropDuplicates(init);
      forall i | 0 <= i < |rest| ensures key(rest[i]) <= key(x) {
        var j :| 0 <= j < |init| && init[j] == rest[i];
        assert xs[j] == init[j];
      }
    }
  }

  // ---------------------------------------------------------------------------
  // Column names
  // ---------------------------------------------------------------------------

  /** `str.lower` on one character, for the ASCII letters. */
  function Lower(c: char): (l: char)
    ensures !('A' <= l <= 'Z')
    ensures !('A' <= c <= 'Z') ==> l == c
  {
    if 'A' <= c <= 'Z' then (c as int + 32) as char else c
  }

  /** `column.lower().replace(' ', '_')`. */
  function ColumnName(column: string): (name: string)
    ensures |name| == |column|
    ensures forall i :: 0 <= i < |name| ==> name[i] != ' ' && !('A' <= name[i] <= 'Z')
    ensures forall i :: 0 <= i < |column| && column[i] != ' ' && !('A' <= column[i] <= 'Z') ==> name[i] == column[i]
  {
    seq(|column|, i requires 0 <= i < |column| => if column[i] == ' ' then '_' else Lower(column[i]))
  }

  /** Renaming a name already renamed changes nothing. */
  lemma ColumnNameIdempotent(column: string)
    ensures ColumnName(ColumnName(column)) == ColumnName(column)
  {
  }

  /** The six kept columns and the flag get the names of the case table. */
  lemma CaseColumnNames()
    ensures ColumnName("HC") == "hc"
    ensures ColumnName("INGRESO") == "ingreso"
    ensures ColumnName("EGRESO") == "egreso"
    ensures ColumnName("SE") == "se"
    ensures ColumnName("Edad") == "edad"
    ensures ColumnName("Domicilio definitivo") == "domicilio_definitivo"
    ensures ColumnName("es_reinternacion") == "es_reinternacion"
  {
    UpperCaseColumnNames();
    MixedCaseColumnNames();
    ColumnNameKeeps("es_reinternacion");
  }

  lemma UpperCaseColumnNames()
    ensures ColumnName("HC") == "hc"
    ensures ColumnName("INGRESO") == "ingreso"
    ensures ColumnName("EGRESO") == "egreso"
    ensures ColumnName("SE") == "se"
  {
  }

  lemma MixedCaseColumnNames()
    ensures ColumnName("Edad") == "edad"
    ensures ColumnName("Domicilio definitivo") == "domicilio_definitivo"
  {
  }

  /** A name without capitals and spaces is kept. */
  lemma ColumnNameKeeps(column: string)
    requires forall i :: 0 <= i < |column| ==> column[i] != ' ' && !('A' <= column[i] <= 'Z')
    ensures ColumnName(column) == column
  {
  }

  // ---------------------------------------------------------------------------
  // The address table
  // ---------------------------------------------------------------------------

  /** `latitud ** 2 + longitud ** 2`, the order the addresses are put in. */
  function DistanceKey(a: Address): real {
    a.latitud * a.latitud + a.longitud * a.longitud
  }

  /** The address table sorted by the distance key, then without exact
      duplicate rows, the first kept. */
  function PrepareAddresses(addresses: seq<Address>): (r: seq<Address>)
    ensures Sorting.SortedBy(r, DistanceKey)
    ensures Distinct(r)
    ensures forall a :: a in r <==> a in addresses
  {
    var sorted := Sorting.SortBy(addresses, DistanceKey);
    DropDuplicatesKeepsOrder(sorted, DistanceKey);
    var r := DropDuplicates(sorted);
    assert forall a :: a in sorted <==> a in addresses by {
      forall a ensures a in sorted <==> a in addresses {
        assert a in sorted <==> a in multiset(sorted);
      }
    }
    r
  }

  // ---------------------------------------------------------------------------
  // The address corrections
  // ---------------------------------------------------------------------------

  /** The twelve fixes of `domicilio_definitivo`, in the order they are
      written: seven moves and five addresses that were not found. */
  const Corrections: seq<(string, string)> := [
    ("Tecka 2050", "Simón de Alcazabar 440"),
    ("Gualjaina 1410", "Río Mayo 1510"),
    ("Lago Puelo 1476", "Rada Tilly 1280"),
    ("Vittorio Martinelli 1230", "Manuel Castro 1230"),
    ("Luis María Campos 450", "Héroes de Malvinas 850"),
    ("Ruperto Gimenez 720", "Esteban Williams 812"),
    ("Rio Pico 1710", "Trevellin 1510"),
    ("M.A. Zar 1431", "Marcos A. Zar 1431"),
    ("Manuel Alzúa 620", "Manuel Alsua 620"),
    ("C.T. Alt 213", "Alt 213"),
    ("Italia 125", "Italia 1000"),
    ("E. Williams 995", "Esteban Williams 995")
  ]

  /** One masked write `df.loc[df[col] == from, col] = to`, on one value. */
  function Step(c: (string, string), d: string): string {
    if d == c.0 then c.1 else d
  }

  /** The writes of `cs` one after the other, the first one first. */
  function Sequential(cs: seq<(string, string)>, d: string): string {
    if cs == [] then d else Step(cs[|cs| - 1], Sequential(cs[..|cs| - 1], d))
  }

  /** No target of a correction is the source of another. */
  ghost predicate NoChains(cs: seq<(string, string)>) {
    forall i, j :: 0 <= i < |cs| && 0 <= j < |cs| ==> cs[i].1 != cs[j].0
  }

  /** The correction table as a dictionary lookup: the same address as the
      twelve masked writes in source order give. */
  function Corrected(d: string): (c: string)
    ensures c == Sequential(Corrections, d)
  {
    CorrectionsWellFormed();
    SequentialIsLookup(Corrections, d);
    if d in Keys(Corrections) then ValueAt(Corrections, d) else d
  }

  /** The twelve sources are distinct and no target is a source. */
  lemma CorrectionsWellFormed()
    ensures DistinctKeys(Corrections)
    ensures NoChains(Corrections)
  {
    SourcesDistinct();
    TargetsAreNoSources();
  }

  lemma SourcesDistinct()
    ensures DistinctKeys(Corrections)
  {
  }

  lemma TargetsAreNoSources()
    ensures NoChains(Corrections)
  {
  }

  /** Sequential writes with distinct sources and no chains are a lookup. */
  lemma {:induction false} SequentialIsLookup(cs: seq<(string, string)>, d: string)
    requires DistinctKeys(cs) && NoChains(cs)
    ensures Sequential(cs, d) == if d in Keys(cs) then ValueAt(cs, d) else d
  {
    if cs != [] {
      var init := cs[..|cs| - 1];
      var c := cs[|cs| - 1];
      assert forall i :: 0 <= i < |init| ==> init[i] == cs[i];
      assert Keys(cs) == Keys(init) + [c.0];
      SequentialIsLookup(init, d);
      if d in Keys(init) {
        var v := ValueAt(init, d);
        var i :| 0 <= i < |init| && init[i] == (d, v);
        assert cs[i] == (d, v);
        assert v != c.0;
      } else if d == c.0 {
        assert cs[|cs| - 1] == (d, c.1);
      }
    }
  }

  /** Two tables with the same pairs, distinct sources and no chains give
      the same sequential result, whatever their order. */
  lemma SamePairsSameResult(cs1: seq<(string, string)>, cs2: seq<(string, string)>, d: string)
    requires DistinctKeys(cs1) && DistinctKeys(cs2) && NoChains(cs1)
    requires forall p :: p in cs1 <==> p in cs2
    ensures Sequential(cs1, d) == Sequential(cs2, d)
  {
    assert NoChains(cs2) by {
      forall i, j | 0 <= i < |cs2| && 0 <= j < |cs2| ensures cs2[i].1 != cs2[j].0 {
        assert cs2[i] in cs1 && cs2[j] in cs1;
        var a :| 0 <= a < |cs1| && cs1[a] == cs2[i];
        var b :| 0 <= b < |cs1| && cs1[b] == cs2[j];
      }
    }
    SequentialIsLookup(cs1, d);
    SequentialIsLookup(cs2, d);
    SamePairsSameKeys(cs1, cs2, d);
    if d in Keys(cs1) {
      var v := ValueAt(cs1, d);
      var i :| 0 <= i < |cs1| && cs1[i] == (d, v);
      assert (d, v) in cs2;
      var a :| 0 <= a < |cs2| && cs2[a] == (d, v);
      assert Keys(cs2)[a] == d;
    }
  }

  lemma SamePairsSameKeys(cs1: seq<(string, string)>, cs2: seq<(string, string)>, d: string)
    requires forall p :: p in cs1 <==> p in cs2
    ensures d in Keys(cs1) <==> d in Keys(cs2)
  {
    if d in Keys(cs1) {
      var a :| 0 <= a < |cs1| && Keys(cs1)[a] == d;
      assert cs1[a] in cs2;
      var b :| 0 <= b < |cs2| && cs2[b] == cs1[a];
      assert Keys(cs2)[b] == d;
    }
    if d in Keys(cs2) {
      var a :| 0 <= a < |cs2| && Keys(cs2)[a] == d;
      assert cs2[a] in cs1;
      var b :| 0 <= b < |cs1| && cs1[b] == cs2[a];
      assert Keys(cs1)[b] == d;
    }
  }

  /** Applying the table in any order gives the same addresses. */
  lemma CorrectionOrderIrrelevant(cs: seq<(string, string)>, d: string)
    requires DistinctKeys(cs)
    requires forall p :: p in cs <==> p in Corrections
    ensures Sequential(cs, d) == Corrected(d)
  {
    CorrectionsWellFormed();
    SamePairsSameResult(Corrections, cs, d);
    SequentialIsLookup(Corrections, d);
  }

  /** Correcting a corrected address changes nothing. */
  lemma CorrectedIdempotent(d: string)
    ensures Corrected(Corrected(d)) == Corrected(d)
  {
    CorrectionsWellFormed();
    LookupIdempotent(Corrections, d);
  }

  /** With no chains, the value of a source is not itself a source. */
  lemma LookupIdempotent(cs: seq<(string, string)>, d: string)
    requires NoChains(cs)
    ensures d in Keys(cs) ==> ValueAt(cs, d) !in Keys(cs)
  {
    if d in Keys(cs) {
      var v := ValueAt(cs, d);
      var i :| 0 <= i < |cs| && cs[i] == (d, v);
      forall j | 0 <= j < |cs| ensures Keys(cs)[j] != v {
        assert cs[i].1 != cs[j].0;
      }
    }
  }

  /** One correction over the whole column: the matching rows take the new
      address, every other row and every other field stay. */
  method ReplaceAddress(cases: seq<Case>, c: (string, string)) returns (out: seq<Case>)
    ensures |out| == |cases|
    ensures forall i :: 0 <= i < |cases| ==>
              out[i] == cases[i].(domicilioDefinitivo := Step(c, cases[i].domicilioDefinitivo))
  {
    out := cases;
    var i := 0;
    while i < |out|
      invariant 0 <= i <= |out| == |cases|
      invariant forall j :: 0 <= j < i ==> out[j] == cases[j].(domicilioDefinitivo := Step(c, cases[j].domicilioDefinitivo))
      invariant forall j :: i <= j < |cases| ==> out[j] == cases[j]
    {
      if out[i].domicilioDefinitivo == c.0 {
        out := out[i := out[i].(domicilioDefinitivo := c.1)];
      }
      i := i + 1;
    }
  }

  /** The twelve writes in their order: each address ends as the table's
      lookup of it. */
  method ApplyCorrections(cases: seq<Case>) returns (out: seq<Case>)
    ensures |out| == |cases|
    ensures forall i :: 0 <= i < |cases| ==>
              out[i] == cases[i].(domicilioDefinitivo := Corrected(cases[i].domicilioDefinitivo))
  {
    out := cases;
    var k := 0;
    while k < |Corrections|
      invariant 0 <= k <= |Corrections| && |out| == |cases|
      invariant forall i :: 0 <= i < |cases| ==>
                  out[i] == cases[i].(domicilioDefinitivo := Sequential(Corrections[..k], cases[i].domicilioDefinitivo))
    {
      assert Corrections[..k + 1][..k] == Corrections[..k];
      out := ReplaceAddress(out, Corrections[k]);
      k := k + 1;
    }
    assert Corrections[..k] == Corrections;
    CorrectionsWellFormed();
    forall i | 0 <= i < |cases|
      ensures Sequential(Corrections, cases[i].domicilioDefinitivo) == Corrected(cases[i].domicilioDefinitivo)
    {
      SequentialIsLookup(Corrections, cases[i].domicilioDefinitivo);
    }
  }

  // ---------------------------------------------------------------------------
  // get_bronchiolitis_locations
  // ---------------------------------------------------------------------------

  predicate HasHc(r: MedicalRecord) {
    r.hc.Some?
  }

  function AdmissionKey(r: MedicalRecord): real {
    r.ingreso as real
  }

  /** `dropna(subset=['HC'])` then `sort_values(by='INGRESO')`. */
  function Admissions(records: seq<MedicalRecord>): (rows: seq<MedicalRecord>)
    ensures forall i :: 0 <= i < |rows| ==> rows[i].hc.Some?
    ensures Sorting.SortedBy(rows, AdmissionKey)
    ensures multiset(rows) == multiset(Filter(records, HasHc))
    ensures forall r :: r in rows <==> r in records && r.hc.Some?
  {
    var kept := Filter(records, HasHc);
    var rows := Sorting.SortBy(kept, AdmissionKey);
    Sorting.SortByMembers(kept, AdmissionKey);
    FilterMembers(records, HasHc);
    forall r ensures r in rows <==> r in records && r.hc.Some? {
      assert r in rows <==> r in kept;
      assert r in kept <==> r in records && HasHc(r);
    }
    rows
  }

  /** The HC column of rows that all have one. */
  function Hcs(rows: seq<MedicalRecord>): (hcs: seq<int>)
    requires forall i :: 0 <= i < |rows| ==> rows[i].hc.Some?
    ensures |hcs| == |rows| && forall i :: 0 <= i < |rows| ==> rows[i].hc == Some(hcs[i])
  {
    seq(|rows|, i requires 0 <= i < |rows| => rows[i].hc.value)
  }

  /** A row with its HC taken out and the flag added. */
  function ToCase(r: MedicalRecord, flag: bool): Case
    requires r.hc.Some?
  {
    Case(r.hc.value, r.ingreso, r.egreso, r.se, r.edad, r.domicilioDefinitivo, flag)
  }

  function ToCases(rows: seq<MedicalRecord>, flags: seq<bool>): (cs: seq<Case>)
    requires |flags| == |rows| && forall i :: 0 <= i < |rows| ==> rows[i].hc.Some?
    ensures |cs| == |rows| && forall i :: 0 <= i < |rows| ==> cs[i] == ToCase(rows[i], flags[i])
  {
    seq(|rows|, i requires 0 <= i < |rows| => ToCase(rows[i], flags[i]))
  }

  /** The case table before the address corrections: one case per record
      with HC, by admission date, a case being a readmission exactly when an
      earlier case has its HC. */
  function FlaggedCases(records: seq<MedicalRecord>): (cs: seq<Case>)
    ensures |cs| == |Admissions(records)|
    ensures forall i :: 0 <= i < |cs| ==> cs[i] == ToCase(Admissions(records)[i], cs[i].esReinternacion)
    ensures forall i, j :: 0 <= i < j < |cs| ==> cs[i].ingreso <= cs[j].ingreso
    ensures forall i :: 0 <= i < |cs| ==> (cs[i].esReinternacion <==> exists j :: 0 <= j < i && cs[j].hc == cs[i].hc)
  {
    var rows := Admissions(records);
    var cs := ToCases(rows, Duplicated(Hcs(rows)));
    CasesInAdmissionOrder(rows, Duplicated(Hcs(rows)));
    CasesFlaggedByHc(rows);
    cs
  }

  lemma CasesInAdmissionOrder(rows: seq<MedicalRecord>, flags: seq<bool>)
    requires |flags| == |rows| && forall i :: 0 <= i < |rows| ==> rows[i].hc.Some?
    requires Sorting.SortedBy(rows, AdmissionKey)
    ensures forall i, j :: 0 <= i < j < |rows| ==> ToCases(rows, flags)[i].ingreso <= ToCases(rows, flags)[j].ingreso
  {
    var cs := ToCases(rows, flags);
    forall i, j | 0 <= i < j < |rows| ensures cs[i].ingreso <= cs[j].ingreso {
      assert AdmissionKey(rows[i]) <= AdmissionKey(rows[j]);
    }
  }

  lemma CasesFlaggedByHc(rows: seq<MedicalRecord>)
    requires forall i :: 0 <= i < |rows| ==> rows[i].hc.Some?
    ensures var cs := ToCases(rows, Duplicated(Hcs(rows)));
            forall i :: 0 <= i < |cs| ==> (cs[i].esReinternacion <==> exists j :: 0 <= j < i && cs[j].hc == cs[i].hc)
  {
    var hcs := Hcs(rows);
    var cs := ToCases(rows, Duplicated(hcs));
    forall i | 0 <= i < |cs| ensures cs[i].esReinternacion <==> exists j :: 0 <= j < i && cs[j].hc == cs[i].hc {
      assert cs[i].esReinternacion == Duplicated(hcs)[i];
      assert forall j :: 0 <= j < |cs| ==> cs[j].hc == hcs[j];
    }
  }

  /** The flag column and the HC column of a case table. */
  function Flags(cs: seq<Case>): (fs: seq<bool>)
    ensures |fs| == |cs| && forall i :: 0 <= i < |cs| ==> fs[i] == cs[i].esReinternacion
  {
    seq(|cs|, i requires 0 <= i < |cs| => cs[i].esReinternacion)
  }

  function CaseHcs(cs: seq<Case>): (hcs: seq<int>)
    ensures |hcs| == |cs| && forall i :: 0 <= i < |cs| ==> hcs[i] == cs[i].hc
  {
    seq(|cs|, i requires 0 <= i < |cs| => cs[i].hc)
  }

  /** A readmission comes after an admission with the same HC on the same
      day or earlier. */
  lemma ReadmissionFollowsAdmission(records: seq<MedicalRecord>, i: nat)
    requires i < |FlaggedCases(records)| && FlaggedCases(records)[i].esReinternacion
    ensures exists j :: 0 <= j < i && FlaggedCases(records)[j].hc == FlaggedCases(records)[i].hc
                        && FlaggedCases(records)[j].ingreso <= FlaggedCases(records)[i].ingreso
  {
    var cs := FlaggedCases(records);
    var j :| 0 <= j < i && cs[j].hc == cs[i].hc;
    assert cs[j].ingreso <= cs[i].ingreso;
  }

  /** There are as many first admissions as distinct clinical records. */
  lemma FirstAdmissionsCountPatients(records: seq<MedicalRecord>)
    ensures Count(Flags(FlaggedCases(records)), false) == |set r | r in records && r.hc.Some? :: r.hc.value|
  {
    var rows := Admissions(records);
    FlagsOfFlaggedCases(records);
    UnflaggedCountsDistinct(Hcs(rows));
    HcsOfAdmissions(records);
  }

  /** The flag column of the case table is the duplicate mask of its HCs. */
  lemma FlagsOfFlaggedCases(records: seq<MedicalRecord>)
    ensures Flags(FlaggedCases(records)) == Duplicated(Hcs(Admissions(records)))
  {
    var cs := FlaggedCases(records);
    var fs, ds := Flags(cs), Duplicated(Hcs(Admissions(records)));
    assert |fs| == |ds|;
    forall i | 0 <= i < |fs| ensures fs[i] == ds[i] {
      assert fs[i] == cs[i].esReinternacion;
    }
  }

  /** The HCs of the admissions are those of the records that have one. */
  lemma HcsOfAdmissions(records: seq<MedicalRecord>)
    ensures Elements(Hcs(Admissions(records))) == set r | r in records && r.hc.Some? :: r.hc.value
  {
    HcsOfRows(Admissions(records), records);
  }

  /** Rows that are the records with HC, in any order, have the HCs of those
      records. */
  lemma HcsOfRows(rows: seq<MedicalRecord>, records: seq<MedicalRecord>)
    requires forall i :: 0 <= i < |rows| ==> rows[i].hc.Some?
    requires forall r :: r in rows <==> r in records && r.hc.Some?
    ensures Elements(Hcs(rows)) == set r | r in records && r.hc.Some? :: r.hc.value
  {
    var hcs := Hcs(rows);
    forall x | x in Elements(hcs) ensures x in set r | r in records && r.hc.Some? :: r.hc.value {
      var i :| 0 <= i < |hcs| && hcs[i] == x;
      assert rows[i] in rows;
    }
    forall x | x in set r | r in records && r.hc.Some? :: r.hc.value ensures x in Elements(hcs) {
      var r :| r in records && r.hc.Some? && r.hc.value == x;
      assert r in rows;
      var i :| 0 <= i < |rows| && rows[i] == r;
      assert hcs[i] == x;
    }
  }

  /** The case table after the address corrections. */
  function CorrectedCases(cs: seq<Case>): (out: seq<Case>)
    ensures |out| == |cs|
    ensures forall i :: 0 <= i < |cs| ==> out[i] == cs[i].(domicilioDefinitivo := Corrected(cs[i].domicilioDefinitivo))
  {
    seq(|cs|, i requires 0 <= i < |cs| => cs[i].(domicilioDefinitivo := Corrected(cs[i].domicilioDefinitivo)))
  }

  function CaseKey(c: Case): string {
    c.domicilioDefinitivo
  }

  function AddressKey(a: Address): string {
    a.domicilioDefinitivo
  }

  /** The output table: the corrected cases joined with the prepared
      addresses on `domicilio_definitivo`.
      Each output row is a corrected case and an input address with the
      same address text; each corrected case is joined with every matching
      prepared address, and a case without one is gone. */
  function Locations(records: seq<MedicalRecord>, addresses: seq<Address>): (out: seq<(Case, Address)>)
    ensures forall k :: 0 <= k < |out| ==>
              && out[k].0 in CorrectedCases(FlaggedCases(records))
              && out[k].1 in addresses
              && out[k].0.domicilioDefinitivo == out[k].1.domicilioDefinitivo
    ensures var cs := CorrectedCases(FlaggedCases(records));
            var latlong := PrepareAddresses(addresses);
            forall i, j :: 0 <= i < |cs| && 0 <= j < |latlong| && cs[i].domicilioDefinitivo == latlong[j].domicilioDefinitivo ==>
              (cs[i], latlong[j]) in out
  {
    Merge.InnerMerge(CorrectedCases(FlaggedCases(records)), PrepareAddresses(addresses), CaseKey, AddressKey)
  }

  /** `get_bronchiolitis_locations`, step by step. */
  method GetBronchiolitisLocations(records: seq<MedicalRecord>, addresses: seq<Address>) returns (out: seq<(Case, Address)>)
    ensures out == Locations(records, addresses)
  {
    var df := Filter(records, HasHc);
    df := Sorting.SortBy(df, AdmissionKey);
    assert df == Admissions(records);
    var flags := DuplicatedScan(Hcs(df));
    var cases := ToCases(df, flags);
    var latlong := PrepareAddresses(addresses);
    cases := ApplyCorrections(cases);
    assert cases == CorrectedCases(FlaggedCases(records));
    out := Merge.InnerMerge(cases, latlong, CaseKey, AddressKey);
  }

  /** A corrected case whose address is in no row of the address table is
      not in the output. */
  lemma UnlocatedCaseDropped(records: seq<MedicalRecord>, addresses: seq<Address>, c: Case)
    requires forall a :: a in addresses ==> a.domicilioDefinitivo != c.domicilioDefinitivo
    ensures forall k :: 0 <= k < |Locations(records, addresses)| ==> Locations(records, addresses)[k].0 != c
  {
    var latlong := PrepareAddresses(addresses);
    assert forall j :: 0 <= j < |latlong| ==> AddressKey(latlong[j]) != CaseKey(c) by {
      forall j | 0 <= j < |latlong| ensures AddressKey(latlong[j]) != CaseKey(c) {
        assert latlong[j] in addresses;
      }
    }
    Merge.InnerMergeDropsUnmatched(CorrectedCases(FlaggedCases(records)), latlong, CaseKey, AddressKey, c);
  }

  // ---------------------------------------------------------------------------
  // get_shape
  // ---------------------------------------------------------------------------

  /** A census tract with the four columns the step keeps. */
  datatype Tract = Tract(link: string, toponimo: string, totalpobl: real, geometry: nat)

  /** A row of the INDEC age table. */
  datatype AgeRow = AgeRow(area: int, edad: int, casos: real)

  /** An INDEC row of age 0 with its two added columns: `link`, the area
      code as text, and `menores_de_un_año`, a copy of `casos`. */
  datatype NewbornRow = NewbornRow(area: int, edad: int, casos: real, link: string, menoresDeUnAnio: real)

  predicate IsNewborn(r: AgeRow) {
    r.edad == 0
  }

  /** `df_indec[df_indec['edad'] == 0]` with `link` and
      `menores_de_un_año` filled from `area` and `casos`. */
  function NewbornRows(indec: seq<AgeRow>): (rows: seq<NewbornRow>)
    ensures |rows| == |Filter(indec, IsNewborn)|
    ensures forall i :: 0 <= i < |rows| ==> AgeRow(rows[i].area, rows[i].edad, rows[i].casos) == Filter(indec, IsNewborn)[i]
    ensures forall i :: 0 <= i < |rows| ==>
              && rows[i].edad == 0
              && rows[i].link == IntToString(rows[i].area)
              && rows[i].menoresDeUnAnio == rows[i].casos
              && AgeRow(rows[i].area, rows[i].edad, rows[i].casos) in indec
    ensures forall r :: r in indec && r.edad == 0 ==> exists i :: 0 <= i < |rows| && rows[i].area == r.area && rows[i].casos == r.casos
  {
    var kept := Filter(indec, IsNewborn);
    var rows := seq(|kept|, i requires 0 <= i < |kept| =>
      NewbornRow(kept[i].area, kept[i].edad, kept[i].casos, IntToString(kept[i].area), kept[i].casos));
    assert forall r :: r in indec && r.edad == 0 ==> exists i :: 0 <= i < |rows| && rows[i].area == r.area && rows[i].casos == r.casos by {
      forall r | r in indec && r.edad == 0 ensures exists i :: 0 <= i < |rows| && rows[i].area == r.area && rows[i].casos == r.casos {
        var j :| 0 <= j < |indec| && indec[j] == r;
        assert r in kept;
        var i :| 0 <= i < |kept| && kept[i] == r;
        assert rows[i].area == r.area;
      }
    }
    rows
  }

  /** Two equal age-0 rows give two newborn rows: the mask keeps rows, not
      distinct values. */
  lemma NewbornDuplicatesKept(r: AgeRow)
    requires r.edad == 0
    ensures |NewbornRows([r, r])| == 2
  {
    assert Filter([r, r], IsNewborn) == [r, r] by {
      FilterAppend([r], [r], IsNewborn);
      assert [r] + [r] == [r, r];
    }
  }

  function TractLink(t: Tract): string {
    t.link
  }

  function NewbornLink(r: NewbornRow): string {
    r.link
  }

  /** `get_shape`: the tracts left-merged with the newborn rows on `link`.
      Every row is a tract, alone or with one of the newborn rows of its own
      link, and every tract is paired with each newborn row of its link. */
  function GetShape(tracts: seq<Tract>, indec: seq<AgeRow>): (shape: seq<(Tract, Option<NewbornRow>)>)
    ensures |shape| >= |tracts|
    ensures forall k :: 0 <= k < |shape| ==> shape[k].0 in tracts
    ensures forall k :: 0 <= k < |shape| && shape[k].1.Some? ==>
              shape[k].1.value in NewbornRows(indec) && shape[k].1.value.edad == 0 && shape[k].1.value.link == shape[k].0.link
    ensures forall i, j :: 0 <= i < |tracts| && 0 <= j < |NewbornRows(indec)| && tracts[i].link == NewbornRows(indec)[j].link ==>
              (tracts[i], Some(NewbornRows(indec)[j])) in shape
  {
    Merge.LeftMergeRows(tracts, NewbornRows(indec), TractLink, NewbornLink);
    Merge.LeftMergeKeepsEveryPair(tracts, NewbornRows(indec), TractLink, NewbornLink);
    Merge.LeftMerge(tracts, NewbornRows(indec), TractLink, NewbornLink)
  }

  /** The merged table of a concatenation of tract tables is the
      concatenation of their merged tables: every tract contributes its own
      rows, in tract order. */
  lemma GetShapeAppend(a: seq<Tract>, b: seq<Tract>, indec: seq<AgeRow>)
    ensures GetShape(a + b, indec) == GetShape(a, indec) + GetShape(b, indec)
  {
    Merge.LeftMergeAppend(a, b, NewbornRows(indec), TractLink, NewbornLink);
  }

  /** The rows of one tract: the tract alone when no newborn row has its
      link, and otherwise one row per newborn row of its link, in order and
      with their repeats. */
  lemma GetShapeOfTract(t: Tract, indec: seq<AgeRow>)
    ensures var p := Merge.Partners(t.link, NewbornRows(indec), NewbornLink);
            && (p == [] ==> GetShape([t], indec) == [(t, None)])
            && (p != [] ==> |GetShape([t], indec)| == |p| &&
                            forall i :: 0 <= i < |p| ==> GetShape([t], indec)[i] == (t, Some(p[i])))
  {
    var rows := NewbornRows(indec);
    var p := Merge.Partners(t.link, rows, NewbornLink);
    Merge.LeftMergeOfOne(t, rows, TractLink, NewbornLink);
    assert GetShape([t], indec) == Merge.LeftMatches(t, rows, TractLink, NewbornLink);
    assert p == [] <==> Merge.Partnerless(t, rows, TractLink, NewbornLink);
    if p != [] {
      Merge.LeftMatchesArePartners(t, rows, TractLink, NewbornLink);
    }
  }

  /** Every tract survives the merge. */
  lemma GetShapeKeepsTracts(tracts: seq<Tract>, indec: seq<AgeRow>, i: nat)
    requires i < |tracts|
    ensures exists k :: 0 <= k < |GetShape(tracts, indec)| && GetShape(tracts, indec)[k].0 == tracts[i]
  {
    var rows := NewbornRows(indec);
    Merge.LeftMergeKeepsEveryRow(tracts, rows, TractLink, NewbornLink, i);
    var m := Merge.LeftMerge(tracts, rows, TractLink, NewbornLink);
    assert m == GetShape(tracts, indec);
    var k :| 0 <= k < |m| && m[k].0 == tracts[i];
  }

  /** With one newborn row per link the merged table is the tract table row
      for row, a tract without a newborn row getting none. */
  lemma GetShapeOneRowPerTract(tracts: seq<Tract>, indec: seq<AgeRow>)
    requires Merge.UniqueKeys(NewbornRows(indec), NewbornLink)
    ensures |GetShape(tracts, indec)| == |tracts|
    ensures forall i :: 0 <= i < |tracts| ==> GetShape(tracts, indec)[i].0 == tracts[i]
    ensures forall i :: 0 <= i < |tracts| ==>
              (GetShape(tracts, indec)[i].1.None? <==>
                 forall j :: 0 <= j < |NewbornRows(indec)| ==> NewbornRows(indec)[j].link != tracts[i].link)
  {
    var rows := NewbornRows(indec);
    Merge.LeftMergeOneToOne(tracts, rows, TractLink, NewbornLink);
    var m := Merge.LeftMerge(tracts, rows, TractLink, NewbornLink);
    assert m == GetShape(tracts, indec);
    forall i | 0 <= i < |tracts|
      ensures m[i].1.None? <==> forall j :: 0 <= j < |rows| ==> rows[j].link != tracts[i].link
    {
      assert m[i].1.None? <==> Merge.Partnerless(tracts[i], rows, TractLink, NewbornLink);
    }
  }

  // ---------------------------------------------------------------------------
  // get_nbi
  // ---------------------------------------------------------------------------

  const NbiColumns: seq<string> := ["toponimo_i", "nbi"]

  /** `get_nbi`: `toponimo_i` cast to text, `Unidades_7` renamed to `nbi`,
      and the two columns kept, in that order. A float cell is written as
      `floatRepr` writes it. */
  function GetNbi(t: Frames.Table, floatRepr: real -> string): (r: Result<Frames.Table>)
    ensures "toponimo_i" !in Frames.Names(t) ==> r == Err(KeyError("toponimo_i"))
    ensures r.Ok? ==> Frames.Names(r.value) == NbiColumns && r.value.height == t.height
  {
    match Frames.CastColumn(t, "toponimo_i", floatRepr)
    case Err(e) => Err(e)
    case Ok(cast) => Frames.Select(Frames.Rename(cast, "Unidades_7", "nbi"), NbiColumns)
  }

  /** With `toponimo_i` and `Unidades_7` and no `nbi`, the result is the two
      columns: `toponimo_i` holding its cells cast to text and `nbi` the
      cells of `Unidades_7`. */
  lemma GetNbiColumns(t: Frames.Table, floatRepr: real -> string)
    requires Frames.WellFormed(t)
    requires "toponimo_i" in Frames.Names(t) && "Unidades_7" in Frames.Names(t) && "nbi" !in Frames.Names(t)
    ensures GetNbi(t, floatRepr).Ok?
    ensures GetNbi(t, floatRepr).value.columns[0] == ("toponimo_i", Frames.AsStrings(ValueAt(t.columns, "toponimo_i"), floatRepr))
    ensures GetNbi(t, floatRepr).value.columns[1] == ("nbi", ValueAt(t.columns, "Unidades_7"))
  {
    var cast := Frames.CastColumn(t, "toponimo_i", floatRepr).value;
    assert DistinctKeys(cast.columns);
    Frames.RenameFacts(cast, "Unidades_7", "nbi");
    var r := Frames.Rename(cast, "Unidades_7", "nbi");
    assert "toponimo_i" in Frames.Names(r) && "nbi" in Frames.Names(r);
    Frames.SelectTwo(r, "toponimo_i", "nbi");
  }

  /** Without `toponimo_i` the cast raises KeyError; with it but without
      both `Unidades_7` and `nbi`, the projection raises KeyError for `nbi`. */
  lemma GetNbiMissingColumn(t: Frames.Table, floatRepr: real -> string)
    requires Frames.WellFormed(t)
    requires "toponimo_i" !in Frames.Names(t) || ("Unidades_7" !in Frames.Names(t) && "nbi" !in Frames.Names(t))
    ensures GetNbi(t, floatRepr) == Err(KeyError(if "toponimo_i" !in Frames.Names(t) then "toponimo_i" else "nbi"))
  {
    if "toponimo_i" in Frames.Names(t) {
      var cast := Frames.CastColumn(t, "toponimo_i", floatRepr).value;
      Frames.RenameNames(cast, "Unidades_7", "nbi");
      NbiNotSelected(Frames.Rename(cast, "Unidades_7", "nbi"));
    }
  }

  /** Projecting a table that has `toponimo_i` but no `nbi` raises KeyError
      for `nbi`. */
  lemma NbiNotSelected(r: Frames.Table)
    requires "toponimo_i" in Frames.Names(r) && "nbi" !in Frames.Names(r)
    ensures Frames.Select(r, NbiColumns) == Err(KeyError("nbi"))
  {
    assert NbiColumns == ["toponimo_i", "nbi"];
  }
}
