/** tasks/raw.py: the earlier cleaning steps of the pipeline. `get_hc` flags
    readmissions in the order of the spreadsheet and only then sorts by
    admission date; `get` prepares the address table as `get_bronchiolitis_locations`
    does; `shape` adds the case rate per 10 000 inhabitants to the tracts. */
module Raw {
  import opened PyBase
  import Sorting
  import Get

  // ---------------------------------------------------------------------------
  // get_hc
  // ---------------------------------------------------------------------------

  /** A row of the sheet, cut to its seven kept columns. */
  datatype SheetRow = SheetRow(hc: Option<int>, ingreso: int, egreso: int, se: real, edad: real,
                               domicilio: string, alternativa: string)

  /** A row of the output: a sheet row with HC and its readmission flag. */
  datatype HcRow = HcRow(hc: int, ingreso: int, egreso: int, se: real, edad: real,
                         domicilio: string, alternativa: string, esReinternacion: bool)

  /** `str.upper` on one character, for the ASCII letters. */
  function Upper(c: char): (u: char)
    ensures !('a' <= u <= 'z')
    ensures !('a' <= c <= 'z') ==> u == c
  {
    if 'a' <= c <= 'z' then (c as int - 32) as char else c
  }

  /** `df.columns.str.upper()` on one name. */
  function UpperName(column: string): (name: string)
    ensures |name| == |column|
    ensures forall i :: 0 <= i < |name| ==> !('a' <= name[i] <= 'z')
    ensures forall i :: 0 <= i < |column| && !('a' <= column[i] <= 'z') ==> name[i] == column[i]
  {
    seq(|column|, i requires 0 <= i < |column| => Upper(column[i]))
  }

  /** The output columns of `get_hc`. */
  lemma HcColumnNames()
    ensures UpperName("HC") == "HC" && UpperName("INGRESO") == "INGRESO"
    ensures UpperName("Edad") == "EDAD" && UpperName("Domicilio") == "DOMICILIO"
    ensures UpperName("es_reinternacion") == "ES_REINTERNACION"
  {
    UpperNameKeeps("HC");
    UpperNameKeeps("INGRESO");
    MixedCaseHcColumnNames();
    FlagColumnName();
  }

  lemma MixedCaseHcColumnNames()
    ensures UpperName("Edad") == "EDAD" && UpperName("Domicilio") == "DOMICILIO"
  {
  }

  lemma FlagColumnName()
    ensures UpperName("es_reinternacion") == "ES_REINTERNACION"
  {
  }

  /** A name without lower-case letters is kept. */
  lemma UpperNameKeeps(column: string)
    requires forall i :: 0 <= i < |column| ==> !('a' <= column[i] <= 'z')
    ensures UpperName(column) == column
  {
  }

  predicate HasHc(r: SheetRow) {
    r.hc.Some?
  }

  /** The HC column of rows that all have one, read as `Get.Hcs` reads it
      from medical records. */
  function SheetHcs(rows: seq<SheetRow>): (hcs: seq<int>)
    requires forall i :: 0 <= i < |rows| ==> rows[i].hc.Some?
    ensures |hcs| == |rows| && forall i :: 0 <= i < |rows| ==> rows[i].hc == Some(hcs[i])
  {
    Get.Hcs(seq(|rows|, i requires 0 <= i < |rows| => AsRecord(rows[i])))
  }

  function ToHcRow(r: SheetRow, flag: bool): HcRow
    requires r.hc.Some?
  {
    HcRow(r.hc.value, r.ingreso, r.egreso, r.se, r.edad, r.domicilio, r.alternativa, flag)
  }

  function ToHcRows(rows: seq<SheetRow>, flags: seq<bool>): (out: seq<HcRow>)
    requires |flags| == |rows| && forall i :: 0 <= i < |rows| ==> rows[i].hc.Some?
    ensures |out| == |rows| && forall i :: 0 <= i < |rows| ==> out[i] == ToHcRow(rows[i], flags[i])
  {
    seq(|rows|, i requires 0 <= i < |rows| => ToHcRow(rows[i], flags[i]))
  }

  /** The rows with HC in sheet order, flagged: a row is a readmission when
      an earlier row of the sheet has its HC. */
  function SheetFlagged(sheet: seq<SheetRow>): (out: seq<HcRow>)
    ensures |out| == |Filter(sheet, HasHc)|
    ensures forall i :: 0 <= i < |out| ==> out[i] == ToHcRow(Filter(sheet, HasHc)[i], out[i].esReinternacion)
    ensures forall i :: 0 <= i < |out| ==> (out[i].esReinternacion <==> exists j :: 0 <= j < i && out[j].hc == out[i].hc)
  {
    var rows := Filter(sheet, HasHc);
    ToHcRows(rows, Get.Duplicated(SheetHcs(rows)))
  }

  function IngresoKey(r: HcRow): real {
    r.ingreso as real
  }

  /** `get_hc`: drop the rows without HC, flag, then sort by admission. */
  method GetHc(sheet: seq<SheetRow>) returns (out: seq<HcRow>)
    ensures out == Sorting.SortBy(SheetFlagged(sheet), IngresoKey)
    ensures Sorting.SortedBy(out, IngresoKey)
    ensures multiset(out) == multiset(SheetFlagged(sheet))
  {
    var df := Filter(sheet, HasHc);
    var flags := Get.DuplicatedScan(SheetHcs(df));
    var flagged := ToHcRows(df, flags);
    out := Sorting.SortBy(flagged, IngresoKey);
  }

  function AsRecord(r: SheetRow): Get.MedicalRecord {
    Get.MedicalRecord(r.hc, r.ingreso, r.egreso, r.se, r.edad, r.domicilio)
  }

  /** A patient admitted on day 10 and again on day 20, the later admission
      written first in the sheet. */
  const Later := SheetRow(Some(7), 20, 25, 3.0, 0.5, "Alt 213", "")
  const Earlier := SheetRow(Some(7), 10, 12, 2.0, 0.4, "Alt 213", "")

  lemma SheetKeepsBoth()
    ensures Filter([Later, Earlier], HasHc) == [Later, Earlier]
  {
    assert [Later, Earlier][1..] == [Earlier] && [Earlier][1..] == [];
  }

  lemma SheetFlaggedPair()
    ensures SheetFlagged([Later, Earlier]) == [ToHcRow(Later, false), ToHcRow(Earlier, true)]
  {
    SheetKeepsBoth();
    var flagged := SheetFlagged([Later, Earlier]);
    assert !flagged[0].esReinternacion && flagged[1].esReinternacion;
  }

  /** In `get_hc` the flag follows the sheet: the earlier admission is the
      one flagged as the readmission. */
  lemma SheetOrderFlagsEarlier()
    ensures Sorting.SortBy(SheetFlagged([Later, Earlier]), IngresoKey) == [ToHcRow(Earlier, true), ToHcRow(Later, false)]
  {
    SheetFlaggedPair();
    var flagged := [ToHcRow(Later, false), ToHcRow(Earlier, true)];
    assert multiset(flagged) == multiset{ToHcRow(Earlier, true), ToHcRow(Later, false)};
    Sorting.SortedPair(Sorting.SortBy(flagged, IngresoKey), ToHcRow(Earlier, true), ToHcRow(Later, false), IngresoKey);
  }

  lemma RecordsKeepBoth()
    ensures Filter([AsRecord(Later), AsRecord(Earlier)], Get.HasHc) == [AsRecord(Later), AsRecord(Earlier)]
  {
    assert [AsRecord(Later), AsRecord(Earlier)][1..] == [AsRecord(Earlier)] && [AsRecord(Earlier)][1..] == [];
  }

  lemma AdmissionsByDate()
    ensures Get.Admissions([AsRecord(Later), AsRecord(Earlier)]) == [AsRecord(Earlier), AsRecord(Later)]
  {
    RecordsKeepBoth();
    var rows := Get.Admissions([AsRecord(Later), AsRecord(Earlier)]);
    assert multiset(rows) == multiset{AsRecord(Earlier), AsRecord(Later)};
    Sorting.SortedPair(rows, AsRecord(Earlier), AsRecord(Later), Get.AdmissionKey);
  }

  /** In `get_bronchiolitis_locations` the same rows give the flag to the
      later admission. */
  lemma DateOrderFlagsLater()
    ensures Get.FlaggedCases([AsRecord(Later), AsRecord(Earlier)]) ==
            [Get.ToCase(AsRecord(Earlier), false), Get.ToCase(AsRecord(Later), true)]
  {
    AdmissionsByDate();
    var cs := Get.FlaggedCases([AsRecord(Later), AsRecord(Earlier)]);
    assert !cs[0].esReinternacion && cs[1].esReinternacion;
  }

  // ---------------------------------------------------------------------------
  // get
  // ---------------------------------------------------------------------------

  /** `get`: the address table sorted by `latitud ** 2 + longitud ** 2` and
      without duplicate rows, the same preparation as in
      `get_bronchiolitis_locations`. */
  method PrepareAddressTable(addresses: seq<Get.Address>) returns (out: seq<Get.Address>)
    ensures out == Get.PrepareAddresses(addresses)
  {
    var df := Sorting.SortBy(addresses, Get.DistanceKey);
    df := Get.DropDuplicates(df);
    out := df;
  }

  // ---------------------------------------------------------------------------
  // shape
  // ---------------------------------------------------------------------------

  /** A float64 result: a zero population gives an infinite rate or NaN,
      never an exception. */
  datatype Float = Finite(x: real) | PosInf | NegInf | NaN

  /** `casos / totalpobl * 10_000` for one tract. */
  function Rate(casos: real, totalpobl: real): (r: Float)
    ensures r.Finite? <==> totalpobl != 0.0
    ensures totalpobl == 0.0 ==> r == if casos > 0.0 then PosInf else if casos < 0.0 then NegInf else NaN
  {
    if totalpobl != 0.0 then Finite(casos / totalpobl * 10000.0)
    else if casos > 0.0 then PosInf
    else if casos < 0.0 then NegInf
    else NaN
  }

  /** The rate is the number of cases per 10 000 inhabitants: multiplied by
      the population it gives back the cases, ten thousand times. */
  lemma RateTimesPopulation(casos: real, totalpobl: real)
    requires totalpobl != 0.0
    ensures Rate(casos, totalpobl).x * totalpobl == casos * 10000.0
  {
    calc {
      Rate(casos, totalpobl).x * totalpobl;
      (casos / totalpobl * 10000.0) * totalpobl;
      (casos / totalpobl * totalpobl) * 10000.0;
      casos * 10000.0;
    }
  }

  /** No cases, no rate, in a tract with inhabitants. */
  lemma ZeroCasesZeroRate(totalpobl: real)
    requires totalpobl != 0.0
    ensures Rate(0.0, totalpobl) == Finite(0.0)
  {
  }

  /** For a fixed population, more cases give a higher rate. */
  lemma RateMonotone(c1: real, c2: real, totalpobl: real)
    requires totalpobl > 0.0 && c1 <= c2
    ensures Rate(c1, totalpobl).x <= Rate(c2, totalpobl).x
  {
    assert c2 / totalpobl - c1 / totalpobl == (c2 - c1) / totalpobl;
    assert (c2 - c1) / totalpobl >= 0.0;
  }
}
