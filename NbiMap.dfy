/** tasks/nbi_map.py: binning each census unit by its share of households
    with unsatisfied basic needs (NBI), and the legend of the NBI map with
    one entry per category and the number of units in it. */
module NbiMap {
  import opened PyBase

  /** A row of the NBI table; `cluster` is None (NaN in pandas) until a mask
      write gives it a category. */
  datatype NbiRow = NbiRow(toponimo: string, nbi: real, cluster: Option<string>)

  const Above25 := "+ 25%"
  const From15To25 := "15 - 24,99%"
  const From5To15 := "5 - 14,99%"
  const Below5 := "0 - 4,99%"

  /** The reference binning. A value of exactly 5 falls in no bin. */
  function NbiCluster(nbi: real): (c: Option<string>)
    ensures c.None? <==> nbi == 5.0
  {
    if nbi > 25.0 then Some(Above25)
    else if nbi > 15.0 then Some(From15To25)
    else if nbi > 5.0 then Some(From5To15)
    else if nbi < 5.0 then Some(Below5)
    else None
  }

  /** `df.loc[mask, 'cluster'] = value`: the rows whose nbi satisfies the mask
      take the value, every other row is left as it was. */
  method MaskedAssign(rows: seq<NbiRow>, mask: real -> bool, value: string) returns (out: seq<NbiRow>)
    ensures |out| == |rows|
    ensures forall i :: 0 <= i < |rows| ==>
              out[i] == if mask(rows[i].nbi) then rows[i].(cluster := Some(value)) else rows[i]
  {
    out := rows;
    var i := 0;
    while i < |out|
      invariant 0 <= i <= |out| == |rows|
      invariant forall j :: 0 <= j < i ==> out[j] == if mask(rows[j].nbi) then rows[j].(cluster := Some(value)) else rows[j]
      invariant forall j :: i <= j < |rows| ==> out[j] == rows[j]
    {
      if mask(out[i].nbi) {
        out := out[i := out[i].(cluster := Some(value))];
      }
      i := i + 1;
    }
  }

  /** `get_nbi_clusters`: the four masked writes in the order of the source.
      The masks do not overlap, so each row ends with the reference bin, and a
      row with nbi exactly 5 keeps no cluster. */
  method GetNbiClusters(table: seq<(string, real)>) returns (out: seq<NbiRow>)
    ensures |out| == |table|
    ensures forall i :: 0 <= i < |table| ==> out[i] == NbiRow(table[i].0, table[i].1, NbiCluster(table[i].1))
  {
    var rows := seq(|table|, i requires 0 <= i < |table| => NbiRow(table[i].0, table[i].1, None));
    rows := MaskedAssign(rows, x => x > 25.0, Above25);
    rows := MaskedAssign(rows, x => x > 15.0 && !(x > 25.0), From15To25);
    rows := MaskedAssign(rows, x => x > 5.0 && !(x > 15.0), From5To15);
    rows := MaskedAssign(rows, x => x < 5.0, Below5);
    out := rows;
  }

  /** The rows of the docstring's example table. */
  lemma DocstringExamples()
    ensures NbiCluster(3.29) == Some("0 - 4,99%")
    ensures NbiCluster(8.23) == Some("5 - 14,99%")
    ensures NbiCluster(6.51) == Some("5 - 14,99%")
  {
  }

  /** The bins by their bounds: 25 belongs to the 15-25 bin, 15 to the 5-15
      bin, and 5 to none. */
  lemma BinBounds(nbi: real)
    ensures NbiCluster(nbi) == Some(Above25) <==> nbi > 25.0
    ensures NbiCluster(nbi) == Some(From15To25) <==> 15.0 < nbi <= 25.0
    ensures NbiCluster(nbi) == Some(From5To15) <==> 5.0 < nbi <= 15.0
    ensures NbiCluster(nbi) == Some(Below5) <==> nbi < 5.0
  {
  }

  // ---------------------------------------------------------------------------
  // get_nbi_map legend
  // ---------------------------------------------------------------------------

  const OrderedCategoryLabels: seq<string> := [Below5, From5To15, From15To25, Above25]
  const CategoryColors: seq<string> := ["white", "yellow", "orange", "red"]

  /** The groups of `groupby('cluster')`: the categories that occur, each
      once; rows without a cluster form no group. */
  function Groups(clusters: seq<Option<string>>): (gs: seq<string>)
    ensures forall g :: g in gs <==> Some(g) in clusters
    ensures Distinct(gs)
  {
    if clusters == [] then []
    else
      var init := clusters[..|clusters| - 1];
      var rest := Groups(init);
      match clusters[|clusters| - 1]
      case None =>
        assert clusters == init + [None];
        rest
      case Some(g) =>
        assert clusters == init + [Some(g)];
        if g in rest then rest else rest + [g]
  }

  /** `"{} ({})".format(ctype, n)` */
  function MarkLabel(ctype: string, n: nat): string {
    ctype + " (" + NatToString(n) + ")"
  }

  /** A legend entry: its face colour and its label. */
  datatype Mark = Mark(facecolor: string, text: string)

  function ClusterPalette(): (p: Dict<string, string>)
    ensures Keys(p) == OrderedCategoryLabels
  {
    Zip(OrderedCategoryLabels, CategoryColors)
  }

  lemma LabelsDistinct()
    ensures Distinct(OrderedCategoryLabels)
  {
  }

  /** The palette is positional: the j-th category has the j-th colour. */
  lemma PaletteAt(j: nat)
    requires j < 4
    ensures OrderedCategoryLabels[j] in Keys(ClusterPalette())
    ensures ValueAt(ClusterPalette(), OrderedCategoryLabels[j]) == CategoryColors[j]
  {
    LabelsDistinct();
    var p := ClusterPalette();
    assert DistinctKeys(p) && p[j] == (OrderedCategoryLabels[j], CategoryColors[j]);
  }

  /** `data_n` once the groups in `done` have been counted: every category
      has its entry, the counted ones their group size and the others 0. */
  ghost predicate Tallied(d: Dict<string, nat>, clusters: seq<Option<string>>, done: seq<string>) {
    && Keys(d) == OrderedCategoryLabels
    && forall j :: 0 <= j < 4 ==>
         ValueAt(d, OrderedCategoryLabels[j]) ==
           if OrderedCategoryLabels[j] in done then Count(clusters, Some(OrderedCategoryLabels[j])) else 0
  }

  /** `{label: 0 for label in ordered_category_labels}` */
  function ZeroCounts(): (d: Dict<string, nat>)
    ensures forall clusters :: Tallied(d, clusters, [])
  {
    LabelsDistinct();
    var zeros: seq<nat> := [0, 0, 0, 0];
    ZipDictPositional(OrderedCategoryLabels, zeros);
    FromPairs(Zip(OrderedCategoryLabels, zeros))
  }

  /** The first loop of `get_nbi_map`: every group's colour is looked up (a
      category outside the palette raises KeyError) and `data_n[ctype]` is
      set to the size of the group. */
  method CountCategories(clusters: seq<Option<string>>) returns (r: Result<Dict<string, nat>>)
    ensures r.Ok? <==> forall g :: Some(g) in clusters ==> g in OrderedCategoryLabels
    ensures r.Err? ==> exists g :: Some(g) in clusters && g !in OrderedCategoryLabels && r.error == KeyError(g)
    ensures r.Ok? ==> Keys(r.value) == OrderedCategoryLabels
    ensures r.Ok? ==> forall j :: 0 <= j < 4 ==> ValueAt(r.value, OrderedCategoryLabels[j]) == Count(clusters, Some(OrderedCategoryLabels[j]))
  {
    var clusterPalette := ClusterPalette();
    var dataN := ZeroCounts();
    var groups := Groups(clusters);
    var k := 0;
    while k < |groups|
      invariant 0 <= k <= |groups|
      invariant forall i :: 0 <= i < k ==> groups[i] in Keys(clusterPalette)
      invariant Tallied(dataN, clusters, groups[..k])
    {
      var ctype := groups[k];
      var color := Lookup(clusterPalette, ctype);
      if color.Err? {
        assert Some(ctype) in clusters;
        return Err(color.error);
      }
      TakeOneMore(groups, k);
      PutCount(dataN, ctype, clusters, groups[..k]);
      dataN := Put(dataN, ctype, Count(clusters, Some(ctype)));
      k := k + 1;
    }
    AllCounted(dataN, clusters, groups);
    r := Ok(dataN);
  }

  lemma TakeOneMore<T>(s: seq<T>, k: nat)
    requires k < |s|
    ensures s[..k + 1] == s[..k] + [s[k]]
  {
  }

  /** After the last group every category holds its group size, and every
      category that occurs is in the palette. */
  lemma AllCounted(d: Dict<string, nat>, clusters: seq<Option<string>>, groups: seq<string>)
    requires groups == Groups(clusters)
    requires forall i :: 0 <= i < |groups| ==> groups[i] in Keys(ClusterPalette())
    requires Tallied(d, clusters, groups[..|groups|])
    ensures forall g :: Some(g) in clusters ==> g in OrderedCategoryLabels
    ensures Keys(d) == OrderedCategoryLabels
    ensures forall j :: 0 <= j < 4 ==> ValueAt(d, OrderedCategoryLabels[j]) == Count(clusters, Some(OrderedCategoryLabels[j]))
  {
    assert groups[..|groups|] == groups;
    GroupsInPalette(clusters, groups);
    forall j | 0 <= j < 4
      ensures ValueAt(d, OrderedCategoryLabels[j]) == Count(clusters, Some(OrderedCategoryLabels[j]))
    {
      CountedOrAbsent(d, clusters, groups, j);
    }
  }

  /** Every category that occurs is a group, and every group is a key of the
      palette. */
  lemma GroupsInPalette(clusters: seq<Option<string>>, groups: seq<string>)
    requires groups == Groups(clusters)
    requires forall i :: 0 <= i < |groups| ==> groups[i] in Keys(ClusterPalette())
    ensures forall g :: Some(g) in clusters ==> g in OrderedCategoryLabels
  {
    forall g | Some(g) in clusters ensures g in OrderedCategoryLabels {
      assert g in groups;
      var i :| 0 <= i < |groups| && groups[i] == g;
    }
  }

  /** A category that is not a group occurs nowhere, so its count is 0. */
  lemma CountedOrAbsent(d: Dict<string, nat>, clusters: seq<Option<string>>, groups: seq<string>, j: nat)
    requires j < 4 && groups == Groups(clusters) && Tallied(d, clusters, groups)
    ensures ValueAt(d, OrderedCategoryLabels[j]) == Count(clusters, Some(OrderedCategoryLabels[j]))
  {
    CountPositive(clusters, Some(OrderedCategoryLabels[j]));
  }

  /** One turn of the count loop. */
  lemma PutCount(d: Dict<string, nat>, c: string, clusters: seq<Option<string>>, done: seq<string>)
    requires Tallied(d, clusters, done) && c in OrderedCategoryLabels
    ensures Tallied(Put(d, c, Count(clusters, Some(c))), clusters, done + [c])
  {
    var n := Count(clusters, Some(c));
    KeysOfPut(d, c, n);
    assert Keys(Put(d, c, n)) == OrderedCategoryLabels;
    forall j | 0 <= j < 4
      ensures ValueAt(Put(d, c, n), OrderedCategoryLabels[j]) ==
                if OrderedCategoryLabels[j] in done + [c] then Count(clusters, Some(OrderedCategoryLabels[j])) else 0
    {
      if OrderedCategoryLabels[j] == c {
        ValueAtPut(d, c, n);
      } else {
        ValueAtPutOther(d, c, n, OrderedCategoryLabels[j]);
      }
    }
  }

  /** The legend entry of the j-th category: its colour and its count. */
  function LegendMark(clusters: seq<Option<string>>, j: nat): Mark
    requires j < 4
  {
    Mark(CategoryColors[j], MarkLabel(OrderedCategoryLabels[j], Count(clusters, Some(OrderedCategoryLabels[j]))))
  }

  /** The mark built from the palette and the counts is the j-th entry. */
  lemma MarkFromCounts(clusters: seq<Option<string>>, d: Dict<string, nat>, j: nat)
    requires j < 4 && Keys(d) == OrderedCategoryLabels
    requires ValueAt(d, OrderedCategoryLabels[j]) == Count(clusters, Some(OrderedCategoryLabels[j]))
    ensures OrderedCategoryLabels[j] in Keys(ClusterPalette())
    ensures Mark(ValueAt(ClusterPalette(), OrderedCategoryLabels[j]),
                 MarkLabel(OrderedCategoryLabels[j], ValueAt(d, OrderedCategoryLabels[j]))) == LegendMark(clusters, j)
  {
    PaletteAt(j);
  }

  /** `get_nbi_map`'s legend: the counts, then one mark per category in the
      fixed order, coloured from the palette and labelled with the count. */
  method NbiLegend(clusters: seq<Option<string>>) returns (r: Result<seq<Mark>>)
    ensures r.Ok? <==> forall g :: Some(g) in clusters ==> g in OrderedCategoryLabels
    ensures r.Err? ==> exists g :: Some(g) in clusters && g !in OrderedCategoryLabels && r.error == KeyError(g)
    ensures r.Ok? ==> |r.value| == 4 && forall j :: 0 <= j < 4 ==>
              r.value[j] == Mark(CategoryColors[j], MarkLabel(OrderedCategoryLabels[j], Count(clusters, Some(OrderedCategoryLabels[j]))))
  {
    var dataN := CountCategories(clusters);
    if dataN.Err? {
      return Err(dataN.error);
    }
    var pmarks := LegendMarks(clusters, dataN.value);
    r := Ok(pmarks);
  }

  /** One more entry of the legend, in order. */
  lemma NextMark(clusters: seq<Option<string>>, pmarks: seq<Mark>, mark: Mark)
    requires |pmarks| < 4 && mark == LegendMark(clusters, |pmarks|)
    requires forall m :: 0 <= m < |pmarks| ==> pmarks[m] == LegendMark(clusters, m)
    ensures forall m :: 0 <= m < |pmarks + [mark]| ==> (pmarks + [mark])[m] == LegendMark(clusters, m)
  {
  }

  /** The second loop of `get_nbi_map`: one mark per category in the fixed
      order, coloured from the palette and labelled with its count. */
  method LegendMarks(clusters: seq<Option<string>>, dataN: Dict<string, nat>) returns (pmarks: seq<Mark>)
    requires Keys(dataN) == OrderedCategoryLabels
    requires forall j :: 0 <= j < 4 ==> ValueAt(dataN, OrderedCategoryLabels[j]) == Count(clusters, Some(OrderedCategoryLabels[j]))
    ensures |pmarks| == 4 && forall j :: 0 <= j < 4 ==> pmarks[j] == LegendMark(clusters, j)
  {
    var clusterPalette := ClusterPalette();
    pmarks := [];
    var j := 0;
    while j < 4
      invariant 0 <= j <= 4 && |pmarks| == j
      invariant forall m :: 0 <= m < j ==> pmarks[m] == LegendMark(clusters, m)
    {
      var ctype := OrderedCategoryLabels[j];
      MarkFromCounts(clusters, dataN, j);
      var mark := Mark(ValueAt(clusterPalette, ctype), MarkLabel(ctype, ValueAt(dataN, ctype)));
      NextMark(clusters, pmarks, mark);
      pmarks := pmarks + [mark];
      j := j + 1;
    }
  }

  /** A category with no unit still gets its entry, with a count of 0. */
  lemma AbsentCategoryCountsZero(clusters: seq<Option<string>>, j: nat)
    requires j < 4 && Some(OrderedCategoryLabels[j]) !in clusters
    ensures Count(clusters, Some(OrderedCategoryLabels[j])) == 0
  {
    CountPositive(clusters, Some(OrderedCategoryLabels[j]));
  }
}
