/** tasks/spatial.py: the cluster labels of `get_moranplot` and
    `get_moranplot_bv`. Each unit's `(p_sim <= .05) * q` is turned into a
    string and looked up in the configured label dictionary; the labels
    become the `label` column of the tracts table, which is then cut down to
    three columns, and the Moran-plot colours are picked for the labels. */
module TasksSpatial {
  import opened PyBase
  import opened Frames
  import Spatial
  import SpatialUtils

  /** The dictionary key of a unit: `str(quadfilter)`. */
  function QuadfilterKey(u: (int, real)): string {
    IntToString(Spatial.Quadfilter(u))
  }

  /** Unit `i` is the first whose key is not in the dictionary. */
  ghost predicate FirstUnknownAt(lisa: Spatial.Lisa, labelByQuadfilter: Dict<string, string>, i: int) {
    && 0 <= i < |lisa|
    && QuadfilterKey(lisa[i]) !in Keys(labelByQuadfilter)
    && forall j :: 0 <= j < i ==> QuadfilterKey(lisa[j]) in Keys(labelByQuadfilter)
  }

  /** Behind a unit with a known key, the first unknown key of the rest is
      the first unknown key of the whole. */
  lemma UnknownShifts(lisa: Spatial.Lisa, labelByQuadfilter: Dict<string, string>, e: Error)
    requires |lisa| >= 1 && QuadfilterKey(lisa[0]) in Keys(labelByQuadfilter)
    requires exists i :: FirstUnknownAt(lisa[1..], labelByQuadfilter, i) && e == KeyError(QuadfilterKey(lisa[1..][i]))
    ensures exists i :: FirstUnknownAt(lisa, labelByQuadfilter, i) && e == KeyError(QuadfilterKey(lisa[i]))
  {
    var tail := lisa[1..];
    var i :| FirstUnknownAt(tail, labelByQuadfilter, i) && e == KeyError(QuadfilterKey(tail[i]));
    assert forall j :: 1 <= j < i + 1 ==> lisa[j] == tail[j - 1];
    assert FirstUnknownAt(lisa, labelByQuadfilter, i + 1);
  }

  /** `[LABEL_BY_QUADFILTER_DICT[str(i)] for i in quadfilter]`: a KeyError for
      the first unit whose key is missing, otherwise one label per unit. */
  function QuadfilterLabels(lisa: Spatial.Lisa, labelByQuadfilter: Dict<string, string>): (r: Result<seq<string>>)
    ensures r.Ok? <==> forall i :: 0 <= i < |lisa| ==> QuadfilterKey(lisa[i]) in Keys(labelByQuadfilter)
    ensures r.Err? ==> exists i :: FirstUnknownAt(lisa, labelByQuadfilter, i) && r.error == KeyError(QuadfilterKey(lisa[i]))
    ensures r.Ok? ==> |r.value| == |lisa|
    ensures r.Ok? ==> forall i :: 0 <= i < |lisa| ==> Lookup(labelByQuadfilter, QuadfilterKey(lisa[i])) == Ok(r.value[i])
  {
    if lisa == [] then Ok([])
    else match Lookup(labelByQuadfilter, QuadfilterKey(lisa[0]))
      case Err(e) =>
        assert FirstUnknownAt(lisa, labelByQuadfilter, 0);
        Err(e)
      case Ok(l) =>
        var tail := lisa[1..];
        match QuadfilterLabels(tail, labelByQuadfilter)
        case Err(e) =>
          UnknownShifts(lisa, labelByQuadfilter, e);
          Err(e)
        case Ok(ls) =>
          var r := [l] + ls;
          assert forall i :: 0 <= i < |lisa| ==> Lookup(labelByQuadfilter, QuadfilterKey(lisa[i])) == Ok(r[i]) by {
            forall i | 0 < i < |lisa| ensures Lookup(labelByQuadfilter, QuadfilterKey(lisa[i])) == Ok(r[i]) {
              assert tail[i - 1] == lisa[i] && r[i] == ls[i - 1];
            }
          }
          Ok(r)
  }

  /** A significant unit (p-value at most 0.05, the bound included) is looked
      up by its quadrant, every other unit under "0". */
  lemma KeyOfUnit(u: (int, real))
    ensures u.1 <= Spatial.Significance ==> QuadfilterKey(u) == IntToString(u.0)
    ensures u.1 > Spatial.Significance ==> QuadfilterKey(u) == "0"
  {
  }

  const OrderedColumns: seq<string> := ["toponimo_i", "label", "geometry"]

  /** The label assignment and projection of `get_moranplot` (lines 131-147)
      and `get_moranplot_bv` (lines 186-204; there the tracts table has
      already been merged with the NBI table). `lisa` is the local Moran
      output of `get_spatials` for that table. The result is the saved table
      and the colours handed to the Moran plot. */
  method ClusterLabelsTable(tracts: Table, lisa: Spatial.Lisa, labelByQuadfilter: Dict<string, string>,
                            colorByLabelName: Dict<string, string>) returns (r: Result<(Table, seq<string>)>)
    ensures QuadfilterLabels(lisa, labelByQuadfilter).Err? ==> r == Err(QuadfilterLabels(lisa, labelByQuadfilter).error)
    ensures QuadfilterLabels(lisa, labelByQuadfilter).Ok? && |lisa| != tracts.height ==> r == Err(ValueError)
    ensures r.Ok? <==> QuadfilterLabels(lisa, labelByQuadfilter).Ok? && |lisa| == tracts.height
                       && "toponimo_i" in Names(tracts) && "geometry" in Names(tracts)
    ensures QuadfilterLabels(lisa, labelByQuadfilter).Ok? && |lisa| == tracts.height
            && !("toponimo_i" in Names(tracts) && "geometry" in Names(tracts)) ==>
              r == Err(KeyError(if "toponimo_i" !in Names(tracts) then "toponimo_i" else "geometry"))
    ensures r.Ok? ==>
              var labels := QuadfilterLabels(lisa, labelByQuadfilter).value;
              var saved := r.value.0;
              && Names(saved) == OrderedColumns
              && saved.height == tracts.height
              && saved.columns[0] == ("toponimo_i", ValueAt(tracts.columns, "toponimo_i"))
              && saved.columns[1] == ("label", Texts(labels))
              && saved.columns[2] == ("geometry", ValueAt(tracts.columns, "geometry"))
              && r.value.1 == SpatialUtils.ColorsForLabels(labels, colorByLabelName)
  {
    var labels := QuadfilterLabels(lisa, labelByQuadfilter);
    if labels.Err? {
      return Err(labels.error);
    }
    var pmTracts := new Frame(tracts);
    var ok := pmTracts.SetColumn("label", Texts(labels.value));
    if !ok {
      return Err(ValueError);
    }
    ghost var withLabel := pmTracts.table;
    assert "toponimo_i" in Names(withLabel) <==> "toponimo_i" in Names(tracts);
    assert "geometry" in Names(withLabel) <==> "geometry" in Names(tracts);
    SelectThree(withLabel, "toponimo_i", "label", "geometry");
    var projected := Select(pmTracts.table, OrderedColumns);
    if projected.Err? {
      return Err(projected.error);
    }
    var labelColors := SpatialUtils.GetColorsForLabels(labels.value, colorByLabelName);
    r := Ok((projected.value, labelColors));
  }
}
