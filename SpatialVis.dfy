/** tasks/spatial_vis.py: the labels and colours of the Moran-plot task, the
    labelled and projected tracts table of the cluster map, how the case
    points are split into admissions and readmissions, and the order of the
    legend marks. Drawing, and the palettes computed by the foreign
    `get_palettes`, are not modelled. */
module SpatialVis {
  import opened PyBase
  import opened Frames
  import Spatial
  import SpatialUtils
  import TasksSpatial

  /** `__launch_moranplot_creation_task`: the colours handed to the Moran
      plot are those of `get_colors_for_labels` for the units' labels. */
  method MoranplotColors(lisa: Spatial.Lisa, labelByQuadfilter: Dict<string, string>,
                         colorByLabelName: Dict<string, string>) returns (r: Result<seq<string>>)
    ensures r.Ok? <==> TasksSpatial.QuadfilterLabels(lisa, labelByQuadfilter).Ok?
    ensures r.Err? ==> r.error == TasksSpatial.QuadfilterLabels(lisa, labelByQuadfilter).error
    ensures r.Ok? ==> r.value == SpatialUtils.ColorsForLabels(TasksSpatial.QuadfilterLabels(lisa, labelByQuadfilter).value, colorByLabelName)
  {
    var labels := TasksSpatial.QuadfilterLabels(lisa, labelByQuadfilter);
    if labels.Err? {
      return Err(labels.error);
    }
    var labelColors := SpatialUtils.GetColorsForLabels(labels.value, colorByLabelName);
    r := Ok(labelColors);
  }

  /** `__create_base_clustermap`: the caller's frame gets the `label` column
      in place; the projection to three columns is a new table that the map
      is drawn from. */
  method CreateBaseClustermap(lisa: Spatial.Lisa, pmTractsShape: Frame, labelByQuadfilter: Dict<string, string>)
    returns (r: Result<Table>)
    modifies pmTractsShape
    ensures TasksSpatial.QuadfilterLabels(lisa, labelByQuadfilter).Err? ==>
              r == Err(TasksSpatial.QuadfilterLabels(lisa, labelByQuadfilter).error) && pmTractsShape.table == old(pmTractsShape.table)
    ensures TasksSpatial.QuadfilterLabels(lisa, labelByQuadfilter).Ok? ==>
              match Assign(old(pmTractsShape.table), "label", Texts(TasksSpatial.QuadfilterLabels(lisa, labelByQuadfilter).value))
              case Err(e) => r == Err(e) && pmTractsShape.table == old(pmTractsShape.table)
              case Ok(t) => pmTractsShape.table == t && r == Select(t, TasksSpatial.OrderedColumns)
  {
    var labels := TasksSpatial.QuadfilterLabels(lisa, labelByQuadfilter);
    if labels.Err? {
      return Err(labels.error);
    }
    var ok := pmTractsShape.SetColumn("label", Texts(labels.value));
    if !ok {
      return Err(ValueError);
    }
    r := Select(pmTractsShape.table, TasksSpatial.OrderedColumns);
  }

  /** The projected table has exactly the three columns and carries the
      labels, once every unit has a label and the frame has its two other
      columns. */
  lemma ClustermapTableShape(t: Table, labels: seq<string>)
    requires |labels| == t.height && "toponimo_i" in Names(t) && "geometry" in Names(t)
    ensures Assign(t, "label", Texts(labels)).Ok?
    ensures var s := Select(Assign(t, "label", Texts(labels)).value, TasksSpatial.OrderedColumns);
            && s.Ok?
            && Names(s.value) == TasksSpatial.OrderedColumns
            && s.value.columns[1] == ("label", Texts(labels))
            && s.value.columns[0] == ("toponimo_i", ValueAt(t.columns, "toponimo_i"))
            && s.value.columns[2] == ("geometry", ValueAt(t.columns, "geometry"))
  {
    var a := Assign(t, "label", Texts(labels)).value;
    assert "toponimo_i" in Names(a) && "geometry" in Names(a) && "label" in Names(a);
  }

  // ---------------------------------------------------------------------------
  // __add_cases_points
  // ---------------------------------------------------------------------------

  /** A case point: the admission it belongs to and whether it is a
      readmission. */
  datatype CasePoint = CasePoint(hc: string, esReinternacion: bool, location: nat)

  predicate IsReadmission(p: CasePoint) {
    p.esReinternacion
  }

  predicate IsAdmission(p: CasePoint) {
    !p.esReinternacion
  }

  /** The groups of points drawn, each with its legend title: admissions
      (`~es_reinternacion`) then readmissions when differentiating, all
      points as one group otherwise. */
  function PointGroups(points: seq<CasePoint>, differentiate: bool): (groups: seq<(string, seq<CasePoint>)>)
    ensures differentiate ==> |groups| == 2 && groups[0].0 == "Cases" && groups[1].0 == "Readmissions"
    ensures !differentiate ==> groups == [("Cases", points)]
  {
    if differentiate then
      [("Cases", Filter(points, IsAdmission)), ("Readmissions", Filter(points, IsReadmission))]
    else
      [("Cases", points)]
  }

  /** Admissions and readmissions are disjoint and together are all the
      points, each point as often as in the input. */
  lemma PointGroupsPartition(points: seq<CasePoint>)
    ensures var g := PointGroups(points, true);
            && (forall i :: 0 <= i < |g[0].1| ==> !g[0].1[i].esReinternacion)
            && (forall i :: 0 <= i < |g[1].1| ==> g[1].1[i].esReinternacion)
            && multiset(g[0].1) + multiset(g[1].1) == multiset(points)
  {
    FilterSplits(points, IsAdmission, IsReadmission);
  }

  /** `[*pmarks_map, *pmarks_admission_points]`: the map's marks first, then
      the point marks, which exist only when points are painted. */
  function LegendMarks<M>(mapMarks: seq<M>, pointMarks: seq<M>, paintLocations: bool): (marks: seq<M>)
    ensures |mapMarks| <= |marks| && marks[..|mapMarks|] == mapMarks
    ensures paintLocations ==> marks[|mapMarks|..] == pointMarks
    ensures !paintLocations ==> marks == mapMarks
  {
    mapMarks + (if paintLocations then pointMarks else [])
  }
}
