/** src/bronchiolitis_package/spatial.py: how the local Moran output of each
    unit becomes a category label, the palettes of the LISA cluster map, and
    the choice of weights and Moran variants in `get_spatials`. The local
    Moran output is given per unit as its quadrant `q` and its pseudo p-value
    `p_sim`; computing them is left to the statistics library. */
module Spatial {
  import opened PyBase
  import Cluster

  /** Per unit: (quadrant `q`, pseudo p-value `p_sim`). */
  type Lisa = seq<(int, real)>

  const Significance: real := 0.05

  // ---------------------------------------------------------------------------
  // plot_lisa_map
  // ---------------------------------------------------------------------------

  /** `(p_sim <= .05) * q`: the quadrant when significant, 0 otherwise. The
      bound is inclusive. */
  function Quadfilter(u: (int, real)): (f: int)
    ensures u.1 <= Significance ==> f == u.0
    ensures u.1 > Significance ==> f == 0
  {
    (if u.1 <= Significance then 1 else 0) * u.0
  }

  /** `[spot_labels[i] for i in quadfilter]`. The quadrant is not validated:
      a negative value counts from the end of the vocabulary and anything
      outside -5 .. 4 raises IndexError. */
  function LisaMapLabels(lisa: Lisa): (r: Result<seq<string>>)
    ensures r.Ok? <==> forall i :: 0 <= i < |lisa| ==> -5 <= Quadfilter(lisa[i]) < 5
    ensures r.Err? ==> r.error == IndexError
    ensures r.Ok? ==> |r.value| == |lisa|
    ensures r.Ok? ==> forall i :: 0 <= i < |lisa| ==> PyIndex(Cluster.SpotLabels, Quadfilter(lisa[i])) == Ok(r.value[i])
  {
    if lisa == [] then Ok([])
    else match PyIndex(Cluster.SpotLabels, Quadfilter(lisa[0]))
      case Err(e) => Err(e)
      case Ok(l) =>
        match LisaMapLabels(lisa[1..])
        case Err(e) => Err(e)
        case Ok(ls) =>
          assert forall i :: 1 <= i < |lisa| ==> lisa[i] == lisa[1..][i - 1];
          Ok([l] + ls)
  }

  /** With quadrants in 0 .. 4 there is no error: a significant unit is
      labelled by its quadrant and every other unit 'Not significant'. */
  lemma LisaMapLabelsOfQuadrants(lisa: Lisa)
    requires forall i :: 0 <= i < |lisa| ==> 0 <= lisa[i].0 <= 4
    ensures LisaMapLabels(lisa).Ok?
    ensures forall i :: 0 <= i < |lisa| ==>
              LisaMapLabels(lisa).value[i] ==
                if lisa[i].1 <= Significance then Cluster.SpotLabels[lisa[i].0] else "Not significant"
  {
  }

  /** A significant quadrant of -1 is silently read as the last category. */
  lemma NegativeQuadrantWraps(u: (int, real))
    requires u.0 == -1 && u.1 <= Significance
    ensures LisaMapLabels([u]) == Ok(["Diamond"])
  {
    var r := LisaMapLabels([u]);
    assert Quadfilter([u][0]) == -1;
    assert r.Ok?;
    assert PyIndex(Cluster.SpotLabels, -1) == Ok("Diamond");
    assert r.value[0] == "Diamond";
    assert r.value == ["Diamond"];
  }

  /** The palettes of the cluster map: the labels first (an IndexError stops
      everything), then the same removal of unused Donut and Diamond colours
      as tasks/cluster.py, which lines 131-142 repeat verbatim. */
  method PlotLisaMapPalettes(lisa: Lisa) returns (r: Result<(Dict<string, string>, Dict<string, string>)>)
    ensures r.Ok? <==> LisaMapLabels(lisa).Ok?
    ensures r.Err? ==> r.error == IndexError
    ensures r.Ok? ==> r.value == (Cluster.TractsPalette(LisaMapLabels(lisa).value), Cluster.EdgePalette())
  {
    var labels := LisaMapLabels(lisa);
    if labels.Err? {
      return Err(labels.error);
    }
    var tractsPalette, edgePalette := Cluster.GetColors(labels.value);
    r := Ok((tractsPalette, edgePalette));
  }

  /** Donut keeps its colour exactly when some significant unit is in
      quadrant 2. */
  lemma DonutColoredIffSignificantQuadrantTwo(lisa: Lisa)
    requires forall i :: 0 <= i < |lisa| ==> 0 <= lisa[i].0 <= 4
    ensures LisaMapLabels(lisa).Ok?
    ensures "Donut" in Keys(Cluster.TractsPalette(LisaMapLabels(lisa).value)) <==>
              exists i :: 0 <= i < |lisa| && lisa[i].0 == 2 && lisa[i].1 <= Significance
  {
    DonutLabelIffSignificantQuadrantTwo(lisa);
    assert Keys(Cluster.TractsPalette(LisaMapLabels(lisa).value)) == Cluster.KeptLabels(LisaMapLabels(lisa).value);
  }

  lemma DonutLabelIffSignificantQuadrantTwo(lisa: Lisa)
    requires forall i :: 0 <= i < |lisa| ==> 0 <= lisa[i].0 <= 4
    ensures LisaMapLabels(lisa).Ok?
    ensures "Donut" in LisaMapLabels(lisa).value <==>
              exists i :: 0 <= i < |lisa| && lisa[i].0 == 2 && lisa[i].1 <= Significance
  {
    LisaMapLabelsOfQuadrants(lisa);
    var labels := LisaMapLabels(lisa).value;
    forall i | 0 <= i < |lisa|
      ensures labels[i] == "Donut" <==> lisa[i].0 == 2 && lisa[i].1 <= Significance
    {
      DonutOnlyAtTwo(lisa[i].0);
    }
    if "Donut" in labels {
      var i :| 0 <= i < |labels| && labels[i] == "Donut";
    }
  }

  lemma DonutOnlyAtTwo(q: int)
    requires 0 <= q <= 4
    ensures Cluster.SpotLabels[q] == "Donut" <==> q == 2
    ensures "Not significant" != "Donut"
  {
  }

  // ---------------------------------------------------------------------------
  // plot_hot_cold_and_outliers
  // ---------------------------------------------------------------------------

  const HotColdLabelsVocabulary: seq<string> :=
    ["0 - Not significant", "1 - Hot spot", "2 - Doughnut", "3 - Cold spot", "4 - Diamond"]

  function Indicator(b: bool): int {
    if b then 1 else 0
  }

  /** `hotspot + coldspot + doughnut + diamond`, each `k * (sig * q == k)`
      with `sig = 1 * (p_sim < 0.05)`: the quadrant of a significant unit in
      1 .. 4, and 0 for every other unit. The bound is strict here. */
  function Spot(u: (int, real)): (s: int)
    ensures s == if u.1 < Significance && 1 <= u.0 <= 4 then u.0 else 0
    ensures 0 <= s <= 4
  {
    var sig := Indicator(u.1 < Significance);
    1 * Indicator(sig * u.0 == 1) + 3 * Indicator(sig * u.0 == 3)
    + 2 * Indicator(sig * u.0 == 2) + 4 * Indicator(sig * u.0 == 4)
  }

  /** `[spot_labels[i] for i in spots]`: always defined, one label per unit. */
  function HotColdLabels(lisa: Lisa): (labels: seq<string>)
    ensures |labels| == |lisa|
    ensures forall i :: 0 <= i < |lisa| ==> labels[i] == HotColdLabelsVocabulary[Spot(lisa[i])]
  {
    seq(|lisa|, i requires 0 <= i < |lisa| => HotColdLabelsVocabulary[Spot(lisa[i])])
  }

  /** A p-value of exactly 0.05 is significant on the cluster map but not on
      the hot/cold map, and an out-of-range quadrant that fails there is "not
      significant" here. */
  lemma BoundaryDisagreement(q: int)
    requires 1 <= q <= 4
    ensures Quadfilter((q, Significance)) == q
    ensures Spot((q, Significance)) == 0
    ensures LisaMapLabels([(5, 0.01)]).Err? && HotColdLabels([(5, 0.01)]) == ["0 - Not significant"]
  {
  }

  /** Away from the boundary, and for quadrants 0 .. 4, both maps put a unit in
      the same category. */
  lemma HotColdAgreesOffBoundary(u: (int, real))
    requires 0 <= u.0 <= 4 && u.1 != Significance
    ensures Spot(u) == Quadfilter(u)
  {
  }

  // ---------------------------------------------------------------------------
  // plot_moran_significance, plot_moran_quadrants
  // ---------------------------------------------------------------------------

  /** `['non-sig.', 'significant'][1 * (p_sim < 0.05)]` per unit. */
  function SignificanceLabels(lisa: Lisa): (labels: seq<string>)
    ensures |labels| == |lisa|
    ensures forall i :: 0 <= i < |lisa| ==> (labels[i] == "significant" <==> lisa[i].1 < Significance)
    ensures forall i :: 0 <= i < |lisa| ==> labels[i] in ["non-sig.", "significant"]
  {
    seq(|lisa|, i requires 0 <= i < |lisa| => ["non-sig.", "significant"][Indicator(lisa[i].1 < Significance)])
  }

  const QuadrantNames: seq<string> := ["Q1", "Q2", "Q3", "Q4"]

  /** `[q_labels[i - 1] for i in q]`: quadrant names, with Python's negative
      indexing for `q - 1 < 0`. */
  function QuadrantLabels(lisa: Lisa): (r: Result<seq<string>>)
    ensures r.Ok? <==> forall i :: 0 <= i < |lisa| ==> -3 <= lisa[i].0 <= 4
    ensures r.Err? ==> r.error == IndexError
    ensures r.Ok? ==> |r.value| == |lisa|
    ensures r.Ok? ==> forall i :: 0 <= i < |lisa| ==> PyIndex(QuadrantNames, lisa[i].0 - 1) == Ok(r.value[i])
  {
    if lisa == [] then Ok([])
    else match PyIndex(QuadrantNames, lisa[0].0 - 1)
      case Err(e) => Err(e)
      case Ok(l) =>
        match QuadrantLabels(lisa[1..])
        case Err(e) => Err(e)
        case Ok(ls) =>
          assert forall i :: 1 <= i < |lisa| ==> lisa[i] == lisa[1..][i - 1];
          Ok([l] + ls)
  }

  /** Quadrants 1 .. 4 are named Q1 .. Q4; a quadrant of 0 would be named Q4. */
  lemma QuadrantNamesOf(lisa: Lisa)
    requires forall i :: 0 <= i < |lisa| ==> 0 <= lisa[i].0 <= 4
    ensures QuadrantLabels(lisa).Ok?
    ensures forall i :: 0 <= i < |lisa| && lisa[i].0 >= 1 ==> QuadrantLabels(lisa).value[i] == QuadrantNames[lisa[i].0 - 1]
    ensures forall i :: 0 <= i < |lisa| && lisa[i].0 == 0 ==> QuadrantLabels(lisa).value[i] == "Q4"
  {
  }

  // ---------------------------------------------------------------------------
  // get_spatials
  // ---------------------------------------------------------------------------

  const WeightsStrategies: seq<string> := ["queen", "rook", "knn", "distance_band"]

  /** Which Moran statistic is computed, on which columns. */
  datatype MoranKind =
    | Plain(attribute: string)
    | RateAdjusted(attribute: string, population: string)
    | Bivariate(attribute: string, other: string)

  /** The weights object the library builds; `islands` are its units without
      neighbours. */
  class Weights {
    var transform: string
    var islands: seq<nat>

    constructor (transform: string, islands: seq<nat>)
      ensures this.transform == transform && this.islands == islands
    {
      this.transform := transform;
      this.islands := islands;
    }
  }

  /** What `get_spatials` returns besides the weights: the argument passed to
      the weights builder, the global statistic and the local one (None when
      the weights have islands). */
  datatype Spatials = Spatials(strategyArgs: Option<int>, moran: MoranKind, lisa: Option<MoranKind>)

  /** `k_neighbours` for 'knn', `band_distance` for 'distance_band', None for
      every other strategy. */
  function StrategyArgs(strategy: string, kNeighbours: int, bandDistance: int): (a: Option<int>)
    ensures a.Some? <==> strategy == "knn" || strategy == "distance_band"
    ensures strategy == "knn" ==> a == Some(kNeighbours)
    ensures strategy == "distance_band" ==> a == Some(bandDistance)
  {
    if strategy == "distance_band" then Some(bandDistance)
    else if strategy == "knn" then Some(kNeighbours)
    else None
  }

  /** The rate statistic wins over the bivariate one; the column the chosen
      statistic needs must be given, or the `assert` fails. */
  function MoranChoice(attribute: string, useMoranRate: bool, moranRateColumn: Option<string>,
                       useMoranBv: bool, moranBvColumn: Option<string>): (r: Result<MoranKind>)
    ensures r.Err? <==> (useMoranRate && moranRateColumn.None?) || (!useMoranRate && useMoranBv && moranBvColumn.None?)
    ensures r.Err? ==> r.error == AssertionError
    ensures r.Ok? && useMoranRate ==> r.value == RateAdjusted(attribute, moranRateColumn.value)
    ensures r.Ok? && !useMoranRate && useMoranBv ==> r.value == Bivariate(attribute, moranBvColumn.value)
    ensures !useMoranRate && !useMoranBv ==> r == Ok(Plain(attribute))
  {
    if useMoranRate then
      if moranRateColumn.None? then Err(AssertionError) else Ok(RateAdjusted(attribute, moranRateColumn.value))
    else if useMoranBv then
      if moranBvColumn.None? then Err(AssertionError) else Ok(Bivariate(attribute, moranBvColumn.value))
    else Ok(Plain(attribute))
  }

  /** `w` stands for the object the weights builder returns for this
      strategy; the method row-standardises it. */
  method GetSpatials(attribute: string, strategy: string, kNeighbours: int, bandDistance: int,
                     useMoranRate: bool, moranRateColumn: Option<string>,
                     useMoranBv: bool, moranBvColumn: Option<string>, w: Weights) returns (r: Result<Spatials>)
    modifies w
    ensures strategy !in WeightsStrategies ==> r == Err(KeyError(strategy)) && w.transform == old(w.transform)
    ensures strategy in WeightsStrategies ==> w.transform == "R"
    ensures w.islands == old(w.islands)
    ensures strategy in WeightsStrategies ==>
              match MoranChoice(attribute, useMoranRate, moranRateColumn, useMoranBv, moranBvColumn)
              case Err(e) => r == Err(e)
              case Ok(m) =>
                r == Ok(Spatials(StrategyArgs(strategy, kNeighbours, bandDistance), m, if w.islands == [] then Some(m) else None))
  {
    var strategyArgs: Option<int> := None;
    if strategy == "knn" {
      strategyArgs := Some(kNeighbours);
    }
    if strategy == "distance_band" {
      strategyArgs := Some(bandDistance);
    }
    if strategy !in WeightsStrategies {
      return Err(KeyError(strategy));
    }
    w.transform := "R";

    var moran: MoranKind;
    if useMoranRate {
      if moranRateColumn.None? {
        return Err(AssertionError);
      }
      moran := RateAdjusted(attribute, moranRateColumn.value);
    } else if useMoranBv {
      if moranBvColumn.None? {
        return Err(AssertionError);
      }
      moran := Bivariate(attribute, moranBvColumn.value);
    } else {
      moran := Plain(attribute);
    }
    var lisa: Option<MoranKind> := None;
    if w.islands == [] {
      lisa := Some(moran);
    }
    r := Ok(Spatials(strategyArgs, moran, lisa));
  }

  /** The rate statistic is used whenever it is asked for with its column,
      whatever the bivariate flags say. */
  lemma RateTakesPrecedence(attribute: string, rateColumn: string, useMoranBv: bool, moranBvColumn: Option<string>)
    ensures MoranChoice(attribute, true, Some(rateColumn), useMoranBv, moranBvColumn) == Ok(RateAdjusted(attribute, rateColumn))
  {
  }
}
