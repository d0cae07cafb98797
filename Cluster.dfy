/** `get_colors` of tasks/cluster.py (repeated inside `plot_lisa_map`): the
    edge palette of the five cluster categories, and a fill palette in which
    Donut and Diamond are dropped when no unit carries them. The survivors are
    zipped with the full, unchanged fill colour list, so dropping a category
    shifts the colours of the categories after it. */
module Cluster {
  import opened PyBase

  const SpotLabels: seq<string> := ["Not significant", "Hot spot", "Donut", "Cold spot", "Diamond"]
  const LabelColors: seq<string> := ["lightgrey", "red", "cornflowerblue", "blue", "orange"]
  const EdgeColors: seq<string> := ["white", "#db0c0c", "#96b6f0", "#050568", "#f0afa7"]

  const NsColor := "#bababa"
  const HotColor := "#d7191c"
  const DonutColor := "#abd9e9"
  const ColdColor := "#2c7bb6"
  const DiamondColor := "#fdae61"

  /** The categories that keep a fill colour, in vocabulary order. */
  function KeptLabels(labels: seq<string>): (kept: seq<string>)
    ensures "Donut" in kept <==> "Donut" in labels
    ensures "Diamond" in kept <==> "Diamond" in labels
    ensures "Not significant" in kept && "Hot spot" in kept && "Cold spot" in kept
    ensures 3 <= |kept| <= 5
    ensures Distinct(kept)
    ensures forall k :: k in kept ==> k in SpotLabels
  {
    ["Not significant", "Hot spot"]
    + (if "Donut" in labels then ["Donut"] else [])
    + ["Cold spot"]
    + (if "Diamond" in labels then ["Diamond"] else [])
  }

  lemma KeptLabelsCases(labels: seq<string>)
    ensures KeptLabels(labels) ==
      if "Donut" in labels then
        if "Diamond" in labels then SpotLabels else ["Not significant", "Hot spot", "Donut", "Cold spot"]
      else
        if "Diamond" in labels then ["Not significant", "Hot spot", "Cold spot", "Diamond"] else ["Not significant", "Hot spot", "Cold spot"]
  {
  }

  /** The fill palette: the k-th kept category gets the k-th fill colour. */
  function TractsPalette(labels: seq<string>): (p: Dict<string, string>)
    ensures Keys(p) == KeptLabels(labels)
    ensures forall i :: 0 <= i < |p| ==> p[i].1 == LabelColors[i]
  {
    Zip(KeptLabels(labels), LabelColors)
  }

  function EdgePalette(): (p: Dict<string, string>)
    ensures Keys(p) == SpotLabels && Values(p) == EdgeColors
  {
    Zip(SpotLabels, EdgeColors)
  }

  /** The fill colours in vocabulary order, before any removal. */
  const ClusterColors: seq<string> := [NsColor, HotColor, DonutColor, ColdColor, DiamondColor]

  /** Removal by value from the colour list and the label list: each pop
      takes the first occurrence, and the dictionaries are built by the two
      comprehensions over `zip`. The colour list is cut down alongside the
      labels but never read afterwards. */
  method GetColors(labels: seq<string>) returns (tractsPalette: Dict<string, string>, edgePalette: Dict<string, string>)
    ensures tractsPalette == TractsPalette(labels)
    ensures edgePalette == EdgePalette()
  {
    SpotLabelsDistinct();
    ZipDictPositional(SpotLabels, EdgeColors);
    edgePalette := FromPairs(Zip(SpotLabels, EdgeColors));

    var clusterColors := ClusterColors;
    var spotLabelsCopy := SpotLabels;
    CountPositive(labels, "Donut");
    CountPositive(labels, "Diamond");
    PopDonutLabel();
    PopDonutColor();
    if Count(labels, "Donut") == 0 {
      clusterColors := RemoveAt(clusterColors, IndexOf(clusterColors, DonutColor));
      spotLabelsCopy := RemoveAt(spotLabelsCopy, IndexOf(spotLabelsCopy, "Donut"));
    }
    PopDiamondLabel();
    PopDiamondColor();
    if Count(labels, "Diamond") == 0 {
      clusterColors := RemoveAt(clusterColors, IndexOf(clusterColors, DiamondColor));
      spotLabelsCopy := RemoveAt(spotLabelsCopy, IndexOf(spotLabelsCopy, "Diamond"));
    }
    KeptLabelsCases(labels);
    ZipDictPositional(spotLabelsCopy, LabelColors);
    tractsPalette := FromPairs(Zip(spotLabelsCopy, LabelColors));
  }

  /** Where the Donut and Diamond colours sit in the colour list, before and
      after the Donut colour is removed. */
  lemma DonutColorIndex()
    ensures DonutColor in ClusterColors && IndexOf(ClusterColors, DonutColor) == 2
  {
    IndexOfAt(ClusterColors, DonutColor, 2);
  }

  lemma DiamondColorIndex()
    ensures DiamondColor in ClusterColors && IndexOf(ClusterColors, DiamondColor) == 4
  {
    IndexOfAt(ClusterColors, DiamondColor, 4);
  }

  lemma DiamondColorIndexWithoutDonut()
    ensures var colors := [NsColor, HotColor, ColdColor, DiamondColor];
            DiamondColor in colors && IndexOf(colors, DiamondColor) == 3
  {
    IndexOfAt([NsColor, HotColor, ColdColor, DiamondColor], DiamondColor, 3);
  }

  /** Popping the first occurrence of `x`, when it sits at `i`. */
  lemma PopAt<T>(s: seq<T>, x: T, i: nat)
    requires i < |s| && s[i] == x && forall j :: 0 <= j < i ==> s[j] != x
    ensures x in s && RemoveAt(s, IndexOf(s, x)) == s[..i] + s[i + 1..]
  {
    IndexOfAt(s, x, i);
    assert RemoveAt(s, i) == s[..i] + s[i + 1..];
  }

  lemma SpotLabelsDistinct()
    ensures Distinct(SpotLabels)
  {
  }

  /** Donut sits at index 2 of both untouched lists. */
  lemma PopDonutLabel()
    ensures "Donut" in SpotLabels
    ensures RemoveAt(SpotLabels, IndexOf(SpotLabels, "Donut")) == ["Not significant", "Hot spot", "Cold spot", "Diamond"]
  {
    PopAt(SpotLabels, "Donut", 2);
  }

  lemma PopDonutColor()
    ensures DonutColor in ClusterColors
    ensures RemoveAt(ClusterColors, IndexOf(ClusterColors, DonutColor)) == [NsColor, HotColor, ColdColor, DiamondColor]
  {
    PopAt(ClusterColors, DonutColor, 2);
  }

  /** Diamond is last in the label list, whether or not Donut was removed. */
  lemma PopDiamondLabel()
    ensures "Diamond" in SpotLabels
    ensures RemoveAt(SpotLabels, IndexOf(SpotLabels, "Diamond")) == ["Not significant", "Hot spot", "Donut", "Cold spot"]
    ensures var names := ["Not significant", "Hot spot", "Cold spot", "Diamond"];
            "Diamond" in names && RemoveAt(names, IndexOf(names, "Diamond")) == ["Not significant", "Hot spot", "Cold spot"]
  {
    PopAt(SpotLabels, "Diamond", 4);
    PopAt(["Not significant", "Hot spot", "Cold spot", "Diamond"], "Diamond", 3);
  }

  /** And the Diamond colour is last in the colour list. */
  lemma PopDiamondColor()
    ensures DiamondColor in ClusterColors
    ensures RemoveAt(ClusterColors, IndexOf(ClusterColors, DiamondColor)) == [NsColor, HotColor, DonutColor, ColdColor]
    ensures var colors := [NsColor, HotColor, ColdColor, DiamondColor];
            DiamondColor in colors && RemoveAt(colors, IndexOf(colors, DiamondColor)) == [NsColor, HotColor, ColdColor]
  {
    PopAt(ClusterColors, DiamondColor, 4);
    PopAt([NsColor, HotColor, ColdColor, DiamondColor], DiamondColor, 3);
  }

  // ---------------------------------------------------------------------------
  // What the palettes are
  // ---------------------------------------------------------------------------

  /** 'Not significant' is always light grey and 'Hot spot' always red. */
  lemma FixedHeadColors(labels: seq<string>)
    ensures ValueAt(TractsPalette(labels), "Not significant") == "lightgrey"
    ensures ValueAt(TractsPalette(labels), "Hot spot") == "red"
  {
    var p := TractsPalette(labels);
    assert p[0] == ("Not significant", "lightgrey") && p[1] == ("Hot spot", "red");
    assert Distinct(Keys(p));
  }

  /** Without a Donut unit, 'Cold spot' takes Donut's 'cornflowerblue', and a
      present Diamond takes Cold spot's 'blue'. */
  lemma DroppedDonutShiftsColors(labels: seq<string>)
    requires "Donut" !in labels
    ensures ValueAt(TractsPalette(labels), "Cold spot") == "cornflowerblue"
    ensures "Diamond" in labels ==> ValueAt(TractsPalette(labels), "Diamond") == "blue"
  {
    var p := TractsPalette(labels);
    assert p[2] == ("Cold spot", "cornflowerblue");
    assert "Diamond" in labels ==> p[3] == ("Diamond", "blue");
    assert Distinct(Keys(p));
  }

  /** With every category present the fill palette is the vocabulary zipped
      with the fill colours, nothing shifted. */
  lemma AllPresentNoShift(labels: seq<string>)
    requires "Donut" in labels && "Diamond" in labels
    ensures TractsPalette(labels) == Zip(SpotLabels, LabelColors)
  {
    KeptLabelsCases(labels);
    assert KeptLabels(labels) == SpotLabels;
  }

  /** Only the presence of 'Donut' and 'Diamond' matters. */
  lemma DependsOnDonutAndDiamondOnly(labels1: seq<string>, labels2: seq<string>)
    requires ("Donut" in labels1 <==> "Donut" in labels2) && ("Diamond" in labels1 <==> "Diamond" in labels2)
    ensures TractsPalette(labels1) == TractsPalette(labels2)
  {
  }
}
