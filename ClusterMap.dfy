/** `__get_colors` of tasks/clustermap.py: the palettes of the cluster map
    for a caller-supplied category vocabulary `spotLabels`. Unlike
    `Cluster.GetColors` it removes by position: the category checked for
    removal is read from the original vocabulary at the index where the
    Donut colour, and then the Diamond colour, sits in the colour list at that
    moment. */
module ClusterMap {
  import opened PyBase
  import Cluster

  /** The second test reads index 4 when the first category was kept and
      index 3 when it was removed, both from the unpopped vocabulary. */
  function SecondIndex(labels: seq<string>, spotLabels: seq<string>): nat
    requires |spotLabels| >= 3
  {
    if spotLabels[2] in labels then 4 else 3
  }

  /** No IndexError: reading `spotLabels[2]`, reading the second index and
      popping it from the copy all stay in range. */
  predicate Succeeds(labels: seq<string>, spotLabels: seq<string>): (ok: bool)
    ensures ok <==>
              && 2 < |spotLabels|
              && SecondIndex(labels, spotLabels) < |spotLabels|
              && (spotLabels[SecondIndex(labels, spotLabels)] !in labels ==>
                    SecondIndex(labels, spotLabels) < |spotLabels| - (if spotLabels[2] in labels then 0 else 1))
  {
    || |spotLabels| >= 5
    || (|spotLabels| == 4 && spotLabels[2] !in labels && spotLabels[3] in labels)
  }

  /** The categories left in the copy, in vocabulary order: index 2 goes when
      it is absent from the labels, and the original index 4 goes when the
      category read at the second index is absent. */
  function Survivors(labels: seq<string>, spotLabels: seq<string>): (s: seq<string>)
    requires Succeeds(labels, spotLabels)
    ensures |s| == |spotLabels| - (if spotLabels[2] in labels then 0 else 1)
                                - (if spotLabels[SecondIndex(labels, spotLabels)] in labels then 0 else 1)
    ensures s[..2] == spotLabels[..2]
    ensures forall i :: 0 <= i < |s| ==> s[i] in spotLabels
  {
    var keepFirst := spotLabels[2] in labels;
    var keepSecond := spotLabels[SecondIndex(labels, spotLabels)] in labels;
    spotLabels[..2]
    + (if keepFirst then [spotLabels[2]] else [])
    + [spotLabels[3]]
    + (if keepSecond then spotLabels[4..] else spotLabels[5..])
  }

  /** The survivors as the pops leave them. */
  lemma SurvivorsByPops(labels: seq<string>, spotLabels: seq<string>)
    requires Succeeds(labels, spotLabels)
    ensures var sl := spotLabels;
            Survivors(labels, sl) ==
              if sl[2] in labels then
                if sl[4] in labels then sl else RemoveAt(sl, 4)
              else
                if sl[3] in labels then RemoveAt(sl, 2) else RemoveAt(RemoveAt(sl, 2), 3)
  {
    var sl := spotLabels;
    if sl[2] in labels {
      if sl[4] in labels {
        assert sl == sl[..2] + [sl[2]] + [sl[3]] + sl[4..];
      }
    } else if sl[3] in labels {
      assert RemoveAt(sl, 2) == sl[..2] + [sl[3]] + sl[4..];
    } else {
      assert RemoveAt(RemoveAt(sl, 2), 3) == sl[..2] + [sl[3]] + sl[5..];
    }
  }

  method GetColors(labels: seq<string>, spotLabels: seq<string>) returns (r: Result<(Dict<string, string>, Dict<string, string>)>)
    ensures r.Ok? <==> Succeeds(labels, spotLabels)
    ensures r.Err? ==> r.error == IndexError
    ensures r.Ok? ==> r.value.0 == FromPairs(Zip(Survivors(labels, spotLabels), Cluster.LabelColors))
    ensures r.Ok? ==> r.value.1 == FromPairs(Zip(spotLabels, Cluster.EdgeColors))
  {
    var edgePalette := FromPairs(Zip(spotLabels, Cluster.EdgeColors));
    var clusterColors := Cluster.ClusterColors;
    var spotLabelsCopy := spotLabels;

    Cluster.DonutColorIndex();
    var donutIndex := IndexOf(clusterColors, Cluster.DonutColor);
    var donutLabelName := PyIndex(spotLabels, donutIndex);
    if donutLabelName.Err? {
      return Err(donutLabelName.error);
    }
    CountPositive(labels, donutLabelName.value);
    if Count(labels, donutLabelName.value) == 0 {
      clusterColors := RemoveAt(clusterColors, donutIndex);
      spotLabelsCopy := RemoveAt(spotLabelsCopy, donutIndex);
    }

    assert Cluster.DiamondColor in clusterColors && IndexOf(clusterColors, Cluster.DiamondColor) == SecondIndex(labels, spotLabels) by {
      Cluster.PopDonutColor();
      if spotLabels[2] in labels {
        Cluster.DiamondColorIndex();
      } else {
        Cluster.DiamondColorIndexWithoutDonut();
      }
    }
    var diamondIndex := IndexOf(clusterColors, Cluster.DiamondColor);
    var diamondLabelName := PyIndex(spotLabels, diamondIndex);
    if diamondLabelName.Err? {
      return Err(diamondLabelName.error);
    }
    CountPositive(labels, diamondLabelName.value);
    if Count(labels, diamondLabelName.value) == 0 {
      clusterColors := RemoveAt(clusterColors, diamondIndex);
      if diamondIndex >= |spotLabelsCopy| {
        return Err(IndexError);
      }
      spotLabelsCopy := RemoveAt(spotLabelsCopy, diamondIndex);
    }
    SurvivorsByPops(labels, spotLabels);
    var tractsPalette := FromPairs(Zip(spotLabelsCopy, Cluster.LabelColors));
    r := Ok((tractsPalette, edgePalette));
  }

  // ---------------------------------------------------------------------------
  // How it relates to the vocabulary-based version
  // ---------------------------------------------------------------------------

  /** With the canonical vocabulary and a Donut unit, both versions give the
      same palettes. */
  lemma AgreesWithClusterWhenDonutPresent(labels: seq<string>)
    requires "Donut" in labels
    ensures Succeeds(labels, Cluster.SpotLabels)
    ensures FromPairs(Zip(Survivors(labels, Cluster.SpotLabels), Cluster.LabelColors)) == Cluster.TractsPalette(labels)
    ensures FromPairs(Zip(Cluster.SpotLabels, Cluster.EdgeColors)) == Cluster.EdgePalette()
  {
    SurvivorsWithDonut(labels);
    ZipDictPositional(Cluster.KeptLabels(labels), Cluster.LabelColors);
    Cluster.SpotLabelsDistinct();
    ZipDictPositional(Cluster.SpotLabels, Cluster.EdgeColors);
  }

  /** With the canonical vocabulary and a Donut unit the survivors are the
      kept categories of the vocabulary-based version. */
  lemma SurvivorsWithDonut(labels: seq<string>)
    requires "Donut" in labels
    ensures Succeeds(labels, Cluster.SpotLabels)
    ensures Survivors(labels, Cluster.SpotLabels) == Cluster.KeptLabels(labels)
  {
    var sl := Cluster.SpotLabels;
    Cluster.KeptLabelsCases(labels);
    if "Diamond" in labels {
      assert sl[..2] + [sl[2]] + [sl[3]] + sl[4..] == sl;
    } else {
      assert sl[..2] + [sl[2]] + [sl[3]] + sl[5..] == ["Not significant", "Hot spot", "Donut", "Cold spot"];
    }
  }

  /** Without a Donut unit the second test reads 'Cold spot' instead of
      'Diamond': Diamond survives exactly when Cold spot occurs. */
  lemma DiamondFollowsColdSpotWithoutDonut(labels: seq<string>)
    requires "Donut" !in labels
    ensures Succeeds(labels, Cluster.SpotLabels)
    ensures Survivors(labels, Cluster.SpotLabels) ==
      if "Cold spot" in labels then ["Not significant", "Hot spot", "Cold spot", "Diamond"]
      else ["Not significant", "Hot spot", "Cold spot"]
  {
    var sl := Cluster.SpotLabels;
    assert sl[..2] == ["Not significant", "Hot spot"] && sl[4..] == ["Diamond"] && sl[5..] == [];
  }

  /** A Diamond unit without Donut and Cold spot units loses its colour
      here, while the vocabulary-based version keeps it. */
  lemma DiamondDroppedDespitePresence(labels: seq<string>)
    requires "Donut" !in labels && "Cold spot" !in labels && "Diamond" in labels
    ensures Succeeds(labels, Cluster.SpotLabels)
    ensures "Diamond" !in Survivors(labels, Cluster.SpotLabels)
    ensures "Diamond" in Cluster.KeptLabels(labels)
  {
    DiamondFollowsColdSpotWithoutDonut(labels);
  }

  /** And without Donut and Diamond units but with a Cold spot, Diamond keeps
      a colour here that the vocabulary-based version drops. */
  lemma DiamondKeptDespiteAbsence(labels: seq<string>)
    requires "Donut" !in labels && "Cold spot" in labels && "Diamond" !in labels
    ensures Succeeds(labels, Cluster.SpotLabels)
    ensures "Diamond" in Survivors(labels, Cluster.SpotLabels)
    ensures "Diamond" !in Cluster.KeptLabels(labels)
  {
    DiamondFollowsColdSpotWithoutDonut(labels);
  }

  /** The edge palette is positional over the first five categories when the
      vocabulary has no repeated name. */
  lemma EdgePaletteIsZip(spotLabels: seq<string>)
    requires Distinct(spotLabels)
    ensures FromPairs(Zip(spotLabels, Cluster.EdgeColors)) == Zip(spotLabels, Cluster.EdgeColors)
    ensures |Zip(spotLabels, Cluster.EdgeColors)| == if |spotLabels| <= 5 then |spotLabels| else 5
  {
    ZipDictPositional(spotLabels, Cluster.EdgeColors);
  }

  /** A four-name vocabulary fails unless its third name is absent and its
      fourth present; three names or fewer always fail. */
  lemma ShortVocabularyFails(labels: seq<string>, spotLabels: seq<string>)
    requires |spotLabels| < 5
    ensures Succeeds(labels, spotLabels) <==>
              |spotLabels| == 4 && spotLabels[2] !in labels && spotLabels[3] in labels
  {
  }
}
