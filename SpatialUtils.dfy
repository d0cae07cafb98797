/** `get_colors_for_labels`: the colours of the cluster categories that occur
    in a labelling, read off the colour dictionary by popping its key list
    from the end. The same function is repeated as `__get_colors_for_labels`
    in tasks/spatial.py, and this module models both. */
module SpatialUtils {
  import opened PyBase

  /** The keys that occur at least once among `labels`, in key order. */
  function PresentKeys(keys: seq<string>, labels: seq<string>): (r: seq<string>)
    ensures forall k :: k in r <==> k in keys && k in labels
    ensures |r| <= |keys|
  {
    if keys == [] then []
    else (if keys[0] in labels then [keys[0]] else []) + PresentKeys(keys[1..], labels)
  }

  function Reverse<T>(s: seq<T>): (r: seq<T>)
    ensures |r| == |s|
    ensures forall i :: 0 <= i < |s| ==> r[i] == s[|s| - 1 - i]
  {
    if s == [] then [] else Reverse(s[1..]) + [s[0]]
  }

  /** The present keys, one by one: each is a key and occurs among the labels. */
  lemma PresentKeysAt(keys: seq<string>, labels: seq<string>)
    ensures forall i :: 0 <= i < |PresentKeys(keys, labels)| ==>
              PresentKeys(keys, labels)[i] in keys && PresentKeys(keys, labels)[i] in labels
  {
    var r := PresentKeys(keys, labels);
    forall i | 0 <= i < |r| ensures r[i] in keys && r[i] in labels {
      assert r[i] in r;
    }
  }

  /** The present keys, last first: each is a key. */
  lemma PaintingOrderKeys(keys: seq<string>, labels: seq<string>)
    ensures forall i :: 0 <= i < |Reverse(PresentKeys(keys, labels))| ==> Reverse(PresentKeys(keys, labels))[i] in keys
  {
    var present := PresentKeys(keys, labels);
    PresentKeysAt(keys, labels);
    var order := Reverse(present);
    forall i | 0 <= i < |order| ensures order[i] in keys {
      assert order[i] == present[|present| - 1 - i];
    }
  }

  /** `[colors_by_labels[k] for k in ks]`. */
  function ValuesOf(d: Dict<string, string>, ks: seq<string>): (vs: seq<string>)
    requires forall i :: 0 <= i < |ks| ==> ks[i] in Keys(d)
    ensures |vs| == |ks| && forall i :: 0 <= i < |ks| ==> vs[i] == ValueAt(d, ks[i])
  {
    seq(|ks|, i requires 0 <= i < |ks| && ks[i] in Keys(d) => ValueAt(d, ks[i]))
  }

  /** The reference result: the colours of the present keys, last key first. */
  function ColorsForLabels(labels: seq<string>, colorByLabels: Dict<string, string>): (colors: seq<string>)
    ensures |colors| == |PresentKeys(Keys(colorByLabels), labels)|
    ensures forall i :: 0 <= i < |colors| ==>
              var present := PresentKeys(Keys(colorByLabels), labels);
              present[|present| - 1 - i] in Keys(colorByLabels) &&
              colors[i] == ValueAt(colorByLabels, present[|present| - 1 - i])
  {
    PaintingOrderKeys(Keys(colorByLabels), labels);
    ValuesOf(colorByLabels, Reverse(PresentKeys(Keys(colorByLabels), labels)))
  }

  lemma ReverseAppend<T>(a: seq<T>, b: seq<T>)
    ensures Reverse(a + b) == Reverse(b) + Reverse(a)
  {
  }

  /** Popping the key at `n` adds it, when present, after the keys behind it. */
  lemma PopStep(keys: seq<string>, n: nat, labels: seq<string>)
    requires n < |keys|
    ensures Reverse(PresentKeys(keys[n..], labels)) ==
            Reverse(PresentKeys(keys[n + 1..], labels)) + (if keys[n] in labels then [keys[n]] else [])
  {
    assert keys[n..] == [keys[n]] + keys[n + 1..];
    ReverseAppend(if keys[n] in labels then [keys[n]] else [], PresentKeys(keys[n + 1..], labels));
  }

  /** The pop-from-the-end walk: `painting_order` shrinks by its last key on
      every turn, and `actual_labels` collects the popped keys that occur in
      `labels`. */
  method GetColorsForLabels(labels: seq<string>, colorByLabels: Dict<string, string>) returns (colors: seq<string>)
    ensures colors == ColorsForLabels(labels, colorByLabels)
  {
    var keys := Keys(colorByLabels);
    var paintingOrder := keys;
    var actualLabels: seq<string> := [];
    while paintingOrder != []
      invariant |paintingOrder| <= |keys|
      invariant forall i :: 0 <= i < |paintingOrder| ==> paintingOrder[i] == keys[i]
      invariant actualLabels == Reverse(PresentKeys(keys[|paintingOrder|..], labels))
      decreases |paintingOrder|
    {
      var n := |paintingOrder| - 1;
      var popped := paintingOrder[n];
      paintingOrder := paintingOrder[..n];
      PopStep(keys, n, labels);
      CountPositive(labels, popped);
      if Count(labels, popped) > 0 {
        actualLabels := actualLabels + [popped];
      }
    }
    assert keys[0..] == keys;
    PaintingOrderKeys(keys, labels);
    colors := ValuesOf(colorByLabels, actualLabels);
  }

  // ---------------------------------------------------------------------------
  // What the result is
  // ---------------------------------------------------------------------------

  /** No label, no colour. */
  lemma {:induction false} NoLabelsNoColors(colorByLabels: Dict<string, string>)
    ensures ColorsForLabels([], colorByLabels) == []
  {
    NoPresentKeys(Keys(colorByLabels));
  }

  lemma {:induction false} NoPresentKeys(keys: seq<string>)
    ensures PresentKeys(keys, []) == []
  {
    if keys != [] {
      NoPresentKeys(keys[1..]);
    }
  }

  /** Every colour is the value of a key that occurs among the labels. */
  lemma ColorsComeFromPresentKeys(labels: seq<string>, colorByLabels: Dict<string, string>)
    ensures forall c :: c in ColorsForLabels(labels, colorByLabels) ==>
              exists k :: k in Keys(colorByLabels) && k in labels && c == ValueAt(colorByLabels, k)
  {
    var colors := ColorsForLabels(labels, colorByLabels);
    var present := PresentKeys(Keys(colorByLabels), labels);
    forall c | c in colors
      ensures exists k :: k in Keys(colorByLabels) && k in labels && c == ValueAt(colorByLabels, k)
    {
      var i :| 0 <= i < |colors| && colors[i] == c;
      var k := present[|present| - 1 - i];
      assert k in present;
    }
  }

  lemma {:induction false} PresentKeysDistinct(keys: seq<string>, labels: seq<string>)
    requires Distinct(keys)
    ensures Distinct(PresentKeys(keys, labels))
  {
    if keys != [] {
      PresentKeysDistinct(keys[1..], labels);
      assert keys[0] !in keys[1..] by {
        forall j | 0 <= j < |keys[1..]| ensures keys[1..][j] != keys[0] {
          assert keys[1..][j] == keys[j + 1];
        }
      }
    }
  }

  lemma {:induction false} DistinctCardinality(s: seq<string>)
    requires Distinct(s)
    ensures |set x | x in s| == |s|
  {
    if s != [] {
      var tail := s[1..];
      assert Distinct(tail) by {
        forall i, j | 0 <= i < j < |tail| ensures tail[i] != tail[j] {
          assert tail[i] == s[i + 1] && tail[j] == s[j + 1];
        }
      }
      DistinctCardinality(tail);
      assert s[0] !in tail by {
        forall j | 0 <= j < |tail| ensures tail[j] != s[0] {
          assert tail[j] == s[j + 1];
        }
      }
      assert (set x | x in s) == {s[0]} + (set x | x in tail) by {
        assert s == [s[0]] + tail;
      }
    }
  }

  /** One colour per dictionary key that occurs at least once among the labels. */
  lemma ColorCountIsPresentKeyCount(labels: seq<string>, colorByLabels: Dict<string, string>)
    requires DistinctKeys(colorByLabels)
    ensures |ColorsForLabels(labels, colorByLabels)| == |set k | k in Keys(colorByLabels) && k in labels|
  {
    var present := PresentKeys(Keys(colorByLabels), labels);
    PresentKeysDistinct(Keys(colorByLabels), labels);
    DistinctCardinality(present);
    assert (set x | x in present) == (set k | k in Keys(colorByLabels) && k in labels);
  }

  lemma {:induction false} PresentKeysSameLabelSet(keys: seq<string>, labels1: seq<string>, labels2: seq<string>)
    requires forall x :: x in labels1 <==> x in labels2
    ensures PresentKeys(keys, labels1) == PresentKeys(keys, labels2)
  {
    if keys != [] {
      PresentKeysSameLabelSet(keys[1..], labels1, labels2);
    }
  }

  /** Only which labels occur matters, not their order or how often. */
  lemma ColorsDependOnLabelSetOnly(labels1: seq<string>, labels2: seq<string>, colorByLabels: Dict<string, string>)
    requires forall x :: x in labels1 <==> x in labels2
    ensures ColorsForLabels(labels1, colorByLabels) == ColorsForLabels(labels2, colorByLabels)
  {
    PresentKeysSameLabelSet(Keys(colorByLabels), labels1, labels2);
  }

  /** A label that is not a key of the dictionary is ignored, not an error. */
  lemma UnknownLabelIgnored(labels: seq<string>, extra: string, colorByLabels: Dict<string, string>)
    requires extra !in Keys(colorByLabels)
    ensures ColorsForLabels(labels + [extra], colorByLabels) == ColorsForLabels(labels, colorByLabels)
  {
    PresentKeysUnknownLabel(Keys(colorByLabels), labels, extra);
  }

  lemma {:induction false} PresentKeysUnknownLabel(keys: seq<string>, labels: seq<string>, extra: string)
    requires extra !in keys
    ensures PresentKeys(keys, labels + [extra]) == PresentKeys(keys, labels)
  {
    if keys != [] {
      PresentKeysUnknownLabel(keys[1..], labels, extra);
    }
  }
}
