/** `pandas.merge(left, right, on=key)` over tables of records: every left row
    is joined with each right row that has the same key, in the right
    table's order. The inner merge drops a left row without partner; the
    left merge (`how='left'`) keeps it once, with no right row. */
module Merge {
  import opened PyBase

  /** The right rows whose key is that of `l`, each paired with `l`. */
  function Matches<L, R>(l: L, right: seq<R>, lk: L -> string, rk: R -> string): (m: seq<(L, R)>)
    ensures |m| <= |right|
    ensures forall i :: 0 <= i < |m| ==> m[i].0 == l && m[i].1 in right && rk(m[i].1) == lk(l)
    ensures forall j :: 0 <= j < |right| && rk(right[j]) == lk(l) ==> (l, right[j]) in m
    ensures m == [] <==> forall j :: 0 <= j < |right| ==> rk(right[j]) != lk(l)
  {
    if right == [] then []
    else
      var rest := Matches(l, right[1..], lk, rk);
      assert forall j :: 1 <= j < |right| ==> right[j] == right[1..][j - 1];
      (if rk(right[0]) == lk(l) then [(l, right[0])] else []) + rest
  }

  /** With one right row per key, a left row has exactly one partner. */
  lemma {:induction false} MatchesOfUniqueKey<L, R>(l: L, right: seq<R>, lk: L -> string, rk: R -> string, j: nat)
    requires j < |right| && rk(right[j]) == lk(l)
    requires forall i :: 0 <= i < |right| && i != j ==> rk(right[i]) != lk(l)
    ensures Matches(l, right, lk, rk) == [(l, right[j])]
    decreases |right|
  {
    if j == 0 {
      var rest := Matches(l, right[1..], lk, rk);
      assert forall i :: 0 <= i < |right[1..]| ==> rk(right[1..][i]) != lk(l) by {
        forall i | 0 <= i < |right[1..]| ensures rk(right[1..][i]) != lk(l) {
          assert right[1..][i] == right[i + 1];
        }
      }
    } else {
      assert forall i :: 0 <= i < |right[1..]| && i != j - 1 ==> rk(right[1..][i]) != lk(l) by {
        forall i | 0 <= i < |right[1..]| && i != j - 1 ensures rk(right[1..][i]) != lk(l) {
          assert right[1..][i] == right[i + 1];
        }
      }
      MatchesOfUniqueKey(l, right[1..], lk, rk, j - 1);
    }
  }

  /** The inner merge: the matching pairs, left row by left row. */
  function InnerMerge<L, R>(left: seq<L>, right: seq<R>, lk: L -> string, rk: R -> string): (m: seq<(L, R)>)
    ensures forall k :: 0 <= k < |m| ==> m[k].0 in left && m[k].1 in right && lk(m[k].0) == rk(m[k].1)
    ensures forall i, j :: 0 <= i < |left| && 0 <= j < |right| && lk(left[i]) == rk(right[j]) ==> (left[i], right[j]) in m
  {
    if left == [] then []
    else
      var first := Matches(left[0], right, lk, rk);
      var rest := InnerMerge(left[1..], right, lk, rk);
      assert forall i :: 1 <= i < |left| ==> left[i] == left[1..][i - 1];
      first + rest
  }

  /** Right keys that occur once each. */
  ghost predicate UniqueKeys<R>(right: seq<R>, rk: R -> string) {
    forall i, j :: 0 <= i < j < |right| ==> rk(right[i]) != rk(right[j])
  }

  /** With unique keys, the row at `j` is the only one with its key. */
  lemma OnlyRowWithKey<R>(right: seq<R>, rk: R -> string, j: nat)
    requires UniqueKeys(right, rk) && j < |right|
    ensures forall i :: 0 <= i < |right| && i != j ==> rk(right[i]) != rk(right[j])
  {
    forall i | 0 <= i < |right| && i != j ensures rk(right[i]) != rk(right[j]) {
      if i < j {
        assert rk(right[i]) != rk(right[j]);
      } else {
        assert rk(right[j]) != rk(right[i]);
      }
    }
  }

  /** The keys of the right rows, in order. */
  function KeysOf<R>(right: seq<R>, rk: R -> string): (ks: seq<string>)
    ensures |ks| == |right| && forall j :: 0 <= j < |right| ==> ks[j] == rk(right[j])
  {
    seq(|right|, j requires 0 <= j < |right| => rk(right[j]))
  }

  /** Every left key occurs among the right keys. */
  predicate AllMatched<L, R>(left: seq<L>, right: seq<R>, lk: L -> string, rk: R -> string) {
    forall i :: 0 <= i < |left| ==> lk(left[i]) in KeysOf(right, rk)
  }

  /** Every left key matched, for the rows after the first. */
  lemma AllMatchedTail<L, R>(left: seq<L>, right: seq<R>, lk: L -> string, rk: R -> string)
    requires left != [] && AllMatched(left, right, lk, rk)
    ensures AllMatched(left[1..], right, lk, rk)
  {
    var tail := left[1..];
    forall i | 0 <= i < |tail| ensures lk(tail[i]) in KeysOf(right, rk) {
      assert tail[i] == left[i + 1];
    }
  }

  /** A row put in front of rows that follow the left table from its second
      row on follows the left table from its first row. */
  lemma FirstsOfCons<L, X>(left: seq<L>, row: (L, X), rest: seq<(L, X)>)
    requires left != [] && row.0 == left[0]
    requires |rest| == |left| - 1 && forall i :: 0 <= i < |rest| ==> rest[i].0 == left[1..][i]
    ensures |[row] + rest| == |left|
    ensures forall i :: 0 <= i < |left| ==> ([row] + rest)[i].0 == left[i]
  {
    forall i | 0 < i < |left| ensures ([row] + rest)[i].0 == left[i] {
      assert ([row] + rest)[i] == rest[i - 1];
      assert left[1..][i - 1] == left[i];
    }
  }

  /** When the right keys are unique and every left key occurs among them,
      the inner merge is the left table, row for row, each row with its
      partner. */
  lemma {:induction false} InnerMergeOneToOne<L, R>(left: seq<L>, right: seq<R>, lk: L -> string, rk: R -> string)
    requires UniqueKeys(right, rk) && AllMatched(left, right, lk, rk)
    ensures |InnerMerge(left, right, lk, rk)| == |left|
    ensures forall i :: 0 <= i < |left| ==> InnerMerge(left, right, lk, rk)[i].0 == left[i]
  {
    if left != [] {
      var ks := KeysOf(right, rk);
      assert lk(left[0]) in ks;
      var j :| 0 <= j < |ks| && ks[j] == lk(left[0]);
      OnlyRowWithKey(right, rk, j);
      MatchesOfUniqueKey(left[0], right, lk, rk, j);
      AllMatchedTail(left, right, lk, rk);
      InnerMergeOneToOne(left[1..], right, lk, rk);
      FirstsOfCons(left, (left[0], right[j]), InnerMerge(left[1..], right, lk, rk));
    }
  }

  /** A left row without partner contributes no row to the inner merge. */
  lemma InnerMergeDropsUnmatched<L, R>(left: seq<L>, right: seq<R>, lk: L -> string, rk: R -> string, l: L)
    requires forall j :: 0 <= j < |right| ==> rk(right[j]) != lk(l)
    ensures forall k :: 0 <= k < |InnerMerge(left, right, lk, rk)| ==> InnerMerge(left, right, lk, rk)[k].0 != l
  {
    var m := InnerMerge(left, right, lk, rk);
    forall k | 0 <= k < |m| ensures m[k].0 != l {
      var r := m[k].1;
      assert r in right;
      var j :| 0 <= j < |right| && right[j] == r;
    }
  }

  /** No right row has the key of `l`. */
  predicate Partnerless<L, R>(l: L, right: seq<R>, lk: L -> string, rk: R -> string) {
    forall j :: 0 <= j < |right| ==> rk(right[j]) != lk(l)
  }

  /** The right rows of key `k`, in right-table order and with their
      repeats: `right[right[key] == k]`. */
  function Partners<R>(k: string, right: seq<R>, rk: R -> string): (p: seq<R>)
    ensures forall i :: 0 <= i < |p| ==> p[i] in right && rk(p[i]) == k
    ensures forall j :: 0 <= j < |right| && rk(right[j]) == k ==> right[j] in p
    ensures p == [] <==> forall j :: 0 <= j < |right| ==> rk(right[j]) != k
  {
    if right == [] then []
    else
      var rest := Partners(k, right[1..], rk);
      assert forall j :: 1 <= j < |right| ==> right[j] == right[1..][j - 1];
      (if rk(right[0]) == k then [right[0]] else []) + rest
  }

  /** The matches of `l` pair it with its partners one by one, in
      right-table order and with their repeats. */
  lemma {:induction false} MatchesArePartners<L, R>(l: L, right: seq<R>, lk: L -> string, rk: R -> string)
    ensures |Matches(l, right, lk, rk)| == |Partners(lk(l), right, rk)|
    ensures forall i :: 0 <= i < |Matches(l, right, lk, rk)| ==> Matches(l, right, lk, rk)[i] == (l, Partners(lk(l), right, rk)[i])
    decreases |right|
  {
    if right != [] {
      MatchesArePartners(l, right[1..], lk, rk);
      var m := Matches(l, right, lk, rk);
      var p := Partners(lk(l), right, rk);
      var mt := Matches(l, right[1..], lk, rk);
      var pt := Partners(lk(l), right[1..], rk);
      if rk(right[0]) == lk(l) {
        assert m == [(l, right[0])] + mt && p == [right[0]] + pt;
        PairedCons(l, right[0], mt, pt);
      } else {
        assert m == mt && p == pt;
      }
    }
  }

  /** Pairing `l` with each row, one more row in front. */
  lemma PairedCons<L, R>(l: L, r: R, mt: seq<(L, R)>, pt: seq<R>)
    requires |mt| == |pt| && forall i :: 0 <= i < |mt| ==> mt[i] == (l, pt[i])
    ensures |[(l, r)] + mt| == |[r] + pt|
    ensures forall i :: 0 <= i < |[(l, r)] + mt| ==> ([(l, r)] + mt)[i] == (l, ([r] + pt)[i])
  {
    forall i | 0 < i < |[(l, r)] + mt| ensures ([(l, r)] + mt)[i] == (l, ([r] + pt)[i]) {
      assert ([(l, r)] + mt)[i] == mt[i - 1] && ([r] + pt)[i] == pt[i - 1];
    }
  }

  /** A left row with partners gets one row of the left merge per partner,
      in right-table order and with their repeats. */
  lemma LeftMatchesArePartners<L, R>(l: L, right: seq<R>, lk: L -> string, rk: R -> string)
    requires !Partnerless(l, right, lk, rk)
    ensures |LeftMatches(l, right, lk, rk)| == |Partners(lk(l), right, rk)|
    ensures forall i :: 0 <= i < |LeftMatches(l, right, lk, rk)| ==>
              LeftMatches(l, right, lk, rk)[i] == (l, Some(Partners(lk(l), right, rk)[i]))
  {
    MatchesArePartners(l, right, lk, rk);
  }

  /** Each right row with the key of `l` is paired with `l` somewhere in `m`. */
  ghost predicate HoldsEveryPartner<L, R>(l: L, right: seq<R>, lk: L -> string, rk: R -> string, m: seq<(L, Option<R>)>) {
    forall j :: 0 <= j < |right| && rk(right[j]) == lk(l) ==> (l, Some(right[j])) in m
  }

  /** Matched pairs as rows of the left merge, each with its partner. */
  function WithPartners<L, R>(ms: seq<(L, R)>): (m: seq<(L, Option<R>)>)
    ensures |m| == |ms| && forall i :: 0 <= i < |ms| ==> m[i] == (ms[i].0, Some(ms[i].1))
  {
    if ms == [] then []
    else [(ms[0].0, Some(ms[0].1))] + WithPartners(ms[1..])
  }

  /** One left row of the left merge: its partners, or the row alone. */
  function LeftMatches<L, R>(l: L, right: seq<R>, lk: L -> string, rk: R -> string): (m: seq<(L, Option<R>)>)
    ensures |m| >= 1
    ensures forall i :: 0 <= i < |m| ==> m[i].0 == l
    ensures forall i :: 0 <= i < |m| && m[i].1.Some? ==> m[i].1.value in right && rk(m[i].1.value) == lk(l)
    ensures m[0].1.None? <==> Partnerless(l, right, lk, rk)
    ensures m[0].1.None? ==> m == [(l, None)]
    ensures m[0].1.Some? ==> forall i :: 0 <= i < |m| ==> m[i].1.Some?
    ensures HoldsEveryPartner(l, right, lk, rk, m)
  {
    var ms := Matches(l, right, lk, rk);
    if ms == [] then [(l, None)]
    else
      var m := WithPartners(ms);
      assert forall j :: 0 <= j < |right| && rk(right[j]) == lk(l) ==> (l, Some(right[j])) in m by {
        forall j | 0 <= j < |right| && rk(right[j]) == lk(l) ensures (l, Some(right[j])) in m {
          var i :| 0 <= i < |ms| && ms[i] == (l, right[j]);
          assert m[i] == (l, Some(right[j]));
        }
      }
      m
  }

  /** The left merge, left row by left row. */
  function LeftMerge<L, R>(left: seq<L>, right: seq<R>, lk: L -> string, rk: R -> string): (m: seq<(L, Option<R>)>)
    ensures |m| >= |left|
  {
    if left == [] then []
    else LeftMatches(left[0], right, lk, rk) + LeftMerge(left[1..], right, lk, rk)
  }

  /** The left merge of a concatenation is the concatenation of the left
      merges: each left row contributes its own rows, in left-table order. */
  lemma {:induction false} LeftMergeAppend<L, R>(a: seq<L>, b: seq<L>, right: seq<R>, lk: L -> string, rk: R -> string)
    ensures LeftMerge(a + b, right, lk, rk) == LeftMerge(a, right, lk, rk) + LeftMerge(b, right, lk, rk)
  {
    if a == [] {
      assert a + b == b;
    } else {
      var first := LeftMatches(a[0], right, lk, rk);
      var rest := LeftMerge(a[1..], right, lk, rk);
      var tail := LeftMerge(b, right, lk, rk);
      ConsAppend(a, b);
      LeftMergeAppend(a[1..], b, right, lk, rk);
      ConcatAssoc(first, rest, tail);
    }
  }

  /** The head and the tail of a concatenation with a non-empty front. */
  lemma ConsAppend<X>(a: seq<X>, b: seq<X>)
    requires a != []
    ensures a + b != [] && (a + b)[0] == a[0] && (a + b)[1..] == a[1..] + b
  {
    assert (a + b)[1..] == a[1..] + b;
  }

  /** Concatenation is associative. */
  lemma ConcatAssoc<X>(x: seq<X>, y: seq<X>, z: seq<X>)
    ensures x + (y + z) == (x + y) + z
  {
  }

  /** A row of either part of a concatenation whose first component is
      `l` is a row of the whole. */
  lemma RowInConcat<L, X>(x: seq<(L, X)>, y: seq<(L, X)>, k: nat, l: L)
    requires k < |x| + |y| && (if k < |x| then x[k].0 else y[k - |x|].0) == l
    ensures exists k' :: 0 <= k' < |x + y| && (x + y)[k'].0 == l
  {
    assert (x + y)[k].0 == l;
  }

  /** One row for the first left row, put in front of rows that follow the
      left table from its second row on, follows the left table. */
  lemma FrontOne<L, X>(left: seq<L>, x: seq<(L, X)>, y: seq<(L, X)>)
    requires left != [] && |x| == 1 && x[0].0 == left[0]
    requires |y| == |left| - 1 && forall i :: 0 <= i < |y| ==> y[i].0 == left[1..][i]
    ensures |x + y| == |left|
    ensures forall i :: 0 <= i < |left| ==> (x + y)[i].0 == left[i]
    ensures (x + y)[0] == x[0] && forall i :: 1 <= i < |left| ==> (x + y)[i] == y[i - 1]
  {
    forall i | 1 <= i < |left| ensures (x + y)[i].0 == left[i] {
      assert (x + y)[i] == y[i - 1] && left[1..][i - 1] == left[i];
    }
  }

  /** The element `i` of a sequence is the element `i - 1` of its tail. */
  lemma TailAt<X>(s: seq<X>, i: nat)
    requires 0 < i < |s|
    ensures s[1..][i - 1] == s[i]
  {
  }

  /** One left row gives the rows of its matches. */
  lemma LeftMergeOfOne<L, R>(l: L, right: seq<R>, lk: L -> string, rk: R -> string)
    ensures LeftMerge([l], right, lk, rk) == LeftMatches(l, right, lk, rk)
  {
    assert [l][1..] == [];
  }

  /** Every row of the left merge is a left row, with no partner or with a
      right row of the same key. */
  lemma {:induction false} LeftMergeRows<L, R>(left: seq<L>, right: seq<R>, lk: L -> string, rk: R -> string)
    ensures forall k :: 0 <= k < |LeftMerge(left, right, lk, rk)| ==> LeftMerge(left, right, lk, rk)[k].0 in left
    ensures forall k :: 0 <= k < |LeftMerge(left, right, lk, rk)| && LeftMerge(left, right, lk, rk)[k].1.Some? ==>
              var row := LeftMerge(left, right, lk, rk)[k];
              row.1.value in right && rk(row.1.value) == lk(row.0)
  {
    if left != [] {
      LeftMergeRows(left[1..], right, lk, rk);
      var first := LeftMatches(left[0], right, lk, rk);
      var rest := LeftMerge(left[1..], right, lk, rk);
      var m := LeftMerge(left, right, lk, rk);
      forall k | |first| <= k < |m|
        ensures m[k].0 in left
        ensures m[k].1.Some? ==> m[k].1.value in right && rk(m[k].1.value) == lk(m[k].0)
      {
        assert m[k] == rest[k - |first|];
        assert m[k].0 in left[1..];
      }
    }
  }

  /** Every left row appears in the left merge with each of its partners,
      one row per partner. */
  lemma {:induction false} LeftMergeKeepsEveryPair<L, R>(left: seq<L>, right: seq<R>, lk: L -> string, rk: R -> string)
    ensures forall i, j :: 0 <= i < |left| && 0 <= j < |right| && lk(left[i]) == rk(right[j]) ==>
              (left[i], Some(right[j])) in LeftMerge(left, right, lk, rk)
  {
    if left != [] {
      LeftMergeKeepsEveryPair(left[1..], right, lk, rk);
      var first := LeftMatches(left[0], right, lk, rk);
      var rest := LeftMerge(left[1..], right, lk, rk);
      var m := LeftMerge(left, right, lk, rk);
      assert m == first + rest;
      forall i, j | 0 <= i < |left| && 0 <= j < |right| && lk(left[i]) == rk(right[j])
        ensures (left[i], Some(right[j])) in m
      {
        if i == 0 {
          assert (left[i], Some(right[j])) in first;
        } else {
          assert left[i] == left[1..][i - 1];
          assert (left[i], Some(right[j])) in rest;
        }
      }
    }
  }

  /** Every left row survives the left merge, whether or not it has a
      partner. */
  lemma {:induction false} LeftMergeKeepsEveryRow<L, R>(left: seq<L>, right: seq<R>, lk: L -> string, rk: R -> string, i: nat)
    requires i < |left|
    ensures exists k :: 0 <= k < |LeftMerge(left, right, lk, rk)| && LeftMerge(left, right, lk, rk)[k].0 == left[i]
  {
    var first := LeftMatches(left[0], right, lk, rk);
    var rest := LeftMerge(left[1..], right, lk, rk);
    var m := LeftMerge(left, right, lk, rk);
    assert m == first + rest;
    if i == 0 {
      RowInConcat(first, rest, 0, left[0]);
    } else {
      LeftMergeKeepsEveryRow(left[1..], right, lk, rk, i - 1);
      var k :| 0 <= k < |rest| && rest[k].0 == left[1..][i - 1];
      TailAt(left, i);
      RowInConcat(first, rest, |first| + k, left[i]);
    }
  }

  /** With unique right keys a left row has one row in the left merge:
      with its partner, or with none when there is no partner. */
  lemma LeftMatchesOfUniqueKeys<L, R>(l: L, right: seq<R>, lk: L -> string, rk: R -> string)
    requires UniqueKeys(right, rk)
    ensures |LeftMatches(l, right, lk, rk)| == 1
  {
    if exists j :: 0 <= j < |right| && rk(right[j]) == lk(l) {
      var j :| 0 <= j < |right| && rk(right[j]) == lk(l);
      OnlyRowWithKey(right, rk, j);
      MatchesOfUniqueKey(l, right, lk, rk, j);
    }
  }

  /** With unique right keys the left merge has one row per left row: the
      row with its partner, or with none when there is no partner. */
  lemma {:induction false} LeftMergeOneToOne<L, R>(left: seq<L>, right: seq<R>, lk: L -> string, rk: R -> string)
    requires UniqueKeys(right, rk)
    ensures |LeftMerge(left, right, lk, rk)| == |left|
    ensures forall i :: 0 <= i < |left| ==> LeftMerge(left, right, lk, rk)[i].0 == left[i]
    ensures forall i :: 0 <= i < |left| ==>
              (LeftMerge(left, right, lk, rk)[i].1.None? <==> Partnerless(left[i], right, lk, rk))
  {
    if left != [] {
      var first := LeftMatches(left[0], right, lk, rk);
      LeftMatchesOfUniqueKeys(left[0], right, lk, rk);
      var rest := LeftMerge(left[1..], right, lk, rk);
      LeftMergeOneToOne(left[1..], right, lk, rk);
      var m := LeftMerge(left, right, lk, rk);
      assert m == first + rest;
      FrontOne(left, first, rest);
      forall i | 1 <= i < |left|
        ensures m[i].1.None? <==> Partnerless(left[i], right, lk, rk)
      {
        TailAt(left, i);
      }
    }
  }
}
