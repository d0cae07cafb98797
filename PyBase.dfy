/** The few Python and pandas building blocks the pipeline's rules lean on:
    exceptions as results, insertion-ordered dictionaries, list indexing with
    negative wrap-around, `Counter` lookups and `str(int)`. */
module PyBase {

  datatype Option<+T> = None | Some(value: T)

  /** The Python exceptions the modelled code can raise. */
  datatype Error =
    | KeyError(key: string)
    | IndexError
    | ValueError
    | AssertionError

  datatype Result<+T> = Ok(value: T) | Err(error: Error)

  // ---------------------------------------------------------------------------
  // Dictionaries: a Python dict keeps its keys in insertion order, so it is
  // modelled as a sequence of (key, value) pairs.
  // ---------------------------------------------------------------------------

  type Dict<K, V> = seq<(K, V)>

  function Keys<K, V>(d: Dict<K, V>): (ks: seq<K>)
    ensures |ks| == |d|
    ensures forall i :: 0 <= i < |d| ==> ks[i] == d[i].0
  {
    if d == [] then [] else Keys(d[..|d| - 1]) + [d[|d| - 1].0]
  }

  function Values<K, V>(d: Dict<K, V>): (vs: seq<V>)
    ensures |vs| == |d|
    ensures forall i :: 0 <= i < |d| ==> vs[i] == d[i].1
  {
    if d == [] then [] else Values(d[..|d| - 1]) + [d[|d| - 1].1]
  }

  ghost predicate Distinct<T>(s: seq<T>) {
    forall i, j :: 0 <= i < j < |s| ==> s[i] != s[j]
  }

  /** What every Python dict satisfies: no key twice. */
  ghost predicate DistinctKeys<K, V>(d: Dict<K, V>) {
    Distinct(Keys(d))
  }

  /** The position of key `k`, if any. */
  function KeyIndex<K(==), V>(d: Dict<K, V>, k: K): (r: Option<nat>)
    ensures r.None? <==> k !in Keys(d)
    ensures r.Some? ==> r.value < |d| && d[r.value].0 == k
    ensures r.Some? ==> forall j :: 0 <= j < r.value ==> d[j].0 != k
  {
    if d == [] then None
    else if d[0].0 == k then Some(0)
    else match KeyIndex(d[1..], k)
      case None => None
      case Some(j) => Some(j + 1)
  }

  /** `d[k]`: it raises KeyError when `k` is not a key. */
  function Lookup<V>(d: Dict<string, V>, k: string): (r: Result<V>)
    ensures r.Err? <==> k !in Keys(d)
    ensures r.Err? ==> r.error == KeyError(k)
    ensures r.Ok? ==> exists i :: 0 <= i < |d| && d[i] == (k, r.value)
  {
    match KeyIndex(d, k)
    case None => Err(KeyError(k))
    case Some(i) => Ok(d[i].1)
  }

  /** `d[k]` where `k` is known to be a key. */
  function ValueAt<K(==), V>(d: Dict<K, V>, k: K): (v: V)
    requires k in Keys(d)
    ensures exists i :: 0 <= i < |d| && d[i] == (k, v)
    ensures DistinctKeys(d) ==> forall i :: 0 <= i < |d| && d[i].0 == k ==> d[i].1 == v
  {
    var i := KeyIndex(d, k).value;
    assert d[i] == (k, d[i].1);
    d[i].1
  }

  /** `d[k] = v`: an existing key keeps its position and takes the new value,
      a new key goes to the end. */
  function Put<K(==), V>(d: Dict<K, V>, k: K, v: V): (r: Dict<K, V>)
    ensures k in Keys(d) ==> |r| == |d| && forall i :: 0 <= i < |d| ==> r[i] == (if d[i].0 == k then (k, v) else d[i])
    ensures k !in Keys(d) ==> r == d + [(k, v)]
  {
    if k in Keys(d) then seq(|d|, i requires 0 <= i < |d| => if d[i].0 == k then (k, v) else d[i])
    else d + [(k, v)]
  }

  /** `d[k] = v` keeps every key at its place and adds `k` if it was new. */
  lemma KeysOfPut<K, V>(d: Dict<K, V>, k: K, v: V)
    ensures forall j :: 0 <= j < |d| ==> Put(d, k, v)[j].0 == d[j].0
    ensures forall x :: x in Keys(Put(d, k, v)) <==> x in Keys(d) || x == k
  {
    if k !in Keys(d) {
      KeysOfSnoc(d, (k, v));
    } else {
      KeysOfOverwrite(d, k, v);
    }
  }

  /** Overwriting an existing key leaves the key list as it was. */
  lemma KeysOfOverwrite<K, V>(d: Dict<K, V>, k: K, v: V)
    requires k in Keys(d)
    ensures Keys(Put(d, k, v)) == Keys(d)
  {
    var r := Put(d, k, v);
    var kr, kd := Keys(r), Keys(d);
    forall j | 0 <= j < |kr| ensures kr[j] == kd[j] {
      assert r[j].0 == d[j].0;
    }
  }

  /** The keys of a dictionary with one more entry at the end. */
  lemma KeysOfSnoc<K, V>(d: Dict<K, V>, p: (K, V))
    ensures Keys(d + [p]) == Keys(d) + [p.0]
  {
    assert (d + [p])[..|d|] == d;
  }

  /** After `d[k] = v`, reading `d[k]` gives `v`. */
  lemma ValueAtPut<K, V>(d: Dict<K, V>, k: K, v: V)
    ensures k in Keys(Put(d, k, v)) && ValueAt(Put(d, k, v), k) == v
  {
    KeysOfPut(d, k, v);
  }

  /** `d[k] = v` does not change what another key reads. */
  lemma ValueAtPutOther<K, V>(d: Dict<K, V>, k: K, v: V, other: K)
    requires other != k && other in Keys(d)
    ensures other in Keys(Put(d, k, v)) && ValueAt(Put(d, k, v), other) == ValueAt(d, other)
  {
    var r := Put(d, k, v);
    KeysOfPut(d, k, v);
    var i := KeyIndex(d, other).value;
    var j := KeyIndex(r, other).value;
    assert r[i] == d[i];
    assert j < |d| && r[j].0 == d[j].0;
    assert i == j;
  }

  /** Everything `d[k] = v` does to the keys and to the values read back. */
  lemma PutSummary<K, V>(d: Dict<K, V>, k: K, v: V)
    ensures k in Keys(Put(d, k, v)) && ValueAt(Put(d, k, v), k) == v
    ensures forall n :: n in Keys(Put(d, k, v)) <==> n in Keys(d) || n == k
    ensures forall n :: n in Keys(d) && n != k ==> ValueAt(Put(d, k, v), n) == ValueAt(d, n)
    ensures k in Keys(d) ==> Keys(Put(d, k, v)) == Keys(d)
    ensures k !in Keys(d) ==> Keys(Put(d, k, v)) == Keys(d) + [k]
  {
    KeysOfPut(d, k, v);
    ValueAtPut(d, k, v);
    forall n | n in Keys(d) && n != k ensures ValueAt(Put(d, k, v), n) == ValueAt(d, n) {
      ValueAtPutOther(d, k, v, n);
    }
    if k in Keys(d) {
      KeysOfOverwrite(d, k, v);
    } else {
      KeysOfSnoc(d, (k, v));
    }
  }

  /** `zip(ks, vs)`: pairs up to the shorter sequence. */
  function Zip<A, B>(ks: seq<A>, vs: seq<B>): (ps: seq<(A, B)>)
    ensures |ps| == if |ks| <= |vs| then |ks| else |vs|
    ensures forall i :: 0 <= i < |ps| ==> ps[i] == (ks[i], vs[i])
  {
    var n := if |ks| <= |vs| then |ks| else |vs|;
    seq(n, i requires 0 <= i < n => (ks[i], vs[i]))
  }

  /** `{ k: v for k, v in pairs }`: assigns the pairs in order with `Put`. */
  function FromPairs<K(==,!new), V>(ps: seq<(K, V)>): (d: Dict<K, V>)
    ensures forall k :: k in Keys(d) <==> k in Keys(ps)
  {
    if ps == [] then []
    else
      var prev := FromPairs(ps[..|ps| - 1]);
      var last := ps[|ps| - 1];
      assert Keys(ps) == Keys(ps[..|ps| - 1]) + [last.0];
      var r := Put(prev, last.0, last.1);
      assert forall k :: k in Keys(r) <==> k in Keys(prev) || k == last.0;
      r
  }

  lemma {:induction false} PutFreshKeepsDistinct<K, V>(d: Dict<K, V>, k: K, v: V)
    requires DistinctKeys(d) && k !in Keys(d)
    ensures DistinctKeys(d + [(k, v)])
  {
    var r := d + [(k, v)];
    assert Keys(r) == Keys(d) + [k];
  }

  /** With no key repeated, the comprehension is the pair list itself: keys and
      values stay in their positions. */
  lemma {:induction false} FromPairsOfDistinct<K(!new), V>(ps: seq<(K, V)>)
    requires DistinctKeys(ps)
    ensures FromPairs(ps) == ps
  {
    if ps != [] {
      var init := ps[..|ps| - 1];
      var last := ps[|ps| - 1];
      assert DistinctKeys(init) by {
        forall i, j | 0 <= i < j < |init| ensures Keys(init)[i] != Keys(init)[j] {
          assert Keys(init)[i] == Keys(ps)[i] && Keys(init)[j] == Keys(ps)[j];
        }
      }
      FromPairsOfDistinct(init);
      assert last.0 !in Keys(init) by {
        forall i | 0 <= i < |init| ensures Keys(init)[i] != last.0 {
          assert Keys(ps)[i] != Keys(ps)[|ps| - 1];
        }
      }
      assert init + [last] == ps;
    }
  }

  /** A comprehension over `zip(ks, vs)` with distinct `ks`: the i-th key is
      `ks[i]` and its value `vs[i]`, up to the shorter of the two lists. */
  lemma ZipDictPositional<K(!new), V>(ks: seq<K>, vs: seq<V>)
    requires Distinct(ks)
    ensures FromPairs(Zip(ks, vs)) == Zip(ks, vs)
  {
    var ps := Zip(ks, vs);
    assert DistinctKeys(ps) by {
      forall i, j | 0 <= i < j < |ps| ensures Keys(ps)[i] != Keys(ps)[j] {
        assert Keys(ps)[i] == ks[i] && Keys(ps)[j] == ks[j];
      }
    }
    FromPairsOfDistinct(ps);
  }

  // ---------------------------------------------------------------------------
  // Lists
  // ---------------------------------------------------------------------------

  /** `xs[i]` on a Python list: negative indices count from the end, anything
      outside `-len(xs) .. len(xs) - 1` raises IndexError. */
  function PyIndex<T>(xs: seq<T>, i: int): (r: Result<T>)
    ensures r.Ok? <==> -|xs| <= i < |xs|
    ensures 0 <= i < |xs| ==> r == Ok(xs[i])
    ensures -|xs| <= i < 0 ==> r == Ok(xs[|xs| + i])
    ensures r.Err? ==> r.error == IndexError
  {
    if 0 <= i < |xs| then Ok(xs[i])
    else if -|xs| <= i < 0 then Ok(xs[|xs| + i])
    else Err(IndexError)
  }

  /** `df[mask]` with a boolean mask: the rows that satisfy `p`, in order. */
  function Filter<T>(s: seq<T>, p: T -> bool): (r: seq<T>)
    ensures forall i :: 0 <= i < |r| ==> r[i] in s && p(r[i])
    ensures forall i :: 0 <= i < |s| && p(s[i]) ==> s[i] in r
    ensures |r| <= |s|
  {
    if s == [] then []
    else (if p(s[0]) then [s[0]] else []) + Filter(s[1..], p)
  }

  /** A row is kept exactly when it is a row that passes the mask. */
  lemma FilterMembers<T>(s: seq<T>, p: T -> bool)
    ensures forall x :: x in Filter(s, p) <==> x in s && p(x)
  {
    forall x | x in s && p(x) ensures x in Filter(s, p) {
      var i :| 0 <= i < |s| && s[i] == x;
    }
  }

  /** The mask of a concatenation is the concatenation of the masks: rows
      keep their relative order, and each row is kept or dropped on its own. */
  lemma {:induction false} FilterAppend<T>(s: seq<T>, t: seq<T>, p: T -> bool)
    ensures Filter(s + t, p) == Filter(s, p) + Filter(t, p)
  {
    if s != [] {
      FilterAppend(s[1..], t, p);
      assert (s + t)[1..] == s[1..] + t;
    } else {
      assert s + t == t;
    }
  }

  /** A mask and its negation split the rows: together they hold every row
      exactly as often as the input. */
  lemma {:induction false} FilterSplits<T>(s: seq<T>, p: T -> bool, notP: T -> bool)
    requires forall i :: 0 <= i < |s| ==> notP(s[i]) == !p(s[i])
    ensures multiset(Filter(s, p)) + multiset(Filter(s, notP)) == multiset(s)
  {
    if s != [] {
      var rest := s[1..];
      FilterSplits(rest, p, notP);
      assert s == [s[0]] + rest;
      SplitHead(s[0], rest, p(s[0]), Filter(rest, p), Filter(rest, notP), Filter(s, p), Filter(s, notP));
    }
  }

  /** One more row in front: it goes to one side of the split. */
  lemma SplitHead<T>(x: T, rest: seq<T>, keep: bool, fa: seq<T>, fb: seq<T>, a: seq<T>, b: seq<T>)
    requires multiset(fa) + multiset(fb) == multiset(rest)
    requires a == (if keep then [x] else []) + fa
    requires b == (if keep then [] else [x]) + fb
    ensures multiset(a) + multiset(b) == multiset([x] + rest)
  {
  }

  /** `xs.pop(i)` for a valid non-negative index: the list without position `i`. */
  function RemoveAt<T>(xs: seq<T>, i: nat): (r: seq<T>)
    requires i < |xs|
    ensures |r| == |xs| - 1
    ensures forall j :: 0 <= j < i ==> r[j] == xs[j]
    ensures forall j :: i <= j < |r| ==> r[j] == xs[j + 1]
  {
    xs[..i] + xs[i + 1..]
  }

  /** `xs.index(x)`: the first position holding `x`. */
  function IndexOf<T(==)>(xs: seq<T>, x: T): (i: nat)
    requires x in xs
    ensures i < |xs| && xs[i] == x
    ensures forall j :: 0 <= j < i ==> xs[j] != x
  {
    if xs[0] == x then 0 else 1 + IndexOf(xs[1..], x)
  }

  /** The first position holding `x` is the one `index` returns. */
  lemma {:induction false} IndexOfAt<T>(xs: seq<T>, x: T, i: nat)
    requires i < |xs| && xs[i] == x
    requires forall j :: 0 <= j < i ==> xs[j] != x
    ensures IndexOf(xs, x) == i
  {
    if i > 0 {
      assert xs[1..][i - 1] == x;
      IndexOfAt(xs[1..], x, i - 1);
    }
  }

  /** `Counter(xs)[x]`, which is 0 for an `x` never seen. */
  function Count<T(==)>(xs: seq<T>, x: T): (n: nat)
    ensures n <= |xs|
  {
    if xs == [] then 0
    else (if xs[|xs| - 1] == x then 1 else 0) + Count(xs[..|xs| - 1], x)
  }

  lemma {:induction false} CountPositive<T>(xs: seq<T>, x: T)
    ensures Count(xs, x) > 0 <==> x in xs
  {
    if xs != [] {
      CountPositive(xs[..|xs| - 1], x);
      assert xs == xs[..|xs| - 1] + [xs[|xs| - 1]];
    }
  }

  lemma {:induction false} CountAppend<T>(xs: seq<T>, ys: seq<T>, x: T)
    ensures Count(xs + ys, x) == Count(xs, x) + Count(ys, x)
  {
    if ys != [] {
      var zs := xs + ys;
      assert zs[..|zs| - 1] == xs + ys[..|ys| - 1];
      CountAppend(xs, ys[..|ys| - 1], x);
    } else {
      assert xs + ys == xs;
    }
  }

  // ---------------------------------------------------------------------------
  // str(int)
  // ---------------------------------------------------------------------------

  function DigitChar(d: nat): (c: char)
    requires d < 10
    ensures '0' <= c <= '9'
  {
    "0123456789"[d]
  }

  /** Decimal digits of a natural number, without leading zeros. */
  function NatToString(n: nat): (s: string)
    ensures |s| >= 1
    ensures forall i :: 0 <= i < |s| ==> '0' <= s[i] <= '9'
    ensures n > 0 ==> s[0] != '0'
    ensures n == 0 <==> s == "0"
  {
    if n < 10 then [DigitChar(n)] else NatToString(n / 10) + [DigitChar(n % 10)]
  }

  /** The number a string of decimal digits denotes, as `int(s)` reads it. */
  function DigitsValue(s: string): nat
    requires forall i :: 0 <= i < |s| ==> '0' <= s[i] <= '9'
  {
    if s == [] then 0 else DigitsValue(s[..|s| - 1]) * 10 + (s[|s| - 1] as int - '0' as int)
  }

  lemma DigitCharValue(d: nat)
    requires d < 10
    ensures DigitChar(d) as int - '0' as int == d
  {
  }

  /** `int(str(n)) == n`: the digits written are the digits of `n`. */
  lemma {:induction false} NatToStringRoundTrip(n: nat)
    ensures DigitsValue(NatToString(n)) == n
  {
    var s := NatToString(n);
    if n < 10 {
      DigitCharValue(n);
      assert s[..0] == [];
    } else {
      NatToStringRoundTrip(n / 10);
      DigitCharValue(n % 10);
      assert s[..|s| - 1] == NatToString(n / 10);
    }
  }

  /** `str(i)` of an integer. */
  function IntToString(i: int): (s: string)
    ensures |s| >= 1
    ensures i < 0 <==> s[0] == '-'
  {
    if i < 0 then "-" + NatToString(-i) else NatToString(i)
  }

  /** A decimal integer with an optional leading minus sign. */
  predicate IsIntText(s: string) {
    && |s| >= 1
    && (s[0] == '-' ==> |s| >= 2)
    && forall k :: (if s[0] == '-' then 1 else 0) <= k < |s| ==> '0' <= s[k] <= '9'
  }

  /** `int(s)` of a decimal integer. */
  function ParseInt(s: string): int
    requires IsIntText(s)
  {
    if s[0] == '-' then -(DigitsValue(s[1..]) as int) else DigitsValue(s)
  }

  /** `int(str(i)) == i`. */
  lemma IntToStringRoundTrip(i: int)
    ensures IsIntText(IntToString(i))
    ensures ParseInt(IntToString(i)) == i
  {
    if i < 0 {
      NatToStringRoundTrip(-i);
      SignedDigits(NatToString(-i));
    } else {
      NatToStringRoundTrip(i);
      UnsignedDigits(NatToString(i));
    }
  }

  lemma SignedDigits(n: string)
    requires |n| >= 1 && forall k :: 0 <= k < |n| ==> '0' <= n[k] <= '9'
    ensures IsIntText("-" + n) && ParseInt("-" + n) == -(DigitsValue(n) as int)
  {
    assert ("-" + n)[1..] == n;
  }

  lemma UnsignedDigits(n: string)
    requires |n| >= 1 && forall k :: 0 <= k < |n| ==> '0' <= n[k] <= '9'
    ensures IsIntText(n) && ParseInt(n) == DigitsValue(n)
  {
  }

  /** Two integers are written alike exactly when they are equal, so
      keys cast to text match exactly when the integers do. */
  lemma IntToStringInjective(i: int, j: int)
    ensures IntToString(i) == IntToString(j) <==> i == j
  {
    IntToStringRoundTrip(i);
    IntToStringRoundTrip(j);
  }

}
