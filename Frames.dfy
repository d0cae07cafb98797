/** The slice of pandas the tasks use on whole tables: column assignment
    (`df['c'] = values`), the cast to text (`astype('string')`), projection (`df[[...]]`) and renaming
    (`df.rename(columns={...})`). A table is its ordered columns, each a
    name and the column's cells, plus its row count. */
module Frames {
  import opened PyBase

  /** A cell. Geometries are opaque: only their identity matters here. */
  datatype Value =
    | Text(s: string)
    | Int(i: int)
    | Number(x: real)
    | Flag(b: bool)
    | Shape(id: nat)
    | Missing

  datatype Table = Table(columns: Dict<string, seq<Value>>, height: nat)

  ghost predicate WellFormed(t: Table) {
    && DistinctKeys(t.columns)
    && forall i :: 0 <= i < |t.columns| ==> |t.columns[i].1| == t.height
  }

  function Names(t: Table): seq<string> {
    Keys(t.columns)
  }

  /** The text cells of a list of strings. */
  function Texts(xs: seq<string>): (vs: seq<Value>)
    ensures |vs| == |xs| && forall i :: 0 <= i < |xs| ==> vs[i] == Text(xs[i])
  {
    seq(|xs|, i requires 0 <= i < |xs| => Text(xs[i]))
  }

  /** The first of `names` that is not a column. */
  function FirstMissing(t: Table, names: seq<string>): (n: string)
    requires exists n :: n in names && n !in Names(t)
    ensures n in names && n !in Names(t)
  {
    if names[0] !in Names(t) then names[0]
    else
      assert exists n :: n in names[1..] && n !in Names(t) by {
        var n :| n in names && n !in Names(t);
        var i :| 0 <= i < |names| && names[i] == n;
        assert names[1..][i - 1] == n;
      }
      FirstMissing(t, names[1..])
  }

  /** The named columns, in the order of `names`. */
  function Columns(t: Table, names: seq<string>): (cols: Dict<string, seq<Value>>)
    requires forall i :: 0 <= i < |names| ==> names[i] in Keys(t.columns)
    ensures Keys(cols) == names
    ensures forall i :: 0 <= i < |names| ==> cols[i] == (names[i], ValueAt(t.columns, names[i]))
  {
    var cols := seq(|names|, i requires 0 <= i < |names| && names[i] in Keys(t.columns) => (names[i], ValueAt(t.columns, names[i])));
    assert Keys(cols) == names;
    cols
  }

  /** `df[names]`: the named columns in the order asked for; a name that is
      not a column raises KeyError. */
  function Select(t: Table, names: seq<string>): (r: Result<Table>)
    ensures r.Ok? <==> forall n :: n in names ==> n in Names(t)
    ensures r.Err? ==> exists n :: n in names && n !in Names(t) && r.error == KeyError(n)
    ensures r.Ok? ==> Names(r.value) == names && r.value.height == t.height
    ensures r.Ok? ==> forall i :: 0 <= i < |names| ==> names[i] in Names(t) && r.value.columns[i] == (names[i], ValueAt(t.columns, names[i]))
  {
    if forall n :: n in names ==> n in Names(t) then
      assert forall i :: 0 <= i < |names| ==> names[i] in Keys(t.columns) by {
        forall i | 0 <= i < |names| ensures names[i] in Keys(t.columns) {
          assert names[i] in names;
        }
      }
      Ok(Table(Columns(t, names), t.height))
    else
      Err(KeyError(FirstMissing(t, names)))
  }

  /** Projecting on two names succeeds when the two are columns, and gives
      them in that order. */
  lemma SelectTwo(t: Table, a: string, b: string)
    ensures Select(t, [a, b]).Ok? <==> a in Names(t) && b in Names(t)
    ensures Select(t, [a, b]).Ok? ==>
              var p := Select(t, [a, b]).value;
              && Names(p) == [a, b] && p.height == t.height
              && p.columns[0] == (a, ValueAt(t.columns, a))
              && p.columns[1] == (b, ValueAt(t.columns, b))
  {
    var names := [a, b];
    assert forall n :: n in names <==> n == a || n == b;
  }

  /** Projecting on three names succeeds when the three are columns, and
      gives them in that order. */
  lemma SelectThree(t: Table, a: string, b: string, c: string)
    ensures Select(t, [a, b, c]).Ok? <==> a in Names(t) && b in Names(t) && c in Names(t)
    ensures Select(t, [a, b, c]).Ok? ==>
              var p := Select(t, [a, b, c]).value;
              && Names(p) == [a, b, c] && p.height == t.height
              && p.columns[0] == (a, ValueAt(t.columns, a))
              && p.columns[1] == (b, ValueAt(t.columns, b))
              && p.columns[2] == (c, ValueAt(t.columns, c))
    ensures !(a in Names(t) && b in Names(t) && c in Names(t)) ==>
              Select(t, [a, b, c]) == Err(KeyError(if a !in Names(t) then a else if b !in Names(t) then b else c))
  {
    var names := [a, b, c];
    assert forall n :: n in names <==> n == a || n == b || n == c;
    if !(a in Names(t) && b in Names(t) && c in Names(t)) {
      assert names[1..] == [b, c] && names[1..][1..] == [c];
      if a !in Names(t) {
        assert FirstMissing(t, names) == a;
      } else if b !in Names(t) {
        assert FirstMissing(t, names[1..]) == b;
      } else {
        assert FirstMissing(t, names[1..][1..]) == c;
      }
    }
  }

  /** `df[name] = values` with a list: a length other than the row count
      raises ValueError; an existing column is overwritten in place and a new
      one is added at the end. */
  function Assign(t: Table, name: string, values: seq<Value>): (r: Result<Table>)
    ensures r.Ok? <==> |values| == t.height
    ensures r.Err? ==> r.error == ValueError
    ensures r.Ok? ==> r.value.height == t.height
    ensures r.Ok? ==> name in Names(r.value) && ValueAt(r.value.columns, name) == values
    ensures r.Ok? ==> forall n :: n in Names(r.value) <==> n in Names(t) || n == name
    ensures r.Ok? ==> forall n :: n in Names(t) && n != name ==> ValueAt(r.value.columns, n) == ValueAt(t.columns, n)
    ensures r.Ok? && name in Names(t) ==> Names(r.value) == Names(t)
    ensures r.Ok? && name !in Names(t) ==> Names(r.value) == Names(t) + [name]
  {
    if |values| != t.height then Err(ValueError)
    else
      PutSummary(t.columns, name, values);
      Ok(Table(Put(t.columns, name, values), t.height))
  }

  /** `df.rename(columns={from: to})`: every column called `from` is called
      `to`; cells, order and all other names are kept. */
  function Rename(t: Table, from: string, to: string): (r: Table)
    ensures r.height == t.height && |r.columns| == |t.columns|
    ensures forall i :: 0 <= i < |t.columns| ==>
              r.columns[i] == (if t.columns[i].0 == from then to else t.columns[i].0, t.columns[i].1)
  {
    Table(seq(|t.columns|, i requires 0 <= i < |t.columns| =>
      (if t.columns[i].0 == from then to else t.columns[i].0, t.columns[i].1)), t.height)
  }

  /** The names after a rename, as a set: `from` is gone and `to` is there
      when `from` was. */
  lemma RenameNames(t: Table, from: string, to: string)
    requires from != to
    ensures forall n :: n in Names(Rename(t, from, to)) <==> (n in Names(t) && n != from) || (n == to && from in Names(t))
  {
    var r := Rename(t, from, to);
    forall n ensures n in Names(r) <==> (n in Names(t) && n != from) || (n == to && from in Names(t)) {
      if n in Names(r) {
        var i :| 0 <= i < |r.columns| && Names(r)[i] == n;
        assert t.columns[i].0 in Names(t);
      }
      if n in Names(t) && n != from {
        var i :| 0 <= i < |t.columns| && Names(t)[i] == n;
        assert Names(r)[i] == n;
      }
      if n == to && from in Names(t) {
        var i :| 0 <= i < |t.columns| && Names(t)[i] == from;
        assert Names(r)[i] == to;
      }
    }
  }

  /** Renaming to a fresh name keeps the names distinct. */
  lemma RenameDistinct(t: Table, from: string, to: string)
    requires DistinctKeys(t.columns) && to !in Names(t)
    ensures DistinctKeys(Rename(t, from, to).columns)
  {
    var r := Rename(t, from, to);
    forall i, j | 0 <= i < j < |r.columns| ensures Names(r)[i] != Names(r)[j] {
      assert Names(t)[i] != Names(t)[j];
      assert t.columns[i].0 in Names(t) && t.columns[j].0 in Names(t);
    }
  }

  /** A column found under `n` in the table is found at the same place,
      under its new name, after the rename. */
  lemma RenameCell(t: Table, from: string, to: string, n: string)
    requires n in Names(t)
    ensures exists i :: 0 <= i < |t.columns| && t.columns[i] == (n, ValueAt(t.columns, n)) &&
                        Rename(t, from, to).columns[i] == (if n == from then to else n, ValueAt(t.columns, n))
  {
  }

  /** After `rename(columns={from: to})` the names are the old ones with
      `from` replaced by `to`. When `to` was not a column and the names were
      distinct, they stay distinct, `to` holds the cells of `from` and every
      other column keeps its cells. */
  lemma RenameFacts(t: Table, from: string, to: string)
    requires from != to
    ensures forall n :: n in Names(Rename(t, from, to)) <==> (n in Names(t) && n != from) || (n == to && from in Names(t))
    ensures DistinctKeys(t.columns) && to !in Names(t) ==> DistinctKeys(Rename(t, from, to).columns)
    ensures DistinctKeys(t.columns) && from in Names(t) && to !in Names(t) ==>
              to in Names(Rename(t, from, to)) && ValueAt(Rename(t, from, to).columns, to) == ValueAt(t.columns, from)
    ensures DistinctKeys(t.columns) && to !in Names(t) ==>
              forall n :: n in Names(t) && n != from ==>
                n in Names(Rename(t, from, to)) && ValueAt(Rename(t, from, to).columns, n) == ValueAt(t.columns, n)
  {
    var r := Rename(t, from, to);
    RenameNames(t, from, to);
    if DistinctKeys(t.columns) && to !in Names(t) {
      RenameDistinct(t, from, to);
      if from in Names(t) {
        RenameCell(t, from, to, from);
      }
      forall n | n in Names(t) && n != from
        ensures n in Names(r) && ValueAt(r.columns, n) == ValueAt(t.columns, n)
      {
        RenameCell(t, from, to, n);
      }
    }
  }

  /** `astype('string')` on one cell: text stays as it is, an integer is
      written in decimal, a float as `floatRepr` writes it (Python's `str`
      of a float is not modelled), a flag as `True` or `False`; a missing
      cell stays missing and a geometry is left as it is. */
  function AsString(v: Value, floatRepr: real -> string): (r: Value)
    ensures r.Text? || r.Missing? || r.Shape?
    ensures v.Text? ==> r == v
    ensures v.Int? ==> r == Text(IntToString(v.i))
    ensures r.Missing? <==> v.Missing?
    ensures r.Shape? <==> v.Shape?
  {
    match v
    case Text(_) => v
    case Int(i) => Text(IntToString(i))
    case Number(x) => Text(floatRepr(x))
    case Flag(b) => Text(if b then "True" else "False")
    case Shape(_) => v
    case Missing => v
  }

  /** Casting twice is casting once. */
  lemma AsStringIdempotent(v: Value, floatRepr: real -> string)
    ensures AsString(AsString(v, floatRepr), floatRepr) == AsString(v, floatRepr)
  {
  }

  /** Two integer cells cast to the same text exactly when they hold the
      same integer: a join on cast keys pairs the same rows as a join on
      the integers. */
  lemma AsStringIntKeys(i: int, j: int, floatRepr: real -> string)
    ensures AsString(Int(i), floatRepr) == AsString(Int(j), floatRepr) <==> i == j
  {
    IntToStringInjective(i, j);
  }

  /** A column cast cell by cell. */
  function AsStrings(cells: seq<Value>, floatRepr: real -> string): (r: seq<Value>)
    ensures |r| == |cells|
    ensures forall i :: 0 <= i < |cells| ==> r[i] == AsString(cells[i], floatRepr)
  {
    seq(|cells|, i requires 0 <= i < |cells| => AsString(cells[i], floatRepr))
  }

  /** `df[name] = df[name].astype('string')`: KeyError when there is no
      such column; otherwise the column, in its place, holds its cells cast
      to text, and every other column is kept. */
  function CastColumn(t: Table, name: string, floatRepr: real -> string): (r: Result<Table>)
    ensures name !in Names(t) ==> r == Err(KeyError(name))
    ensures name in Names(t) && WellFormed(t) ==> r.Ok?
    ensures r.Ok? ==> r.value.height == t.height && Names(r.value) == Names(t)
    ensures r.Ok? ==> ValueAt(r.value.columns, name) == AsStrings(ValueAt(t.columns, name), floatRepr)
    ensures r.Ok? ==> forall n :: n in Names(t) && n != name ==> ValueAt(r.value.columns, n) == ValueAt(t.columns, n)
  {
    if name !in Names(t) then Err(KeyError(name))
    else
      var cells := ValueAt(t.columns, name);
      Assign(t, name, AsStrings(cells, floatRepr))
  }

  /** A data frame object that tasks hand around and update in place. */
  class Frame {
    var table: Table

    constructor (t: Table)
      ensures table == t
    {
      table := t;
    }

    /** `frame[name] = values`: on a length mismatch pandas raises and the
        frame is left as it was. */
    method SetColumn(name: string, values: seq<Value>) returns (ok: bool)
      modifies this
      ensures ok <==> |values| == old(table).height
      ensures ok ==> Assign(old(table), name, values) == Ok(table)
      ensures !ok ==> table == old(table)
    {
      var r := Assign(table, name, values);
      ok := r.Ok?;
      if ok {
        table := r.value;
      }
    }
  }
}
