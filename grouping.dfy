/**
  pandas grouping: `df.groupby(cols).count()` and
  `df.pivot_table(index=a, columns=b, aggfunc='count').fillna(0)`.

  A group key is the tuple of the row's values in the grouping columns. pandas
  sorts the groups by key (`sort=True` is the default), comparing tuples
  element by element as Python does.
*/
module Grouping {
  import opened Text
  import opened Counting

  /** A cell value of a grouping column: an integer (a year, a month number, a date) or a string. */
  datatype Value = Int(i: int) | Str(s: string)

  /** A group key: the tuple of a row's values in the grouping columns. */
  type Key = seq<Value>

  /** Python's `<` on two column values (integers never meet strings in one column). */
  predicate ValueLess(a: Value, b: Value)
  {
    match (a, b)
    case (Int(x), Int(y)) => x < y
    case (Str(x), Str(y)) => StrLess(x, y)
    case (Int(_), Str(_)) => true
    case (Str(_), Int(_)) => false
  }

  /** Python's `<` on two tuples: lexicographic in `ValueLess`. */
  predicate KeyLess(a: Key, b: Key)
    decreases |a|
  {
    if a == [] then b != []
    else if b == [] then false
    else if a[0] != b[0] then ValueLess(a[0], b[0])
    else KeyLess(a[1..], b[1..])
  }

  lemma ValueLessIrreflexive(a: Value)
    ensures !ValueLess(a, a)
  {
    if a.Str? {
      StrLessIrreflexive(a.s);
    }
  }

  lemma ValueLessTransitive(a: Value, b: Value, c: Value)
    requires ValueLess(a, b) && ValueLess(b, c)
    ensures ValueLess(a, c)
  {
    if a.Str? && b.Str? && c.Str? {
      StrLessTransitive(a.s, b.s, c.s);
    }
  }

  lemma ValueLessTotal(a: Value, b: Value)
    requires a != b
    ensures ValueLess(a, b) || ValueLess(b, a)
  {
    if a.Str? && b.Str? {
      StrLessTotal(a.s, b.s);
    }
  }

  lemma {:induction false} KeyLessIrreflexive(a: Key)
    ensures !KeyLess(a, a)
    decreases |a|
  {
    if a != [] {
      KeyLessIrreflexive(a[1..]);
    }
  }

  lemma {:induction false} KeyLessTransitive(a: Key, b: Key, c: Key)
    requires KeyLess(a, b) && KeyLess(b, c)
    ensures KeyLess(a, c)
    decreases |a|
  {
    if a != [] && b != [] && c != [] {
      if a[0] == b[0] && b[0] == c[0] {
        KeyLessTransitive(a[1..], b[1..], c[1..]);
      } else if a[0] != b[0] && b[0] != c[0] {
        ValueLessTransitive(a[0], b[0], c[0]);
        if a[0] == c[0] {
          ValueLessIrreflexive(a[0]);
        }
      }
    }
  }

  lemma {:induction false} KeyLessTotal(a: Key, b: Key)
    requires a != b
    ensures KeyLess(a, b) || KeyLess(b, a)
    decreases |a|
  {
    if a != [] && b != [] {
      if a[0] == b[0] {
        assert a == [a[0]] + a[1..] && b == [b[0]] + b[1..];
        KeyLessTotal(a[1..], b[1..]);
      } else {
        ValueLessTotal(a[0], b[0]);
      }
    }
  }

  // ---------------------------------------------------------------------------
  // groupby(...).count()

  /** The keys of the table strictly increase, as pandas' sorted group index does. */
  predicate Ascending(t: seq<Entry<Key>>)
  {
    forall i, j :: 0 <= i < j < |t| ==> KeyLess(t[i].key, t[j].key)
  }

  /** The count stored for `k`, or 0 when `k` is not a key of the table. */
  function Lookup(t: seq<Entry<Key>>, k: Key): nat
  {
    if t == [] then 0 else if t[0].key == k then t[0].count else Lookup(t[1..], k)
  }

  lemma {:induction false} LookupAbsent(t: seq<Entry<Key>>, k: Key)
    requires k !in KeysOf(t)
    ensures Lookup(t, k) == 0
  {
    if t != [] {
      assert KeysOf(t)[0] == t[0].key;
      assert KeysOf(t[1..]) == KeysOf(t)[1..];
      LookupAbsent(t[1..], k);
    }
  }

  lemma {:induction false} LookupAt(t: seq<Entry<Key>>, i: nat)
    requires Ascending(t) && i < |t|
    ensures Lookup(t, t[i].key) == t[i].count
  {
    if i > 0 {
      KeyLessIrreflexive(t[i].key);
      assert t[0].key != t[i].key;
      assert t[1..][i - 1] == t[i];
      LookupAt(t[1..], i - 1);
    }
  }

  /** Counts one more row with key `k`: a new group in its sorted place, or one more in its group. */
  function AddKey(t: seq<Entry<Key>>, k: Key): (r: seq<Entry<Key>>)
    ensures Total(r) == Total(t) + 1
    ensures forall x :: x in KeysOf(r) <==> x in KeysOf(t) || x == k
    ensures (forall i :: 0 <= i < |t| ==> t[i].count > 0) ==> forall i :: 0 <= i < |r| ==> r[i].count > 0
  {
    if t == [] then [Entry(k, 1)]
    else
      ConsFacts(t[0], t[1..]);
      assert [t[0]] + t[1..] == t;
      if t[0].key == k then
        ConsFacts(Entry(k, t[0].count + 1), t[1..]);
        [Entry(k, t[0].count + 1)] + t[1..]
      else if KeyLess(k, t[0].key) then
        ConsFacts(Entry(k, 1), t);
        [Entry(k, 1)] + t
      else
        var rest := AddKey(t[1..], k);
        ConsFacts(t[0], rest);
        [t[0]] + rest
  }

  lemma {:induction false} AddKeyAscending(t: seq<Entry<Key>>, k: Key)
    requires Ascending(t)
    ensures Ascending(AddKey(t, k))
    ensures forall x :: Lookup(AddKey(t, k), x) == Lookup(t, x) + (if x == k then 1 else 0)
  {
    var r := AddKey(t, k);
    if t == [] {
    } else if t[0].key == k {
      assert r[1..] == t[1..];
      forall i, j | 0 <= i < j < |r| ensures KeyLess(r[i].key, r[j].key) {
        assert r[i].key == t[i].key && r[j].key == t[j].key;
      }
    } else if KeyLess(k, t[0].key) {
      assert r[1..] == t;
      forall i, j | 0 <= i < j < |r| ensures KeyLess(r[i].key, r[j].key) {
        assert r[j] == t[j - 1];
        if i == 0 {
          if j > 1 {
            KeyLessTransitive(k, t[0].key, t[j - 1].key);
          }
        } else {
          assert r[i] == t[i - 1];
        }
      }
      assert k !in KeysOf(t) by {
        forall i | 0 <= i < |t| ensures t[i].key != k {
          KeyLessIrreflexive(k);
          if i > 0 {
            KeyLessTransitive(k, t[0].key, t[i].key);
          }
        }
      }
      LookupAbsent(t, k);
    } else {
      var rest := AddKey(t[1..], k);
      KeyLessTotal(k, t[0].key);
      assert Ascending(t[1..]) by {
        forall i, j | 0 <= i < j < |t[1..]| ensures KeyLess(t[1..][i].key, t[1..][j].key) {
          assert t[1..][i] == t[i + 1] && t[1..][j] == t[j + 1];
        }
      }
      AddKeyAscending(t[1..], k);
      assert r[1..] == rest;
      forall i, j | 0 <= i < j < |r| ensures KeyLess(r[i].key, r[j].key) {
        assert r[j] == rest[j - 1];
        if i == 0 {
          assert KeysOf(rest)[j - 1] == rest[j - 1].key;
          assert rest[j - 1].key in KeysOf(t[1..]) || rest[j - 1].key == k;
          if rest[j - 1].key != k {
            var m :| 0 <= m < |t[1..]| && KeysOf(t[1..])[m] == rest[j - 1].key;
            assert t[m + 1].key == rest[j - 1].key;
          }
        } else {
          assert r[i] == rest[i - 1];
        }
      }
    }
  }

  /**
    `groupby(col).count()`: one entry per distinct key, in ascending key order,
    holding the number of rows with that key.
  */
  function GroupCount(keys: seq<Key>): (t: seq<Entry<Key>>)
    ensures Ascending(t)
    ensures forall i :: 0 <= i < |t| ==> t[i].key in keys && t[i].count == multiset(keys)[t[i].key]
    ensures forall k :: k in keys ==> k in KeysOf(t)
    ensures Total(t) == |keys|
  {
    var t := Tabulate(keys);
    assert forall i :: 0 <= i < |t| ==> t[i].key in keys && t[i].count == multiset(keys)[t[i].key] by {
      forall i | 0 <= i < |t| ensures t[i].key in keys && t[i].count == multiset(keys)[t[i].key] {
        LookupAt(t, i);
      }
    }
    assert forall k :: k in keys ==> k in KeysOf(t) by {
      forall k | k in keys ensures k in KeysOf(t) {
        if k !in KeysOf(t) {
          LookupAbsent(t, k);
        }
      }
    }
    t
  }

  /** The group table of `keys` by plain counting, row by row. */
  function Tabulate(keys: seq<Key>): (t: seq<Entry<Key>>)
    ensures Ascending(t)
    ensures forall k :: Lookup(t, k) == multiset(keys)[k]
    ensures forall i :: 0 <= i < |t| ==> t[i].count > 0
    ensures Total(t) == |keys|
  {
    if keys == [] then []
    else
      var n := |keys| - 1;
      assert keys == keys[..n] + [keys[n]];
      var prev := Tabulate(keys[..n]);
      AddKeyAscending(prev, keys[n]);
      AddKey(prev, keys[n])
  }

  /** The sorted distinct values of a key column (a pandas group or pivot index). */
  function Levels(keys: seq<Key>): (ks: seq<Key>)
    ensures forall i, j :: 0 <= i < j < |ks| ==> KeyLess(ks[i], ks[j])
    ensures forall k :: k in ks <==> k in keys
    ensures Distinct(ks)
  {
    var t := GroupCount(keys);
    assert forall i, j :: 0 <= i < j < |t| ==> t[i].key != t[j].key by {
      forall i, j | 0 <= i < j < |t| ensures t[i].key != t[j].key {
        KeyLessIrreflexive(t[i].key);
      }
    }
    KeysOf(t)
  }

  // ---------------------------------------------------------------------------
  // pivot_table(index=..., columns=..., aggfunc='count').fillna(0)

  /** A cross-tabulation: `cells[i][j]` belongs to row label `index[i]` and column label `columns[j]`. */
  datatype Pivot = Pivot(index: seq<Key>, columns: seq<Key>, cells: seq<seq<nat>>)

  function Firsts(pairs: seq<(Key, Key)>): (r: seq<Key>)
    ensures |r| == |pairs| && forall i :: 0 <= i < |pairs| ==> r[i] == pairs[i].0
  {
    seq(|pairs|, i requires 0 <= i < |pairs| => pairs[i].0)
  }

  function Seconds(pairs: seq<(Key, Key)>): (r: seq<Key>)
    ensures |r| == |pairs| && forall i :: 0 <= i < |pairs| ==> r[i] == pairs[i].1
  {
    seq(|pairs|, i requires 0 <= i < |pairs| => pairs[i].1)
  }

  /** The counts of the pairs `(a, columns[j])`, 0 for a pair that never occurs. */
  function Row(a: Key, columns: seq<Key>, pairs: seq<(Key, Key)>): (row: seq<nat>)
    ensures |row| == |columns|
    ensures forall j :: 0 <= j < |columns| ==> row[j] == multiset(pairs)[(a, columns[j])]
  {
    seq(|columns|, j requires 0 <= j < |columns| => multiset(pairs)[(a, columns[j])])
  }

  function Cells(index: seq<Key>, columns: seq<Key>, pairs: seq<(Key, Key)>): (cells: seq<seq<nat>>)
    ensures |cells| == |index|
    ensures forall i :: 0 <= i < |index| ==> cells[i] == Row(index[i], columns, pairs)
  {
    seq(|index|, i requires 0 <= i < |index| => Row(index[i], columns, pairs))
  }

  /**
    The cross-tabulation of a table of (row label, column label) pairs: the
    labels are the sorted distinct values of each side, and every cell holds the
    number of pairs that fall in it, 0 where none does.
  */
  function CrossTab(pairs: seq<(Key, Key)>): (p: Pivot)
    ensures forall i, j :: 0 <= i < j < |p.index| ==> KeyLess(p.index[i], p.index[j])
    ensures forall i, j :: 0 <= i < j < |p.columns| ==> KeyLess(p.columns[i], p.columns[j])
    ensures forall a :: a in p.index <==> a in Firsts(pairs)
    ensures forall b :: b in p.columns <==> b in Seconds(pairs)
    ensures |p.cells| == |p.index|
    ensures forall i :: 0 <= i < |p.index| ==> |p.cells[i]| == |p.columns|
    ensures forall i, j :: 0 <= i < |p.index| && 0 <= j < |p.columns| ==>
      p.cells[i][j] == multiset(pairs)[(p.index[i], p.columns[j])]
    ensures GridTotal(p.cells) == |pairs|
  {
    var index := Levels(Firsts(pairs));
    var columns := Levels(Seconds(pairs));
    CrossTabTotal(index, columns, pairs);
    Pivot(index, columns, Cells(index, columns, pairs))
  }

  function RowTotal(row: seq<nat>): nat
  {
    if row == [] then 0 else row[0] + RowTotal(row[1..])
  }

  function GridTotal(cells: seq<seq<nat>>): nat
  {
    if cells == [] then 0 else RowTotal(cells[0]) + GridTotal(cells[1..])
  }

  function RowPairs(a: Key, columns: seq<Key>): (r: seq<(Key, Key)>)
    ensures |r| == |columns| && forall j :: 0 <= j < |columns| ==> r[j] == (a, columns[j])
  {
    seq(|columns|, j requires 0 <= j < |columns| => (a, columns[j]))
  }

  /** Every (row label, column label) combination, row by row. */
  function Product(index: seq<Key>, columns: seq<Key>): seq<(Key, Key)>
  {
    if index == [] then [] else RowPairs(index[0], columns) + Product(index[1..], columns)
  }

  lemma {:induction false} RowTotalCounts(a: Key, columns: seq<Key>, pairs: seq<(Key, Key)>)
    ensures RowTotal(Row(a, columns, pairs)) == SumCounts(RowPairs(a, columns), pairs)
  {
    if columns != [] {
      RowTotalCounts(a, columns[1..], pairs);
      assert Row(a, columns, pairs)[1..] == Row(a, columns[1..], pairs);
      assert RowPairs(a, columns)[1..] == RowPairs(a, columns[1..]);
    }
  }

  lemma {:induction false} GridTotalCounts(index: seq<Key>, columns: seq<Key>, pairs: seq<(Key, Key)>)
    ensures GridTotal(Cells(index, columns, pairs)) == SumCounts(Product(index, columns), pairs)
  {
    if index != [] {
      GridTotalCounts(index[1..], columns, pairs);
      assert Cells(index, columns, pairs)[1..] == Cells(index[1..], columns, pairs);
      RowTotalCounts(index[0], columns, pairs);
      SumCountsAppend(RowPairs(index[0], columns), Product(index[1..], columns), pairs);
    }
  }

  lemma {:induction false} ProductMembers(index: seq<Key>, columns: seq<Key>, x: (Key, Key))
    ensures x in Product(index, columns) <==> x.0 in index && x.1 in columns
  {
    if index != [] {
      ProductMembers(index[1..], columns, x);
      assert index == [index[0]] + index[1..];
      if x.0 == index[0] && x.1 in columns {
        var j :| 0 <= j < |columns| && columns[j] == x.1;
        assert RowPairs(index[0], columns)[j] == x;
      }
    }
  }

  lemma {:induction false} ProductDistinct(index: seq<Key>, columns: seq<Key>)
    requires Distinct(index) && Distinct(columns)
    ensures Distinct(Product(index, columns))
  {
    if index != [] {
      var row := RowPairs(index[0], columns);
      var rest := Product(index[1..], columns);
      ProductDistinct(index[1..], columns);
      forall i, j | 0 <= i < j < |row + rest| ensures (row + rest)[i] != (row + rest)[j] {
        if i < |row| && |row| <= j {
          ProductMembers(index[1..], columns, rest[j - |row|]);
          assert (row + rest)[j] == rest[j - |row|];
          assert index == [index[0]] + index[1..];
        }
      }
    }
  }

  /** The cells of a cross-tabulation add up to the number of pairs tabulated. */
  lemma CrossTabTotal(index: seq<Key>, columns: seq<Key>, pairs: seq<(Key, Key)>)
    requires Distinct(index) && Distinct(columns)
    requires forall k :: 0 <= k < |pairs| ==> pairs[k].0 in index && pairs[k].1 in columns
    ensures GridTotal(Cells(index, columns, pairs)) == |pairs|
  {
    GridTotalCounts(index, columns, pairs);
    ProductDistinct(index, columns);
    forall x | x in pairs ensures x in Product(index, columns) {
      ProductMembers(index, columns, x);
    }
    SumCountsPartition(Product(index, columns), pairs);
  }
}
