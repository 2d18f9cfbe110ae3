/**
  The small part of pandas the scripts rely on, over rows of any type:
  a DataFrame is a sequence of rows, each carrying its index label.
  Filtering (`dropna`, boolean selection) and column derivation keep the
  labels, `drop_duplicates` keeps the first row of each key, and
  `reset_index(drop=True)` relabels the rows 0, 1, 2, ...
 */
module Frame {

  /** A row together with its index label. */
  datatype Labeled<T> = Labeled(index: int, row: T)

  /** A fresh RangeIndex: `pd.DataFrame(rows)`, `concat(..., ignore_index=True)`. */
  function Enumerate<T>(rows: seq<T>): (f: seq<Labeled<T>>)
    ensures |f| == |rows|
    ensures forall i :: 0 <= i < |f| ==> f[i] == Labeled(i, rows[i])
  {
    seq(|rows|, i requires 0 <= i < |rows| => Labeled(i, rows[i]))
  }

  /** The rows of a frame, without their labels. */
  function Rows<T>(f: seq<Labeled<T>>): (r: seq<T>)
    ensures |r| == |f|
    ensures forall i :: 0 <= i < |r| ==> r[i] == f[i].row
  {
    seq(|f|, i requires 0 <= i < |f| => f[i].row)
  }

  /** `reset_index(drop=True)`: same rows in the same order, labelled 0, 1, 2, ... */
  function ResetIndex<T>(f: seq<Labeled<T>>): (r: seq<Labeled<T>>)
    ensures |r| == |f|
    ensures forall i :: 0 <= i < |r| ==> r[i].index == i && r[i].row == f[i].row
  {
    Enumerate(Rows(f))
  }

  /** Keep the rows satisfying `keep`, in order, with their labels. */
  function Filter<T>(f: seq<Labeled<T>>, keep: T -> bool): (r: seq<Labeled<T>>)
    ensures forall i :: 0 <= i < |r| ==> r[i] in f && keep(r[i].row)
    ensures forall i :: 0 <= i < |f| && keep(f[i].row) ==> f[i] in r
  {
    if f == [] then []
    else if keep(f[0].row) then [f[0]] + Filter(f[1..], keep)
    else Filter(f[1..], keep)
  }

  /** Replace each row by `g` of it, keeping the labels. */
  function MapRows<T, U>(f: seq<Labeled<T>>, g: T -> U): (r: seq<Labeled<U>>)
    ensures |r| == |f|
    ensures forall i :: 0 <= i < |r| ==> r[i] == Labeled(f[i].index, g(f[i].row))
  {
    seq(|f|, i requires 0 <= i < |f| => Labeled(f[i].index, g(f[i].row)))
  }

  /** Labels strictly increase along the frame: its rows are in their original order. */
  ghost predicate Increasing<T>(f: seq<Labeled<T>>)
  {
    forall i, j :: 0 <= i < j < |f| ==> f[i].index < f[j].index
  }

  /**
    `f` is the order-preserving selection of `rows` (whose labels are their
    positions) of exactly the rows satisfying `keep`, each transformed by `g`.
   */
  ghost predicate Selects<T, U>(f: seq<Labeled<U>>, rows: seq<T>, keep: T -> bool, g: T -> U)
  {
    && Increasing(f)
    && (forall i :: 0 <= i < |f| ==>
          0 <= f[i].index < |rows| && keep(rows[f[i].index]) && f[i].row == g(rows[f[i].index]))
    && (forall l :: 0 <= l < |rows| && keep(rows[l]) ==> Labeled(l, g(rows[l])) in f)
  }

  /** A fresh frame over `rows` selects all of them, unchanged. */
  lemma SelectsAll<T>(rows: seq<T>, keep: T -> bool, g: T -> T)
    requires forall x :: keep(x)
    requires forall x :: g(x) == x
    ensures Selects(Enumerate(rows), rows, keep, g)
  {
    var f := Enumerate(rows);
    forall l | 0 <= l < |rows| && keep(rows[l])
      ensures Labeled(l, g(rows[l])) in f
    {
      assert f[l] == Labeled(l, rows[l]);
    }
  }

  lemma {:induction false} FilterIncreasing<T>(f: seq<Labeled<T>>, keep: T -> bool)
    requires Increasing(f)
    ensures Increasing(Filter(f, keep))
  {
    if f != [] {
      FilterIncreasing(f[1..], keep);
      var rest := Filter(f[1..], keep);
      forall x | x in rest
        ensures f[0].index < x.index
      {
        var i :| 0 <= i < |f[1..]| && f[1..][i] == x;
        assert f[i + 1] == x;
      }
    }
  }

  /** In an increasing frame, positions are ordered as their labels are. */
  lemma PositionOrder<T>(f: seq<Labeled<T>>, a: nat, b: nat)
    requires Increasing(f) && a < |f| && b < |f| && f[a].index < f[b].index
    ensures a < b
  {
  }

  /** What a selection says about its row at position `i`. */
  lemma SelectedAt<T, U>(f: seq<Labeled<U>>, rows: seq<T>, keep: T -> bool, g: T -> U, i: int)
    requires Selects(f, rows, keep, g) && 0 <= i < |f|
    ensures 0 <= f[i].index < |rows| && keep(rows[f[i].index]) && f[i].row == g(rows[f[i].index])
  {
  }

  /** Where a selection holds a row that passes `keep`. */
  lemma SelectedPosition<T, U>(f: seq<Labeled<U>>, rows: seq<T>, keep: T -> bool, g: T -> U, l: int)
    returns (p: nat)
    requires Selects(f, rows, keep, g) && 0 <= l < |rows| && keep(rows[l])
    ensures p < |f| && f[p] == Labeled(l, g(rows[l]))
  {
    p :| 0 <= p < |f| && f[p] == Labeled(l, g(rows[l]));
  }

  /** Filtering a selection selects the rows that also pass the filter. */
  lemma SelectsFilter<T, U>(f: seq<Labeled<U>>, rows: seq<T>, keep: T -> bool, g: T -> U,
                            p: U -> bool, keep2: T -> bool)
    requires Selects(f, rows, keep, g)
    requires forall x :: keep2(x) == (keep(x) && p(g(x)))
    ensures Selects(Filter(f, p), rows, keep2, g)
  {
    FilterIncreasing(f, p);
  }

  /** Transforming the rows of a selection composes the transformations. */
  lemma SelectsMap<T, U, V>(f: seq<Labeled<U>>, rows: seq<T>, keep: T -> bool, g: T -> U,
                            h: U -> V, g2: T -> V)
    requires Selects(f, rows, keep, g)
    requires forall x :: g2(x) == h(g(x))
    ensures Selects(MapRows(f, h), rows, keep, g2)
  {
    var r := MapRows(f, h);
    forall x | x in r
      ensures 0 <= x.index < |rows| && keep(rows[x.index]) && x.row == g2(rows[x.index])
    {
      var i :| 0 <= i < |r| && r[i] == x;
      assert f[i] in f;
    }
    forall l | 0 <= l < |rows| && keep(rows[l])
      ensures Labeled(l, g2(rows[l])) in r
    {
      var i :| 0 <= i < |f| && f[i] == Labeled(l, g(rows[l]));
      assert r[i] == Labeled(l, g2(rows[l]));
    }
  }

  // ---------------------------------------------------------------- drop_duplicates

  /** `drop_duplicates(subset=key)`: keep the first row of each key, in order. */
  function DropDuplicates<T, K(==)>(f: seq<Labeled<T>>, key: T -> K): seq<Labeled<T>>
  {
    DropSeen(f, key, {})
  }

  /** Keep the first row of each key not already in `seen`. */
  function DropSeen<T, K(==)>(f: seq<Labeled<T>>, key: T -> K, seen: set<K>): (r: seq<Labeled<T>>)
    ensures forall i :: 0 <= i < |r| ==> r[i] in f && key(r[i].row) !in seen
  {
    if f == [] then []
    else if key(f[0].row) in seen then DropSeen(f[1..], key, seen)
    else [f[0]] + DropSeen(f[1..], key, seen + {key(f[0].row)})
  }

  /** No two rows of `f` share a key. */
  ghost predicate DistinctKeys<T, K>(f: seq<Labeled<T>>, key: T -> K)
  {
    forall i, j :: 0 <= i < j < |f| ==> key(f[i].row) != key(f[j].row)
  }

  /** No two kept rows share a key. */
  lemma {:induction false} DropSeenDistinct<T, K>(f: seq<Labeled<T>>, key: T -> K, seen: set<K>)
    ensures DistinctKeys(DropSeen(f, key, seen), key)
  {
    if f != [] {
      if key(f[0].row) in seen {
        DropSeenDistinct(f[1..], key, seen);
        assert DropSeen(f, key, seen) == DropSeen(f[1..], key, seen);
      } else {
        var k := key(f[0].row);
        DropSeenDistinct(f[1..], key, seen + {k});
        var rest := DropSeen(f[1..], key, seen + {k});
        assert forall j :: 0 <= j < |rest| ==> rest[j] in rest;
      }
    }
  }

  /** The kept rows stay in their original order. */
  lemma {:induction false} DropSeenIncreasing<T, K>(f: seq<Labeled<T>>, key: T -> K, seen: set<K>)
    requires Increasing(f)
    ensures Increasing(DropSeen(f, key, seen))
  {
    if f != [] {
      var k0 := key(f[0].row);
      var seen' := if k0 in seen then seen else seen + {k0};
      DropSeenIncreasing(f[1..], key, seen');
      var rest := DropSeen(f[1..], key, seen');
      assert DropSeen(f, key, seen) == if k0 in seen then rest else [f[0]] + rest;
      forall x | x in rest
        ensures f[0].index < x.index
      {
        var i :| 0 <= i < |f[1..]| && f[1..][i] == x;
        assert f[i + 1] == x;
      }
    }
  }

  /** Row `i` is kept exactly when neither `seen` nor any earlier row has its key. */
  lemma {:induction false} DropSeenAt<T, K>(f: seq<Labeled<T>>, key: T -> K, seen: set<K>, i: nat)
    requires Increasing(f) && i < |f|
    ensures f[i] in DropSeen(f, key, seen) <==>
            key(f[i].row) !in seen && forall k :: 0 <= k < i ==> key(f[k].row) != key(f[i].row)
    decreases i
  {
    var k0 := key(f[0].row);
    var seen' := if k0 in seen then seen else seen + {k0};
    var r := DropSeen(f, key, seen);
    var rest := DropSeen(f[1..], key, seen');
    assert r == if k0 in seen then rest else [f[0]] + rest;
    if i == 0 {
      assert f[0] !in rest;
    } else {
      DropSeenAt(f[1..], key, seen', i - 1);
      assert f[1..][i - 1] == f[i];
      assert f[i] != f[0];
      assert (f[i] in r) == (f[i] in rest);
      assert (forall k :: 0 <= k < i ==> key(f[k].row) != key(f[i].row)) <==>
             (k0 != key(f[i].row) &&
              forall k :: 0 <= k < i - 1 ==> key(f[1..][k].row) != key(f[1..][i - 1].row));
    }
  }

  /**
    A row is kept exactly when neither `seen` nor any earlier row has its key;
    the kept rows stay in their original order.
   */
  lemma DropSeenFirst<T, K>(f: seq<Labeled<T>>, key: T -> K, seen: set<K>)
    requires Increasing(f)
    ensures Increasing(DropSeen(f, key, seen))
    ensures forall i :: 0 <= i < |f| ==>
              (f[i] in DropSeen(f, key, seen) <==>
               key(f[i].row) !in seen && forall k :: 0 <= k < i ==> key(f[k].row) != key(f[i].row))
  {
    DropSeenIncreasing(f, key, seen);
    forall i | 0 <= i < |f|
      ensures f[i] in DropSeen(f, key, seen) <==>
              key(f[i].row) !in seen && forall k :: 0 <= k < i ==> key(f[k].row) != key(f[i].row)
    {
      DropSeenAt(f, key, seen, i);
    }
  }

  /** Every key of the frame survives deduplication. */
  lemma {:induction false} DropDuplicatesKeepsKeys<T, K>(f: seq<Labeled<T>>, key: T -> K, i: nat)
    requires Increasing(f) && i < |f|
    ensures exists j :: 0 <= j <= i && key(f[j].row) == key(f[i].row) && f[j] in DropDuplicates(f, key)
    decreases i
  {
    DropSeenFirst(f, key, {});
    if exists k :: 0 <= k < i && key(f[k].row) == key(f[i].row) {
      var k :| 0 <= k < i && key(f[k].row) == key(f[i].row);
      DropDuplicatesKeepsKeys(f, key, k);
    }
  }
}
