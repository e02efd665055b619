/**
 Reference counting in general: cells that each hold one resource, and a counter
 per resource. A counter table is balanced with the cells when every counter is
 the exact number of cells that hold its resource. Physical frames, shared
 backings and open-file descriptions are all counted this way.
 */
module Ledger {

  /** The cells that hold the resource `v`. */
  ghost function Holders<K, V>(cells: map<K, V>, v: V): set<K> {
    set k | k in cells && cells[k] == v
  }

  /** Every counter is positive and equals the number of cells holding its resource. */
  ghost predicate Balanced<K, V>(cells: map<K, V>, counts: map<V, nat>) {
    && (forall k :: k in cells ==> cells[k] in counts)
    && (forall v :: v in counts ==> counts[v] > 0 && counts[v] == |Holders(cells, v)|)
  }

  /** The counters after one more cell takes a reference to `v`. */
  function Raised<V>(counts: map<V, nat>, v: V): map<V, nat> {
    counts[v := (if v in counts then counts[v] else 0) + 1]
  }

  /** The counters after one reference to `v` is dropped; the last one frees it. */
  function Lowered<V>(counts: map<V, nat>, v: V): map<V, nat>
    requires v in counts && counts[v] > 0
  {
    if counts[v] == 1 then counts - {v} else counts[v := counts[v] - 1]
  }

  lemma Put<K, V>(cells: map<K, V>, counts: map<V, nat>, k: K, v: V)
    requires Balanced(cells, counts)
    requires k !in cells
    ensures Balanced(cells[k := v], Raised(counts, v))
  {
    var cells' := cells[k := v];
    var counts' := Raised(counts, v);
    assert Holders(cells', v) == Holders(cells, v) + {k};
    if v !in counts {
      assert Holders(cells, v) == {};
    }
    forall w | w in counts' && w != v
      ensures counts'[w] > 0 && counts'[w] == |Holders(cells', w)|
    {
      assert Holders(cells', w) == Holders(cells, w);
    }
  }

  lemma Take<K, V>(cells: map<K, V>, counts: map<V, nat>, k: K)
    requires Balanced(cells, counts)
    requires k in cells
    ensures counts[cells[k]] > 0
    ensures Balanced(cells - {k}, Lowered(counts, cells[k]))
  {
    var v := cells[k];
    var cells' := cells - {k};
    var counts' := Lowered(counts, v);
    assert Holders(cells', v) == Holders(cells, v) - {k};
    assert k in Holders(cells, v);
    if counts[v] == 1 {
      Unique(Holders(cells, v), k);
    }
    forall w | w in counts' && w != v
      ensures counts'[w] > 0 && counts'[w] == |Holders(cells', w)|
    {
      assert Holders(cells', w) == Holders(cells, w);
    }
  }

  lemma Unique<K>(s: set<K>, k: K)
    requires k in s && |s| == 1
    ensures s == {k}
  {
    assert |s - {k}| == 0;
  }

  /** A counter of one means that no other cell holds the resource. */
  lemma SoleHolder<K, V>(cells: map<K, V>, counts: map<V, nat>, k: K, other: K)
    requires Balanced(cells, counts)
    requires k in cells && counts[cells[k]] == 1
    requires other in cells && other != k
    ensures cells[other] != cells[k]
  {
    var v := cells[k];
    assert k in Holders(cells, v);
    assert other in Holders(cells, v) <==> cells[other] == v;
    Unique(Holders(cells, v), k);
  }

  // ---------- Renaming the cells ----------

  /** The same holdings under other names; `f` is its own inverse. */
  ghost predicate Renames<K(!new), V>(cells: map<K, V>, cells': map<K, V>, f: K -> K) {
    && (forall k {:trigger k in cells'} :: k in cells' <==> f(k) in cells)
    && (forall k {:trigger cells'[k]} :: k in cells' ==> f(k) in cells && cells'[k] == cells[f(k)])
  }

  ghost predicate Involution<K(!new)>(f: K -> K) {
    forall k :: f(f(k)) == k
  }

  function Renamed<K(!new), V>(cells: map<K, V>, f: K -> K): (r: map<K, V>)
    requires Involution(f)
    ensures Renames(cells, r, f)
  {
    map k | k in (set x | x in cells :: f(x)) :: cells[f(k)]
  }

  lemma RenamedBalanced<K(!new), V(!new)>(cells: map<K, V>, cells': map<K, V>, counts: map<V, nat>, f: K -> K)
    requires Balanced(cells, counts) && Involution(f) && Renames(cells, cells', f)
    ensures Balanced(cells', counts)
  {
    forall v | v in counts
      ensures counts[v] == |Holders(cells', v)|
    {
      RenamedHolders(cells, cells', v, f);
      SameSize(Holders(cells, v), f);
    }
  }

  lemma RenamedHolders<K(!new), V>(cells: map<K, V>, cells': map<K, V>, v: V, f: K -> K)
    requires Involution(f) && Renames(cells, cells', f)
    ensures Holders(cells', v) == Image(Holders(cells, v), f)
  {
    forall k | k in Holders(cells', v)
      ensures k in Image(Holders(cells, v), f)
    {
      assert f(k) in Holders(cells, v) && f(f(k)) == k;
    }
    forall k | k in Image(Holders(cells, v), f)
      ensures k in Holders(cells', v)
    {
      var x :| x in Holders(cells, v) && f(x) == k;
      assert f(f(x)) == x;
      assert f(k) in cells;
      assert k in cells';
    }
  }

  ghost function Image<K>(s: set<K>, f: K -> K): set<K> {
    set x | x in s :: f(x)
  }

  lemma {:induction false} SameSize<K(!new)>(s: set<K>, f: K -> K)
    requires Involution(f)
    ensures |Image(s, f)| == |s|
    decreases s
  {
    if s != {} {
      var x :| x in s;
      SameSize(s - {x}, f);
      assert Image(s, f) == Image(s - {x}, f) + {f(x)};
      forall y | y in s - {x}
        ensures f(y) != f(x)
      {
        assert f(f(y)) == y && f(f(x)) == x;
      }
    }
  }
}
