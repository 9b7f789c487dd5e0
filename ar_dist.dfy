/**
  The length-distribution maps of the AdapterRemoval module (`arc_mate1`,
  `arc_mate2`, ..., `arc_all`): for every category, variant and sample, a
  sparse map from read length to count. The nested dictionaries of the
  source are flattened into one map keyed by (category, variant, sample); a
  key is present exactly when the source has created that per-sample map.
 */
module AdapterRemovalDist {
  import opened AdapterRemovalFormat

  /** `arc_<cat>[variant][sample]`. */
  datatype Slot = Slot(cat: Category, variant: Variant, sample: string)

  type Dist = map<Slot, map<int, int>>

  /** The per-sample maps one row of variant `v` writes. */
  function SlotsOf(v: Variant, s: string): (r: set<Slot>)
    ensures forall sl :: sl in r <==> sl.variant == v && sl.sample == s && HasCategory(v, sl.cat)
  {
    EveryCategory();
    set c | c in Categories && HasCategory(v, c) :: Slot(c, v, s)
  }

  /** A per-sample map, or the empty one the source would create. */
  function Lookup(arc: Dist, sl: Slot): map<int, int>
  {
    if sl in arc then arc[sl] else map[]
  }

  /** The rows are wide enough for the variant (no `IndexError`). */
  predicate Fits(rows: seq<seq<int>>, v: Variant)
  {
    forall i :: 0 <= i < |rows| ==> |rows[i]| >= RowWidth(v)
  }

  /**
    The writes of one row for the first `k` categories of the layout, in
    layout order: each category's map is created if missing and gets length
    `row[0]` set to the category's column.
   */
  function WriteUpTo(arc: Dist, v: Variant, s: string, row: seq<int>, k: nat): Dist
    requires |row| >= RowWidth(v) && k <= |Layout(v)|
    decreases k
  {
    if k == 0 then arc
    else
      var prev := WriteUpTo(arc, v, s, row, k - 1);
      var slot := Slot(Layout(v)[k - 1], v, s);
      prev[slot := Lookup(prev, slot)[row[0] := row[k]]]
  }

  /** Slots outside the sample's own are as in `arc0`. */
  ghost predicate OthersKept(arc0: Dist, arc: Dist, v: Variant, s: string)
  {
    forall sl :: sl !in SlotsOf(v, s) ==> (sl in arc <==> sl in arc0) && (sl in arc0 ==> arc[sl] == arc0[sl])
  }

  /** The categories in columns up to `k` hold the row's counts. */
  ghost predicate DoneUpTo(arc0: Dist, arc: Dist, v: Variant, s: string, row: seq<int>, k: nat)
    requires |row| >= RowWidth(v)
  {
    forall c :: HasCategory(v, c) && Column(v, c) <= k ==>
      && Slot(c, v, s) in arc
      && arc[Slot(c, v, s)] == Lookup(arc0, Slot(c, v, s))[row[0] := row[Column(v, c)]]
  }

  /** The categories in columns after `k` are as in `arc0`. */
  ghost predicate PendingAfter(arc0: Dist, arc: Dist, v: Variant, s: string, k: nat)
  {
    forall c :: HasCategory(v, c) && Column(v, c) > k ==>
      && (Slot(c, v, s) in arc <==> Slot(c, v, s) in arc0)
      && Lookup(arc, Slot(c, v, s)) == Lookup(arc0, Slot(c, v, s))
  }

  ghost predicate WrittenUpTo(arc0: Dist, arc: Dist, v: Variant, s: string, row: seq<int>, k: nat)
    requires |row| >= RowWidth(v)
  {
    OthersKept(arc0, arc, v, s) && DoneUpTo(arc0, arc, v, s, row, k) && PendingAfter(arc0, arc, v, s, k)
  }

  lemma OthersStep(arc0: Dist, arc: Dist, v: Variant, s: string, row: seq<int>, k: nat)
    requires |row| >= RowWidth(v) && k < |Layout(v)|
    requires OthersKept(arc0, arc, v, s)
    ensures var slot := Slot(Layout(v)[k], v, s);
      OthersKept(arc0, arc[slot := Lookup(arc, slot)[row[0] := row[k + 1]]], v, s)
  {
    var slot := Slot(Layout(v)[k], v, s);
    var after := arc[slot := Lookup(arc, slot)[row[0] := row[k + 1]]];
    ColumnOfLayout(v, k);
    assert slot in SlotsOf(v, s);
    forall sl | sl !in SlotsOf(v, s) ensures (sl in after <==> sl in arc0) && (sl in arc0 ==> after[sl] == arc0[sl]) {
      assert sl != slot;
    }
  }

  lemma DoneStep(arc0: Dist, arc: Dist, v: Variant, s: string, row: seq<int>, k: nat)
    requires |row| >= RowWidth(v) && k < |Layout(v)|
    requires DoneUpTo(arc0, arc, v, s, row, k) && PendingAfter(arc0, arc, v, s, k)
    ensures var slot := Slot(Layout(v)[k], v, s);
      DoneUpTo(arc0, arc[slot := Lookup(arc, slot)[row[0] := row[k + 1]]], v, s, row, k + 1)
  {
    var slot := Slot(Layout(v)[k], v, s);
    var after := arc[slot := Lookup(arc, slot)[row[0] := row[k + 1]]];
    ColumnOfLayout(v, k);
    forall c | HasCategory(v, c) && Column(v, c) <= k + 1
      ensures Slot(c, v, s) in after && after[Slot(c, v, s)] == Lookup(arc0, Slot(c, v, s))[row[0] := row[Column(v, c)]]
    {
      if Column(v, c) == k + 1 {
        LayoutOfColumn(v, c);
      } else {
        assert Slot(c, v, s) != slot;
      }
    }
  }

  lemma PendingStep(arc0: Dist, arc: Dist, v: Variant, s: string, row: seq<int>, k: nat)
    requires |row| >= RowWidth(v) && k < |Layout(v)|
    requires PendingAfter(arc0, arc, v, s, k)
    ensures var slot := Slot(Layout(v)[k], v, s);
      PendingAfter(arc0, arc[slot := Lookup(arc, slot)[row[0] := row[k + 1]]], v, s, k + 1)
  {
    var slot := Slot(Layout(v)[k], v, s);
    var after := arc[slot := Lookup(arc, slot)[row[0] := row[k + 1]]];
    ColumnOfLayout(v, k);
    forall c | HasCategory(v, c) && Column(v, c) > k + 1
      ensures (Slot(c, v, s) in after <==> Slot(c, v, s) in arc0) && Lookup(after, Slot(c, v, s)) == Lookup(arc0, Slot(c, v, s))
    {
      assert Slot(c, v, s) != slot;
    }
  }

  lemma WrittenStep(arc0: Dist, arc: Dist, v: Variant, s: string, row: seq<int>, k: nat)
    requires |row| >= RowWidth(v) && k < |Layout(v)|
    requires WrittenUpTo(arc0, arc, v, s, row, k)
    ensures var slot := Slot(Layout(v)[k], v, s);
      WrittenUpTo(arc0, arc[slot := Lookup(arc, slot)[row[0] := row[k + 1]]], v, s, row, k + 1)
  {
    OthersStep(arc0, arc, v, s, row, k);
    DoneStep(arc0, arc, v, s, row, k);
    PendingStep(arc0, arc, v, s, row, k);
  }

  /** The first `k` writes have written exactly the first `k` categories. */
  lemma {:induction false} WriteUpToWritten(arc: Dist, v: Variant, s: string, row: seq<int>, k: nat)
    requires |row| >= RowWidth(v) && k <= |Layout(v)|
    ensures WrittenUpTo(arc, WriteUpTo(arc, v, s, row, k), v, s, row, k)
    decreases k
  {
    if k == 0 {
      WrittenNone(arc, v, s, row);
    } else {
      WriteUpToWritten(arc, v, s, row, k - 1);
      WriteUpToStep(arc, v, s, row, k - 1);
    }
  }

  lemma WrittenNone(arc: Dist, v: Variant, s: string, row: seq<int>)
    requires |row| >= RowWidth(v)
    ensures WrittenUpTo(arc, WriteUpTo(arc, v, s, row, 0), v, s, row, 0)
  {
  }

  lemma WriteUpToStep(arc: Dist, v: Variant, s: string, row: seq<int>, k: nat)
    requires |row| >= RowWidth(v) && k < |Layout(v)|
    requires WrittenUpTo(arc, WriteUpTo(arc, v, s, row, k), v, s, row, k)
    ensures WrittenUpTo(arc, WriteUpTo(arc, v, s, row, k + 1), v, s, row, k + 1)
  {
    WrittenStep(arc, WriteUpTo(arc, v, s, row, k), v, s, row, k);
  }

  /**
    One row of `set_len_dist` for sample `s`: each of the variant's category
    maps is created if missing and gets length `row[0]` set to the row's
    column for that category; every other map is left alone.
   */
  function ApplyRow(arc: Dist, v: Variant, s: string, row: seq<int>): (r: Dist)
    requires |row| >= RowWidth(v)
    ensures forall sl :: sl !in SlotsOf(v, s) ==> (sl in r <==> sl in arc) && (sl in arc ==> r[sl] == arc[sl])
    ensures forall c :: HasCategory(v, c) ==>
      Slot(c, v, s) in r && r[Slot(c, v, s)] == Lookup(arc, Slot(c, v, s))[row[0] := row[Column(v, c)]]
  {
    var r := WriteUpTo(arc, v, s, row, |Layout(v)|);
    WriteUpToWritten(arc, v, s, row, |Layout(v)|);
    r
  }

  /** The two facts `ApplyRow` promises determine it. */
  lemma ApplyRowUnique(arc0: Dist, arc: Dist, v: Variant, s: string, row: seq<int>)
    requires |row| >= RowWidth(v)
    requires forall sl :: sl !in SlotsOf(v, s) ==> (sl in arc <==> sl in arc0) && (sl in arc0 ==> arc[sl] == arc0[sl])
    requires forall c :: HasCategory(v, c) ==>
      Slot(c, v, s) in arc && arc[Slot(c, v, s)] == Lookup(arc0, Slot(c, v, s))[row[0] := row[Column(v, c)]]
    ensures arc == ApplyRow(arc0, v, s, row)
  {
    var want := ApplyRow(arc0, v, s, row);
    forall sl | sl in SlotsOf(v, s) ensures sl in arc && sl in want && arc[sl] == want[sl] {
      assert sl == Slot(sl.cat, v, s);
    }
    assert arc.Keys == want.Keys;
    forall sl | sl in arc ensures arc[sl] == want[sl] {
    }
  }

  /** The rows applied in order. */
  function ApplyRows(arc: Dist, v: Variant, s: string, rows: seq<seq<int>>): Dist
    requires Fits(rows, v)
    decreases |rows|
  {
    if rows == [] then arc
    else ApplyRow(ApplyRows(arc, v, s, rows[..|rows| - 1]), v, s, rows[|rows| - 1])
  }

  lemma ApplyRowsSnoc(arc: Dist, v: Variant, s: string, rows: seq<seq<int>>, row: seq<int>)
    requires Fits(rows, v) && |row| >= RowWidth(v)
    ensures Fits(rows + [row], v)
    ensures ApplyRows(arc, v, s, rows + [row]) == ApplyRow(ApplyRows(arc, v, s, rows), v, s, row)
  {
    assert (rows + [row])[..|rows|] == rows;
  }

  /** The lengths the rows mention (their column 0). */
  function RowKeys(rows: seq<seq<int>>): set<int>
    requires forall i :: 0 <= i < |rows| ==> |rows[i]| > 0
  {
    set i | 0 <= i < |rows| :: rows[i][0]
  }

  /**
    The invariant the module keeps: a variant only has maps for its own
    categories, and a sample's maps for one variant exist together and have
    the same lengths as keys.
   */
  ghost predicate Coherent(arc: Dist)
  {
    && (forall sl :: sl in arc ==> HasCategory(sl.variant, sl.cat))
    && (forall sl, c :: sl in arc && HasCategory(sl.variant, c) ==>
          Slot(c, sl.variant, sl.sample) in arc && arc[Slot(c, sl.variant, sl.sample)].Keys == arc[sl].Keys)
  }

  /** The new maps of the row's own sample share their lengths. */
  lemma ApplyRowSameSample(arc: Dist, v: Variant, s: string, row: seq<int>, c1: Category, c2: Category)
    requires Coherent(arc) && |row| >= RowWidth(v)
    requires HasCategory(v, c1) && HasCategory(v, c2)
    ensures var r := ApplyRow(arc, v, s, row);
      Slot(c1, v, s) in r && Slot(c2, v, s) in r && r[Slot(c1, v, s)].Keys == r[Slot(c2, v, s)].Keys
  {
    var sl1, sl2 := Slot(c1, v, s), Slot(c2, v, s);
    var r := ApplyRow(arc, v, s, row);
    assert sl1 in arc ==> sl2 in arc && arc[sl2].Keys == arc[sl1].Keys;
    assert sl2 in arc ==> Slot(c1, sl2.variant, sl2.sample) in arc;
    assert Lookup(arc, sl1).Keys == Lookup(arc, sl2).Keys;
    assert r[sl1].Keys == Lookup(arc, sl1).Keys + {row[0]};
    assert r[sl2].Keys == Lookup(arc, sl2).Keys + {row[0]};
  }

  lemma ApplyRowCoherent(arc: Dist, v: Variant, s: string, row: seq<int>)
    requires Coherent(arc) && |row| >= RowWidth(v)
    ensures Coherent(ApplyRow(arc, v, s, row))
  {
    var r := ApplyRow(arc, v, s, row);
    forall sl | sl in r ensures HasCategory(sl.variant, sl.cat) {
      if sl !in SlotsOf(v, s) {
        assert sl in arc;
      }
    }
    forall sl, c | sl in r && HasCategory(sl.variant, c)
      ensures Slot(c, sl.variant, sl.sample) in r && r[Slot(c, sl.variant, sl.sample)].Keys == r[sl].Keys
    {
      if sl.variant == v && sl.sample == s {
        assert HasCategory(v, sl.cat);
        ApplyRowSameSample(arc, v, s, row, c, sl.cat);
        assert sl == Slot(sl.cat, v, s);
      } else {
        var other := Slot(c, sl.variant, sl.sample);
        assert sl !in SlotsOf(v, s) && other !in SlotsOf(v, s);
        assert sl in arc;
        assert other in arc && arc[other].Keys == arc[sl].Keys;
      }
    }
  }

  /** Applying rows keeps the invariant. */
  lemma {:induction false} ApplyRowsCoherent(arc: Dist, v: Variant, s: string, rows: seq<seq<int>>)
    requires Coherent(arc) && Fits(rows, v)
    ensures Coherent(ApplyRows(arc, v, s, rows))
    decreases |rows|
  {
    if rows != [] {
      ApplyRowsCoherent(arc, v, s, rows[..|rows| - 1]);
      ApplyRowCoherent(ApplyRows(arc, v, s, rows[..|rows| - 1]), v, s, rows[|rows| - 1]);
    }
  }

  /** Nothing else changes: maps of other samples and other variants are untouched. */
  lemma {:induction false} ApplyRowsOtherSlots(arc: Dist, v: Variant, s: string, rows: seq<seq<int>>, sl: Slot)
    requires Fits(rows, v)
    requires sl.variant != v || sl.sample != s
    ensures var r := ApplyRows(arc, v, s, rows);
      (sl in r <==> sl in arc) && (sl in arc ==> r[sl] == arc[sl])
    decreases |rows|
  {
    if rows != [] {
      ApplyRowsOtherSlots(arc, v, s, rows[..|rows| - 1], sl);
    }
  }

  /** One more row adds its length to the lengths mentioned. */
  lemma RowKeysSnoc(rows: seq<seq<int>>)
    requires |rows| > 0 && forall i :: 0 <= i < |rows| ==> |rows[i]| > 0
    ensures RowKeys(rows) == RowKeys(rows[..|rows| - 1]) + {rows[|rows| - 1][0]}
  {
    var init := rows[..|rows| - 1];
    forall k | k in RowKeys(rows) ensures k in RowKeys(init) + {rows[|rows| - 1][0]} {
      var i :| 0 <= i < |rows| && rows[i][0] == k;
      if i < |rows| - 1 {
        assert init[i] == rows[i];
      }
    }
    forall k | k in RowKeys(init) ensures k in RowKeys(rows) {
      var i :| 0 <= i < |init| && init[i][0] == k;
      assert rows[i] == init[i];
    }
  }

  /**
    After the rows, each of the sample's category maps for the variant exists
    (if there was a row, or it existed before) and its lengths are the old
    ones plus those of the rows: maps are never reset, so a repeated sample
    name merges entries.
   */
  lemma {:induction false} ApplyRowsKeys(arc: Dist, v: Variant, s: string, rows: seq<seq<int>>, c: Category)
    requires Fits(rows, v) && HasCategory(v, c)
    ensures var r := ApplyRows(arc, v, s, rows);
      && (Slot(c, v, s) in r <==> Slot(c, v, s) in arc || rows != [])
      && Lookup(r, Slot(c, v, s)).Keys == Lookup(arc, Slot(c, v, s)).Keys + RowKeys(rows)
    decreases |rows|
  {
    if rows != [] {
      var init := rows[..|rows| - 1];
      ApplyRowsKeys(arc, v, s, init, c);
      RowKeysSnoc(rows);
    } else {
      assert RowKeys(rows) == {};
    }
  }

  /**
    Last write wins: the count stored for a length is that of the last row
    with that length, read from the category's column.
   */
  lemma {:induction false} ApplyRowsLastWins(arc: Dist, v: Variant, s: string, rows: seq<seq<int>>, c: Category, j: nat)
    requires Fits(rows, v) && HasCategory(v, c)
    requires j < |rows|
    requires forall i :: j < i < |rows| ==> rows[i][0] != rows[j][0]
    ensures var r := ApplyRows(arc, v, s, rows);
      Slot(c, v, s) in r && rows[j][0] in r[Slot(c, v, s)] && r[Slot(c, v, s)][rows[j][0]] == rows[j][Column(v, c)]
    decreases |rows|
  {
    var init := rows[..|rows| - 1];
    var last := rows[|rows| - 1];
    var prev := ApplyRows(arc, v, s, init);
    assert ApplyRows(arc, v, s, rows) == ApplyRow(prev, v, s, last);
    if j < |rows| - 1 {
      forall i | j < i < |init| ensures init[i][0] != init[j][0] {
        assert init[i] == rows[i] && init[j] == rows[j];
      }
      ApplyRowsLastWins(arc, v, s, init, c, j);
      assert init[j] == rows[j];
      ApplyRowKeepsLength(prev, v, s, last, c, rows[j][0]);
    }
  }

  /** A row leaves the count of any other length alone. */
  lemma ApplyRowKeepsLength(arc: Dist, v: Variant, s: string, row: seq<int>, c: Category, k: int)
    requires |row| >= RowWidth(v) && HasCategory(v, c) && k != row[0]
    requires Slot(c, v, s) in arc && k in arc[Slot(c, v, s)]
    ensures var r := ApplyRow(arc, v, s, row);
      Slot(c, v, s) in r && k in r[Slot(c, v, s)] && r[Slot(c, v, s)][k] == arc[Slot(c, v, s)][k]
  {
  }

  /** A length no row mentions keeps its old count. */
  lemma {:induction false} ApplyRowsKeepsOthers(arc: Dist, v: Variant, s: string, rows: seq<seq<int>>, c: Category, k: int)
    requires Fits(rows, v) && HasCategory(v, c)
    requires forall i :: 0 <= i < |rows| ==> rows[i][0] != k
    requires Slot(c, v, s) in arc && k in arc[Slot(c, v, s)]
    ensures var r := ApplyRows(arc, v, s, rows);
      Slot(c, v, s) in r && k in r[Slot(c, v, s)] && r[Slot(c, v, s)][k] == arc[Slot(c, v, s)][k]
    decreases |rows|
  {
    if rows != [] {
      ApplyRowsKeepsOthers(arc, v, s, rows[..|rows| - 1], c, k);
    }
  }

  /** The lengths of a sample's category maps other than `all`, for one variant. */
  function OtherKeys(arc: Dist, v: Variant, s: string): set<int>
  {
    set sl, k | sl in arc && sl.variant == v && sl.sample == s && sl.cat != All && k in arc[sl] :: k
  }

  /** Under the invariant, the lengths in the `all` map are the union of those of the other categories. */
  lemma AllIsUnion(arc: Dist, v: Variant, s: string)
    requires Coherent(arc) && Slot(All, v, s) in arc
    ensures arc[Slot(All, v, s)].Keys == OtherKeys(arc, v, s)
  {
    var all := Slot(All, v, s);
    var mate1 := Slot(Mate1, v, s);
    assert HasCategory(v, Mate1);
    assert mate1 in arc && arc[mate1].Keys == arc[all].Keys;
    forall k | k in arc[all] ensures k in OtherKeys(arc, v, s) {
      assert k in arc[mate1];
    }
    forall k | k in OtherKeys(arc, v, s) ensures k in arc[all] {
      var sl :| sl in arc && sl.variant == v && sl.sample == s && sl.cat != All && k in arc[sl];
      assert HasCategory(sl.variant, All);
      assert Slot(All, sl.variant, sl.sample) == all;
    }
  }

  /** `arc_<c>[v]`: the per-sample maps of one category, as handed to the line graph. */
  function CategoryView(arc: Dist, c: Category, v: Variant): (r: map<string, map<int, int>>)
    ensures forall s :: s in r <==> Slot(c, v, s) in arc
    ensures forall s :: s in r ==> r[s] == arc[Slot(c, v, s)]
  {
    map sl | sl in arc && sl.cat == c && sl.variant == v :: sl.sample := arc[sl]
  }
}
