/**
 * The load-time rule of `load_csv_data`: the table must have the three
 * required columns; a row whose product name or selling price is empty is
 * dropped; an empty regular price becomes 0; row order is kept.
 */
module Loader {
  import opened Wrappers

  /** The three required column headers (after whitespace trimming). */
  const NameColumn: string := "اسم الصنف"
  const SellingColumn: string := "سعر البيع"
  const RegularColumn: string := "السعر الاصلي"

  /** One row as read from the sheet; an empty (NaN) cell is `None`. Prices are in hundredths. */
  datatype Row = Row(name: Option<string>, selling: Option<int>, regular: Option<int>)

  /** The parsed sheet: its trimmed column headers and its rows in file order. */
  datatype Table = Table(columns: set<string>, rows: seq<Row>)

  /** A row kept after loading: name and selling price present, regular price filled in. */
  datatype Record = Record(name: string, selling: int, regular: int)

  /** `dropna(subset=[name, selling])` keeps exactly the rows for which this holds. */
  predicate Complete(r: Row)
  {
    r.name.Some? && r.selling.Some?
  }

  /** The record of a kept row: `fillna(0)` on the regular price. */
  function Fill(r: Row): Record
    requires Complete(r)
  {
    Record(r.name.value, r.selling.value, r.regular.GetOr(0))
  }

  /**
   * `rec` is what loading makes of the complete row `r`: its name, its selling
   * price, and its regular price, or 0 where that cell is empty.
   */
  predicate Filled(rec: Record, r: Row)
    requires Complete(r)
  {
    && rec.name == r.name.value
    && rec.selling == r.selling.value
    && rec.regular == (if r.regular.None? then 0 else r.regular.value)
  }

  /** Drop the incomplete rows and fill the regular price of the others. */
  function KeepRows(rows: seq<Row>): seq<Record>
  {
    if rows == [] then []
    else (if Complete(rows[0]) then [Fill(rows[0])] else []) + KeepRows(rows[1..])
  }

  /** How many rows the drop rule removes. */
  function DroppedCount(rows: seq<Row>): nat
  {
    if rows == [] then 0
    else (if Complete(rows[0]) then 0 else 1) + DroppedCount(rows[1..])
  }

  /** The positions, offset by `base`, of the complete rows of `rows`. */
  function SourceIndices(rows: seq<Row>, base: nat): seq<nat>
  {
    if rows == [] then []
    else (if Complete(rows[0]) then [base] else []) + SourceIndices(rows[1..], base + 1)
  }

  lemma {:induction false} SourceIndicesBounds(rows: seq<Row>, base: nat)
    ensures |SourceIndices(rows, base)| == |KeepRows(rows)|
    ensures forall k :: 0 <= k < |SourceIndices(rows, base)| ==>
      base <= SourceIndices(rows, base)[k] < base + |rows|
  {
    if rows != [] {
      SourceIndicesBounds(rows[1..], base + 1);
    }
  }

  lemma {:induction false} SourceIndicesSound(rows: seq<Row>, base: nat, k: nat)
    requires k < |SourceIndices(rows, base)|
    ensures base <= SourceIndices(rows, base)[k] < base + |rows| && k < |KeepRows(rows)|
    ensures var i := SourceIndices(rows, base)[k] - base;
      Complete(rows[i]) && KeepRows(rows)[k] == Fill(rows[i])
  {
    SourceIndicesBounds(rows, base);
    var tail := rows[1..];
    var rest := SourceIndices(tail, base + 1);
    var headLen := if Complete(rows[0]) then 1 else 0;
    if k >= headLen {
      SourceIndicesSound(tail, base + 1, k - headLen);
      SourceIndicesBounds(tail, base + 1);
      assert SourceIndices(rows, base)[k] == rest[k - headLen];
      assert KeepRows(rows)[k] == KeepRows(tail)[k - headLen];
      assert tail[rest[k - headLen] - (base + 1)] == rows[rest[k - headLen] - base];
    }
  }

  lemma {:induction false} SourceIndicesAscending(rows: seq<Row>, base: nat)
    ensures forall k, l :: 0 <= k < l < |SourceIndices(rows, base)| ==>
      SourceIndices(rows, base)[k] < SourceIndices(rows, base)[l]
  {
    if rows != [] {
      SourceIndicesAscending(rows[1..], base + 1);
      SourceIndicesBounds(rows[1..], base + 1);
    }
  }

  lemma {:induction false} SourceIndicesCover(rows: seq<Row>, base: nat, i: nat)
    requires i < |rows| && Complete(rows[i])
    ensures base + i in SourceIndices(rows, base)
  {
    if i > 0 {
      assert rows[1..][i - 1] == rows[i];
      SourceIndicesCover(rows[1..], base + 1, i - 1);
    }
  }

  /**
   * `load_csv_data`: `None` when a required column is missing (the column
   * lookups raise inside the `try`), otherwise the kept rows.
   */
  function LoadCsv(t: Table): (r: Option<seq<Record>>)
    ensures r.None? <==> (NameColumn !in t.columns || SellingColumn !in t.columns || RegularColumn !in t.columns)
    ensures r.Some? ==> r.value == KeepRows(t.rows)
  {
    if NameColumn in t.columns && SellingColumn in t.columns && RegularColumn in t.columns
    then Some(KeepRows(t.rows))
    else None
  }

  /**
   * The loaded records are exactly the complete rows, filled, in input order:
   * the k-th record comes from the k-th complete row, whose name and selling
   * price it takes, and whose regular price it takes or 0 where that cell is empty.
   */
  lemma KeptAreCompleteRowsInOrder(rows: seq<Row>)
    ensures var o := SourceIndices(rows, 0);
      && |o| == |KeepRows(rows)|
      && (forall k :: 0 <= k < |o| ==> o[k] < |rows| && Complete(rows[o[k]]) && Filled(KeepRows(rows)[k], rows[o[k]]))
      && (forall k, l :: 0 <= k < l < |o| ==> o[k] < o[l])
      && (forall i :: 0 <= i < |rows| && Complete(rows[i]) ==> i in o)
  {
    var o := SourceIndices(rows, 0);
    SourceIndicesBounds(rows, 0);
    SourceIndicesAscending(rows, 0);
    forall k | 0 <= k < |o|
      ensures o[k] < |rows| && Complete(rows[o[k]]) && Filled(KeepRows(rows)[k], rows[o[k]])
    {
      SourceIndicesSound(rows, 0, k);
    }
    forall i | 0 <= i < |rows| && Complete(rows[i])
      ensures i in o
    {
      SourceIndicesCover(rows, 0, i);
    }
  }

  /** Loading distributes over concatenation of sheets: order is preserved. */
  lemma {:induction false} KeepRowsAppend(a: seq<Row>, b: seq<Row>)
    ensures KeepRows(a + b) == KeepRows(a) + KeepRows(b)
  {
    if a != [] {
      assert (a + b)[1..] == a[1..] + b;
      KeepRowsAppend(a[1..], b);
    } else {
      assert a + b == b;
    }
  }

  /** Kept plus dropped is the number of input rows. */
  lemma {:induction false} KeepRowsCount(rows: seq<Row>)
    ensures |KeepRows(rows)| == |rows| - DroppedCount(rows)
    ensures DroppedCount(rows) <= |rows|
  {
    if rows != [] {
      KeepRowsCount(rows[1..]);
    }
  }

  /**
   * Every kept record carries a regular price: the one in its own source row,
   * or 0 where that row's cell is empty.
   */
  lemma {:induction false} KeptRegularPrice(rows: seq<Row>, k: nat)
    requires k < |KeepRows(rows)|
    ensures |SourceIndices(rows, 0)| == |KeepRows(rows)|
    ensures var i := SourceIndices(rows, 0)[k];
      && i < |rows|
      && (rows[i].regular.None? ==> KeepRows(rows)[k].regular == 0)
      && (rows[i].regular.Some? ==> KeepRows(rows)[k].regular == rows[i].regular.value)
  {
    KeptAreCompleteRowsInOrder(rows);
  }
}
