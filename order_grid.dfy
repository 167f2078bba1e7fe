/**
 * What the orders table shows: the rows handed to the data grid, each with an
 * `id`, and the colour of the status cell.
 */
module OrderGrid {
  import opened JsValues

  /** A grid row: like a record, but its `id` may be `undefined`. */
  type GridRow = map<string, Option<Json>>

  /**
   * The grid row of `row` carries every field of `row` unchanged plus an `id`: the row's
   * own `id` when it has one, otherwise its `_id` (possibly `undefined`).
   */
  ghost predicate IsGridRow(row: Record, g: GridRow) {
    && g.Keys == row.Keys + {"id"}
    && (forall k :: k in row ==> g[k] == Some(row[k]))
    && g["id"] == (if "id" in row then Some(row["id"]) else Get(row, "_id"))
  }

  /** The grid row of one order: `id` is set from `_id` first, then the row's own fields are spread over it. */
  function TransformRow(row: Record): (g: GridRow)
    ensures IsGridRow(row, g)
  {
    map["id" := Get(row, "_id")] + map k | k in row :: Some(row[k])
  }

  /** A record has only one grid row. */
  lemma GridRowUnique(row: Record, g1: GridRow, g2: GridRow)
    requires IsGridRow(row, g1) && IsGridRow(row, g2)
    ensures g1 == g2
  {
    forall k | k in g1 ensures g1[k] == g2[k] {
      if k != "id" {
        assert k in row;
      }
    }
  }

  /** The rows handed to the data grid: one grid row per filtered row, in order. */
  function TransformedRows(rows: seq<Record>): (r: seq<GridRow>)
    ensures |r| == |rows|
    ensures forall i :: 0 <= i < |rows| ==> IsGridRow(rows[i], r[i])
  {
    seq(|rows|, i requires 0 <= i < |rows| => TransformRow(rows[i]))
  }

  /** Rows without an `id` field and with pairwise distinct `_id`s get pairwise distinct grid ids. */
  lemma DistinctGridIds(rows: seq<Record>, i: nat, j: nat)
    requires i < |rows| && j < |rows| && i != j
    requires "id" !in rows[i] && "id" !in rows[j]
    requires "_id" in rows[i] && "_id" in rows[j] && rows[i]["_id"] != rows[j]["_id"]
    ensures TransformedRows(rows)[i]["id"] != TransformedRows(rows)[j]["id"]
  {
  }

  /** The colour of the status cell: `switch` compares the value with `===`, so case matters. */
  function StatusColor(status: Option<Json>): (color: string)
    ensures color == "orange" <==> status == Some(Str("Pending"))
    ensures color == "green" <==> status == Some(Str("Confirmed"))
    ensures color == "brown" <==> status == Some(Str("Delivered"))
    ensures color == "red" <==> status == Some(Str("Cancelled"))
    ensures color == "black" <==> status !in {Some(Str("Pending")), Some(Str("Confirmed")), Some(Str("Delivered")), Some(Str("Cancelled"))}
  {
    if status == Some(Str("Pending")) then "orange"
    else if status == Some(Str("Confirmed")) then "green"
    else if status == Some(Str("Delivered")) then "brown"
    else if status == Some(Str("Cancelled")) then "red"
    else "black"
  }

  /** Unlike the search, the status colour is case-sensitive. */
  lemma StatusColorIsCaseSensitive()
    ensures StatusColor(Some(Str("pending"))) == "black"
  {
  }
}
