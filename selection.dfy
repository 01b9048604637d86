/**
 * Row selection: the `onSelectionChange` normalisation of the table's event value, and the
 * render-time selection mode and selected rows.
 */
module Selection {
  import opened Wrappers
  import opened Values
  import opened Projection

  /** A selection as the table passes it: nothing (`null`), one record, or an array of records. */
  datatype Selected = NoValue | One(record: DisplayRecord) | Many(records: seq<DisplayRecord>)

  /** `!e.value ? [] : Array.isArray(e.value) ? e.value : [e.value]`. */
  function AsList(value: Selected): (r: seq<DisplayRecord>)
    ensures value.NoValue? ==> r == []
    ensures value.One? ==> r == [value.record]
    ensures value.Many? ==> r == value.records
  {
    match value
    case NoValue => []
    case One(record) => [record]
    case Many(records) => records
  }

  /** The normalised selection: in single mode `slice(0, 1)` keeps at most the first record. */
  function Normalize(value: Selected, single: bool): (r: seq<DisplayRecord>)
    ensures single ==> |r| <= 1
    ensures !single ==> r == AsList(value)
    ensures |r| <= |AsList(value)| && r == AsList(value)[..|r|]
    ensures single && AsList(value) != [] ==> r == [AsList(value)[0]]
  {
    var all := AsList(value);
    if single && |all| > 1 then all[..1] else all
  }

  /** `record.id`; a record without one reads as `undefined`. */
  function IdOf(record: DisplayRecord): Cell {
    if "id" in record then record["id"] else Plain(Undefined)
  }

  /** `records.map(record => record.id)`. */
  function IdsOf(records: seq<DisplayRecord>): (ids: seq<Cell>)
    ensures |ids| == |records| && forall i :: 0 <= i < |records| ==> ids[i] == IdOf(records[i])
  {
    seq(|records|, i requires 0 <= i < |records| => IdOf(records[i]))
  }

  /** The selection modes the table accepts. */
  const AllowedModes: seq<string> := ["single", "multiple", "checkbox"]

  /**
   * The render-time mode: the raw parameter when it is one of the allowed modes (an empty or
   * missing parameter is falsy), `"multiple"` otherwise.
   */
  function SelectionMode(raw: Option<string>): (mode: string)
    ensures mode in AllowedModes
    ensures raw.Some? && raw.value in AllowedModes ==> mode == raw.value
    ensures !(raw.Some? && raw.value in AllowedModes) ==> mode == "multiple"
  {
    if raw.Some? && raw.value != "" && raw.value in AllowedModes then raw.value else "multiple"
  }

  /** `onSelectionChange` tests the raw parameter and `render` the normalised mode; both agree on single selection. */
  lemma SingleModeAgrees(raw: Option<string>)
    ensures SelectionMode(raw) == "single" <==> raw == Some("single")
  {
  }

  /** `records.filter(record => selectedRecordIds.includes(record.id))`. */
  function SelectedRows(records: seq<DisplayRecord>, ids: seq<Cell>): seq<DisplayRecord> {
    if records == [] then []
    else (if IdOf(records[0]) in ids then [records[0]] else []) + SelectedRows(records[1..], ids)
  }

  /** A shown record is selected exactly when its id is among the selected ids. */
  lemma {:induction false} SelectedRowsMembers(records: seq<DisplayRecord>, ids: seq<Cell>, r: DisplayRecord)
    ensures r in SelectedRows(records, ids) <==> r in records && IdOf(r) in ids
  {
    if records != [] {
      SelectedRowsMembers(records[1..], ids, r);
      assert r in records <==> r == records[0] || r in records[1..];
    }
  }

  /** The selected rows keep the records' order: the filter distributes over concatenation. */
  lemma {:induction false} SelectedRowsConcat(a: seq<DisplayRecord>, b: seq<DisplayRecord>, ids: seq<Cell>)
    ensures SelectedRows(a + b, ids) == SelectedRows(a, ids) + SelectedRows(b, ids)
  {
    if a == [] {
      assert a + b == b;
    } else {
      var head := if IdOf(a[0]) in ids then [a[0]] else [];
      assert (a + b)[0] == a[0];
      assert (a + b)[1..] == a[1..] + b;
      SelectedRowsConcat(a[1..], b, ids);
      calc {
        SelectedRows(a + b, ids);
        head + SelectedRows(a[1..] + b, ids);
        head + (SelectedRows(a[1..], ids) + SelectedRows(b, ids));
        (head + SelectedRows(a[1..], ids)) + SelectedRows(b, ids);
      }
    }
  }

  /** `isSingleSelection ? (selectedRows[0] ?? null) : selectedRows`: the table's `selection` prop. */
  function SelectionValue(mode: string, rows: seq<DisplayRecord>): (s: Selected)
    ensures mode == "single" && rows == [] ==> s == NoValue
    ensures mode == "single" && rows != [] ==> s == One(rows[0])
    ensures mode != "single" ==> s == Many(rows)
  {
    if mode == "single" then (if rows == [] then NoValue else One(rows[0])) else Many(rows)
  }

  /** `records[k]` is the first record, in record order, whose id is selected. */
  predicate FirstSelected(records: seq<DisplayRecord>, ids: seq<Cell>, k: int) {
    0 <= k < |records| && IdOf(records[k]) in ids && forall j :: 0 <= j < k ==> IdOf(records[j]) !in ids
  }

  /** No row is selected exactly when no record's id is among the selected ids. */
  lemma {:induction false} SelectedRowsEmpty(records: seq<DisplayRecord>, ids: seq<Cell>)
    ensures SelectedRows(records, ids) == [] <==> forall k :: 0 <= k < |records| ==> IdOf(records[k]) !in ids
  {
    if records != [] {
      SelectedRowsEmpty(records[1..], ids);
      forall k | 1 <= k < |records| ensures records[k] == records[1..][k - 1] { }
    }
  }

  /** The first selected row is the first record whose id is selected. */
  lemma {:induction false} SelectedRowsFirst(records: seq<DisplayRecord>, ids: seq<Cell>, k: int)
    requires FirstSelected(records, ids, k)
    ensures SelectedRows(records, ids) != [] && SelectedRows(records, ids)[0] == records[k]
  {
    if k > 0 {
      assert IdOf(records[0]) !in ids;
      assert FirstSelected(records[1..], ids, k - 1) by {
        forall j | 0 <= j < k - 1 ensures IdOf(records[1..][j]) !in ids {
          assert records[1..][j] == records[j + 1];
        }
      }
      SelectedRowsFirst(records[1..], ids, k - 1);
    }
  }

  /**
   * The table's `selection` prop and selection column in `render`: with the raw mode `"single"`
   * the prop is `null` when no record is selected and otherwise the first selected record in
   * record order; with any other raw mode it is every selected row. The selection column is
   * single exactly in single mode.
   */
  lemma RenderSelection(raw: Option<string>, records: seq<DisplayRecord>, ids: seq<Cell>)
    ensures var v := SelectionValue(SelectionMode(raw), SelectedRows(records, ids));
      && (raw != Some("single") ==> v == Many(SelectedRows(records, ids)))
      && (raw == Some("single") ==> !v.Many?)
      && (raw == Some("single") ==> (v == NoValue <==> forall k :: 0 <= k < |records| ==> IdOf(records[k]) !in ids))
      && (raw == Some("single") ==> forall k :: FirstSelected(records, ids, k) ==> v == One(records[k]))
    ensures ColumnSelectionMode(SelectionMode(raw)) == "single" <==> raw == Some("single")
  {
    SingleModeAgrees(raw);
    SelectedRowsEmpty(records, ids);
    forall k | FirstSelected(records, ids, k)
      ensures SelectedRows(records, ids) != [] && SelectedRows(records, ids)[0] == records[k]
    {
      SelectedRowsFirst(records, ids, k);
    }
  }

  /** The selection column's mode: `"single"` in single mode, `"multiple"` for the other two. */
  function ColumnSelectionMode(mode: string): (m: string)
    ensures m == "single" <==> mode == "single"
    ensures m != "single" ==> m == "multiple"
  {
    if mode == "single" then "single" else "multiple"
  }
}
