/**
 * The record projection of DataGrid.mapRecordsToState: the host's records, in the order of
 * its sorted record ids, turned into display records of formatted cells.
 */
module Projection {
  import opened Wrappers
  import opened JsObjects
  import opened Values
  import opened FieldConfig
  import opened Formatting
  import opened Columns

  /** A host record: its value by column alias. */
  type RawRecord = map<string, Value>

  /** A display record: `id` plus one cell per column name. */
  type DisplayRecord = map<string, Cell>

  /** `record.getValue(alias)`; an alias the record does not carry reads as `null`. */
  function GetValue(record: RawRecord, alias: string): Value {
    if alias in record then record[alias] else Null
  }

  /** The assignment `rec[col.name] = <formatted value>` each column makes. */
  function CellEntries(record: RawRecord, columns: seq<Column>, config: Config): (r: seq<Option<(string, Cell)>>)
    ensures |r| == |columns|
    ensures forall i :: 0 <= i < |columns| ==>
      r[i] == Some((columns[i].name, FormatCell(columns[i].dataType, GetValue(record, columns[i].alias), config)))
  {
    seq(|columns|, i requires 0 <= i < |columns| =>
      Some((columns[i].name, FormatCell(columns[i].dataType, GetValue(record, columns[i].alias), config))))
  }

  /** The `dataSet.columns.reduce(...)` object of one record. */
  function Cells(record: RawRecord, columns: seq<Column>, config: Config): map<string, Cell> {
    Assign(CellEntries(record, columns, config))
  }

  /** `{ id: recordId, ...cells }`: the cells are spread last, so a column named `id` would win. */
  function BuildRecord(id: string, record: RawRecord, columns: seq<Column>, config: Config): DisplayRecord {
    map["id" := Plain(Text(id))] + Cells(record, columns, config)
  }

  /** The sorted ids that have a backing record, in order. */
  function PresentIds(ids: seq<string>, records: map<string, RawRecord>): (r: seq<string>)
    ensures |r| <= |ids|
    ensures forall k :: 0 <= k < |r| ==> r[k] in records
  {
    if ids == [] then []
    else (if ids[0] in records then [ids[0]] else []) + PresentIds(ids[1..], records)
  }

  /** The number of sorted ids with no backing record. */
  function MissingCount(ids: seq<string>, records: map<string, RawRecord>): nat {
    if ids == [] then 0 else (if ids[0] in records then 0 else 1) + MissingCount(ids[1..], records)
  }

  /** `sortedRecordIds.map(...).filter(Boolean)`: one display record per id with a backing record. */
  function Project(ids: seq<string>, records: map<string, RawRecord>, columns: seq<Column>, config: Config)
    : seq<DisplayRecord>
  {
    if ids == [] then []
    else
      (if ids[0] in records then [BuildRecord(ids[0], records[ids[0]], columns, config)] else [])
      + Project(ids[1..], records, columns, config)
  }

  /** The projection has one record per present id, in order, built from that id's record. */
  lemma {:induction false} ProjectShape(ids: seq<string>, records: map<string, RawRecord>, columns: seq<Column>, config: Config)
    ensures |Project(ids, records, columns, config)| == |PresentIds(ids, records)|
    ensures forall k :: 0 <= k < |PresentIds(ids, records)| ==>
      var id := PresentIds(ids, records)[k];
      Project(ids, records, columns, config)[k] == BuildRecord(id, records[id], columns, config)
  {
    if ids != [] {
      var rest := ids[1..];
      ProjectShape(rest, records, columns, config);
      var present := PresentIds(ids, records);
      var out := Project(ids, records, columns, config);
      if ids[0] in records {
        assert present == [ids[0]] + PresentIds(rest, records);
        assert out == [BuildRecord(ids[0], records[ids[0]], columns, config)] + Project(rest, records, columns, config);
        forall k | 0 <= k < |present| ensures out[k] == BuildRecord(present[k], records[present[k]], columns, config) {
          if k > 0 {
            assert present[k] == PresentIds(rest, records)[k - 1];
            assert out[k] == Project(rest, records, columns, config)[k - 1];
          }
        }
      } else {
        assert present == PresentIds(rest, records);
        assert out == Project(rest, records, columns, config);
      }
    }
  }

  /** Output length is input length minus the ids with no record. */
  lemma {:induction false} PresentLength(ids: seq<string>, records: map<string, RawRecord>)
    ensures |PresentIds(ids, records)| == |ids| - MissingCount(ids, records)
  {
    if ids != [] {
      PresentLength(ids[1..], records);
    }
  }

  /** An id is in the output exactly when it is sorted and has a record: nothing is synthesized. */
  lemma {:induction false} PresentMembers(ids: seq<string>, records: map<string, RawRecord>, x: string)
    ensures x in PresentIds(ids, records) <==> x in ids && x in records
  {
    if ids != [] {
      PresentMembers(ids[1..], records, x);
      assert x in ids <==> x == ids[0] || x in ids[1..];
    }
  }

  /** The filter keeps order: it distributes over concatenation. */
  lemma {:induction false} PresentConcat(a: seq<string>, b: seq<string>, records: map<string, RawRecord>)
    ensures PresentIds(a + b, records) == PresentIds(a, records) + PresentIds(b, records)
  {
    if a == [] {
      assert a + b == b;
    } else {
      assert (a + b)[1..] == a[1..] + b;
      PresentConcat(a[1..], b, records);
    }
  }

  /** When every sorted id has a record, the output follows the sorted ids exactly. */
  lemma {:induction false} PresentAll(ids: seq<string>, records: map<string, RawRecord>)
    requires forall k :: 0 <= k < |ids| ==> ids[k] in records
    ensures PresentIds(ids, records) == ids
  {
    if ids != [] {
      PresentAll(ids[1..], records);
    }
  }

  /** The cells have exactly one key per column name. */
  lemma CellsKeys(record: RawRecord, columns: seq<Column>, config: Config)
    ensures Cells(record, columns, config).Keys == Names(columns)
  {
    var entries := CellEntries(record, columns, config);
    forall n ensures n in Cells(record, columns, config) <==> n in Names(columns) {
      AssignKeys(entries, n);
      if n in Names(columns) {
        var i :| 0 <= i < |columns| && columns[i].name == n;
        assert AssignsKey(entries, i, n);
      }
    }
  }

  /** The cell under a name is the formatted value of the last column with that name. */
  lemma CellsValue(record: RawRecord, columns: seq<Column>, config: Config, i: int)
    requires 0 <= i < |columns|
    requires forall j :: i < j < |columns| ==> columns[j].name != columns[i].name
    ensures columns[i].name in Cells(record, columns, config)
    ensures Cells(record, columns, config)[columns[i].name] ==
      FormatCell(columns[i].dataType, GetValue(record, columns[i].alias), config)
  {
    var entries := CellEntries(record, columns, config);
    AssignLast(entries, i);
  }

  /** A display record's keys are `id` and the column names, no more and no fewer. */
  lemma RecordKeys(id: string, record: RawRecord, columns: seq<Column>, config: Config)
    ensures BuildRecord(id, record, columns, config).Keys == {"id"} + Names(columns)
    ensures "id" !in Names(columns) ==> BuildRecord(id, record, columns, config)["id"] == Plain(Text(id))
  {
    CellsKeys(record, columns, config);
  }
}
