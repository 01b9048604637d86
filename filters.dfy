/**
 * The column filters handed to the table (DataGrid.updateFilters and the initial filters of the
 * constructor). Filters are an object keyed by column name whose key order matters, because the
 * grid compares filter objects through `JSON.stringify`.
 */
module Filters {
  import opened Wrappers
  import opened JsObjects
  import opened Columns

  /** One constraint of a column filter; `value: None` is `null`. */
  datatype Constraint = Constraint(value: Option<string>, matchMode: string)

  /** A column filter, or the `global` keyword filter the search box installs. */
  datatype Filter = ColumnFilter(operator: string, constraints: seq<Constraint>)
                  | GlobalFilter(value: string, matchMode: string)

  /** `FilterOperator.AND` and `FilterMatchMode.CONTAINS` of the table library. */
  const And := "and"
  const Contains := "contains"

  /** `{operator: AND, constraints: [{value: null, matchMode: CONTAINS}]}`. */
  const DefaultFilter := ColumnFilter(And, [Constraint(None, Contains)])

  /** The filter a column gets: its previous one when there is one, the default otherwise. */
  function FilterFor(previous: Entries<Filter>, name: string): Filter {
    Get(previous, name).GetOr(DefaultFilter)
  }

  /** `columns.reduce((acc, col) => { acc[col.name] = previousFilters[col.name] || default; ... }, {})`. */
  function UpdateFilters(columns: seq<Column>, previous: Entries<Filter>): Entries<Filter> {
    if columns == [] then []
    else
      var name := columns[|columns| - 1].name;
      Put(UpdateFilters(columns[..|columns| - 1], previous), name, FilterFor(previous, name))
  }

  /** The constructor's filters: the default for every column. */
  function InitialFilters(columns: seq<Column>): Entries<Filter> {
    if columns == [] then []
    else Put(InitialFilters(columns[..|columns| - 1]), columns[|columns| - 1].name, DefaultFilter)
  }

  /** The names in order of first occurrence. */
  function Dedup(names: seq<string>): (r: seq<string>)
    ensures forall n :: n in r <==> n in names
    ensures Distinct(r)
  {
    if names == [] then []
    else
      var init := Dedup(names[..|names| - 1]);
      var last := names[|names| - 1];
      assert forall n :: n in names <==> n in names[..|names| - 1] || n == last;
      if last in init then init else init + [last]
  }

  /**
   * The keys of the rebuilt filters are the column names in order of first occurrence, so the
   * key set is exactly the current column names: any other key (such as `global`) is dropped.
   */
  lemma {:induction false} UpdateFiltersKeys(columns: seq<Column>, previous: Entries<Filter>)
    ensures Keys(UpdateFilters(columns, previous)) == Dedup(NameSeq(columns))
    ensures UniqueKeys(UpdateFilters(columns, previous))
    ensures forall n :: n in Keys(UpdateFilters(columns, previous)) <==> n in Names(columns)
  {
    if columns != [] {
      var init := columns[..|columns| - 1];
      UpdateFiltersKeys(init, previous);
      assert NameSeq(columns)[..|columns| - 1] == NameSeq(init);
      var name := columns[|columns| - 1].name;
      PutUnique(UpdateFilters(init, previous), name, FilterFor(previous, name));
      NamesSnoc(columns);
    }
  }

  /** Every column keeps its previous filter when it had one, and gets the default otherwise. */
  lemma {:induction false} UpdateFiltersValue(columns: seq<Column>, previous: Entries<Filter>, n: string)
    ensures Get(UpdateFilters(columns, previous), n) ==
      if n in Names(columns) then Some(FilterFor(previous, n)) else None
  {
    if columns != [] {
      var init := columns[..|columns| - 1];
      var name := columns[|columns| - 1].name;
      UpdateFiltersValue(init, previous, n);
      GetPut(UpdateFilters(init, previous), name, FilterFor(previous, name), n);
      NamesSnoc(columns);
    }
  }

  /** The rebuild reads the previous filters only through `FilterFor` on the column names. */
  lemma {:induction false} UpdateFiltersLocal(columns: seq<Column>, p: Entries<Filter>, q: Entries<Filter>)
    requires forall i :: 0 <= i < |columns| ==> FilterFor(p, columns[i].name) == FilterFor(q, columns[i].name)
    ensures UpdateFilters(columns, p) == UpdateFilters(columns, q)
  {
    if columns != [] {
      UpdateFiltersLocal(columns[..|columns| - 1], p, q);
    }
  }

  /**
   * Rebuilding rebuilt filters for the same columns changes nothing, so a second update with
   * unchanged columns sees equal filters and requests no state change.
   */
  lemma UpdateFiltersStable(columns: seq<Column>, previous: Entries<Filter>)
    ensures UpdateFilters(columns, UpdateFilters(columns, previous)) == UpdateFilters(columns, previous)
  {
    var rebuilt := UpdateFilters(columns, previous);
    forall i | 0 <= i < |columns|
      ensures FilterFor(rebuilt, columns[i].name) == FilterFor(previous, columns[i].name)
    {
      UpdateFiltersValue(columns, previous, columns[i].name);
    }
    UpdateFiltersLocal(columns, rebuilt, previous);
  }

  /** The constructor's filters are the rebuild from no previous filters: the default for every column. */
  lemma {:induction false} InitialFiltersDefault(columns: seq<Column>)
    ensures InitialFilters(columns) == UpdateFilters(columns, [])
  {
    if columns != [] {
      InitialFiltersDefault(columns[..|columns| - 1]);
    }
  }
}
