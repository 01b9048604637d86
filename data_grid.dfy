/**
 * The grid component's own state and the lifecycle and event handlers that update it
 * (DataGrid.mapRecordsToState, the column branch of componentDidUpdate, onSelectionChange,
 * onPage, checkAndStartInterval, clearRefreshInterval and componentWillUnmount). Every call the
 * grid makes into the host (paging, selection, timers) is appended to a log instead of performed.
 */
module Grid {
  import opened Wrappers
  import opened JsObjects
  import opened Values
  import opened FieldConfig
  import opened Columns
  import opened Projection
  import opened Filters
  import opened Selection
  import opened Paging

  /** A call into the host: paging requests, the selection output, interval timers, and one delayed refresh. */
  datatype HostCall =
    | LoadNextPage
    | LoadPreviousPage
    | LoadExactPage(page: int)
    | SetPageSize(size: int)
    | ResetPaging
    | SetSelectedRecordIds(ids: seq<Cell>)
    | StartInterval(handle: nat)
    | ClearInterval(handle: nat)
    | ScheduleRefresh

  /** What the grid reads of the host's dataset. */
  datatype DataSet = DataSet(
    loading: bool,
    sortedRecordIds: seq<string>,
    records: map<string, RawRecord>,
    columns: seq<Column>,
    paging: Paging)

  /** The interval timers a call log leaves running: started and not cleared since. */
  function LiveIntervals(calls: seq<HostCall>): set<nat> {
    if calls == [] then {}
    else
      var live := LiveIntervals(calls[..|calls| - 1]);
      var last := calls[|calls| - 1];
      if last.StartInterval? then live + {last.handle}
      else if last.ClearInterval? then live - {last.handle}
      else live
  }

  lemma LiveIntervalsAppend(calls: seq<HostCall>, c: HostCall)
    ensures LiveIntervals(calls + [c]) ==
      if c.StartInterval? then LiveIntervals(calls) + {c.handle}
      else if c.ClearInterval? then LiveIntervals(calls) - {c.handle}
      else LiveIntervals(calls)
  {
    assert (calls + [c])[..|calls|] == calls;
  }

  /** A loaded dataset, or a forced refresh while it loads: the projection runs. */
  predicate Ready(dataSet: DataSet, force: bool) {
    !dataSet.loading || force
  }

  class DataGrid {
    var records: seq<DisplayRecord>
    var selectedRecordIds: seq<Cell>
    var selectedRecords: seq<DisplayRecord>
    var filters: Entries<Filter>
    var columns: seq<Column>
    var enabled: bool
    var needsRefresh: bool
    var currentPage: int
    var totalPages: int
    /** The running refresh interval's handle (`this.intervalId`), if any. */
    var intervalId: Option<nat>
    /** The handle the next `setInterval` returns. */
    var nextHandle: nat
    /** Every call made into the host so far, oldest first. */
    var calls: seq<HostCall>

    /** No interval is ever leaked: the only running timer is the one `intervalId` holds; filter keys are distinct. */
    ghost predicate Valid()
      reads this
    {
      LiveIntervals(calls) == (if intervalId.Some? then {intervalId.value} else {})
      && UniqueKeys(filters)
    }

    /** The initial state: no records or selection, a default filter per column, page 1. */
    constructor (dataSourceColumns: seq<Column>, isEnabled: Option<bool>)
      ensures Valid()
      ensures records == [] && selectedRecordIds == [] && selectedRecords == [] && columns == []
      ensures filters == InitialFilters(dataSourceColumns)
      ensures enabled == isEnabled.GetOr(true)
      ensures !needsRefresh && currentPage == 1 && totalPages == 1
      ensures intervalId == None && calls == []
    {
      records := [];
      totalPages := 1;
      selectedRecords := [];
      selectedRecordIds := [];
      filters := InitialFilters(dataSourceColumns);
      columns := [];
      enabled := isEnabled.GetOr(true);
      needsRefresh := false;
      currentPage := 1;
      intervalId := None;
      nextHandle := 1;
      calls := [];
      InitialFiltersDefault(dataSourceColumns);
      UpdateFiltersKeys(dataSourceColumns, []);
    }

    /**
     * DataGrid.mapRecordsToState. Nothing happens without a dataset or while it loads (unless
     * forced); with no sorted ids the next page is requested; otherwise the fresh projection
     * replaces the cached records and columns, and clears `needsRefresh`, only when either differs.
     */
    method MapRecordsToState(dataSet: Option<DataSet>, rawConfig: Option<string>, force: bool)
      requires Valid()
      modifies this`records, this`columns, this`needsRefresh, this`calls
      ensures Valid()
      ensures dataSet.None? || !Ready(dataSet.value, force) || dataSet.value.sortedRecordIds == [] ==>
        records == old(records) && columns == old(columns) && needsRefresh == old(needsRefresh)
      ensures dataSet.None? || !Ready(dataSet.value, force) ==> calls == old(calls)
      ensures dataSet.Some? && Ready(dataSet.value, force) && dataSet.value.sortedRecordIds == [] ==>
        calls == old(calls) + [LoadNextPage]
      ensures dataSet.Some? && Ready(dataSet.value, force) && dataSet.value.sortedRecordIds != [] ==>
        var ds := dataSet.value;
        && calls == old(calls)
        && records == Project(ds.sortedRecordIds, ds.records, ds.columns, Parsed(RawOrDefault(rawConfig)))
        && columns == ds.columns
      ensures dataSet.Some? && Ready(dataSet.value, force) && dataSet.value.sortedRecordIds != [] ==>
        (records != old(records) || columns != old(columns) ==> !needsRefresh) &&
        (records == old(records) && columns == old(columns) ==> needsRefresh == old(needsRefresh))
    {
      var fieldConfig := ParseConfigurations(RawOrDefault(rawConfig));
      if dataSet.None? {
        return;
      }
      var ds := dataSet.value;
      if ds.loading && !force {
        return;
      }
      if |ds.sortedRecordIds| == 0 {
        LiveIntervalsAppend(calls, LoadNextPage);
        calls := calls + [LoadNextPage];
        return;
      }
      var projected := Project(ds.sortedRecordIds, ds.records, ds.columns, fieldConfig);
      ApplyRecords(projected, ds.columns);
    }

    /**
     * The `setState` updater of mapRecordsToState: the new records and columns are installed,
     * with `needsRefresh` cleared, only when either differs from the state; otherwise the update is skipped.
     */
    method ApplyRecords(newRecords: seq<DisplayRecord>, newColumns: seq<Column>)
      modifies this`records, this`columns, this`needsRefresh
      ensures records == newRecords && columns == newColumns
      ensures old(records) != newRecords || old(columns) != newColumns ==> !needsRefresh
      ensures old(records) == newRecords && old(columns) == newColumns ==> needsRefresh == old(needsRefresh)
    {
      if newRecords != records || newColumns != columns {
        records, columns, needsRefresh := newRecords, newColumns, false;
      }
    }

    /**
     * The column branch of componentDidUpdate: when the dataset's columns differ in name or
     * display name from the previous state's, the filters are rebuilt from the previous filters,
     * and installed with `needsRefresh` set and a refresh scheduled when the rebuild differs.
     */
    method ComponentDidUpdateColumns(dataSet: Option<DataSet>, prevColumns: seq<Column>, prevFilters: Entries<Filter>)
      requires Valid()
      modifies this`filters, this`needsRefresh, this`calls
      ensures Valid()
      ensures (|| dataSet.None? || dataSet.value.loading || Headers(prevColumns) == Headers(dataSet.value.columns)
               || prevFilters == UpdateFilters(dataSet.value.columns, prevFilters)) ==>
        filters == old(filters) && needsRefresh == old(needsRefresh) && calls == old(calls)
      ensures (&& dataSet.Some? && !dataSet.value.loading && Headers(prevColumns) != Headers(dataSet.value.columns)
               && prevFilters != UpdateFilters(dataSet.value.columns, prevFilters)) ==>
        filters == UpdateFilters(dataSet.value.columns, prevFilters) && needsRefresh
        && calls == old(calls) + [ScheduleRefresh]
    {
      if dataSet.None? || dataSet.value.loading {
        return;
      }
      var ds := dataSet.value;
      var same := AreColumnsEqual(prevColumns, ds.columns);
      if !same {
        var newFilters := UpdateFilters(ds.columns, prevFilters);
        if prevFilters != newFilters {
          UpdateFiltersKeys(ds.columns, prevFilters);
          LiveIntervalsAppend(calls, ScheduleRefresh);
          filters, needsRefresh := newFilters, true;
          calls := calls + [ScheduleRefresh];
        }
      }
    }

    /**
     * DataGrid.onSelectionChange: ignored unless `IsEnabled` is true; otherwise the normalised
     * selection is stored and its ids are both stored and sent to the host.
     */
    method OnSelectionChange(isEnabled: Option<bool>, selectionModeRaw: Option<string>, value: Selected)
      requires Valid()
      modifies this`selectedRecordIds, this`selectedRecords, this`calls
      ensures Valid()
      ensures !isEnabled.GetOr(false) ==>
        selectedRecordIds == old(selectedRecordIds) && selectedRecords == old(selectedRecords) && calls == old(calls)
      ensures isEnabled.GetOr(false) ==>
        var normalized := Normalize(value, selectionModeRaw == Some("single"));
        && selectedRecords == normalized
        && selectedRecordIds == IdsOf(normalized)
        && calls == old(calls) + [SetSelectedRecordIds(selectedRecordIds)]
    {
      var gridIsEnabled := isEnabled.GetOr(false);
      if !gridIsEnabled {
        return;
      }
      var isSingleSelection := selectionModeRaw == Some("single");
      var normalized := Normalize(value, isSingleSelection);
      var newSelectedRecordIds := IdsOf(normalized);
      LiveIntervalsAppend(calls, SetSelectedRecordIds(newSelectedRecordIds));
      calls := calls + [SetSelectedRecordIds(newSelectedRecordIds)];
      selectedRecordIds, selectedRecords := newSelectedRecordIds, normalized;
    }

    /**
     * The table's `onPage` handler, for the event's zero-based `page` and its `rows` per page.
     * The first matching branch fires: a changed page size resets to page 1; a later page within
     * the total loads the next page; an earlier non-negative page loads the previous page; any
     * other different page loads page `target + 1` exactly; the current page does nothing.
     */
    method OnPage(page: int, rows: int, paging: Paging)
      requires Valid()
      modifies this`currentPage, this`calls
      ensures Valid()
      ensures var target := page + 1;
        if rows != paging.pageSize then
          currentPage == 1 && calls == old(calls) + [SetPageSize(rows), ResetPaging, ScheduleRefresh]
        else if target > old(currentPage) && WithinTotalPages(target, paging.totalResultCount, rows) then
          currentPage == target && calls == old(calls) + [LoadNextPage, ScheduleRefresh]
        else if target < old(currentPage) && target >= 0 then
          currentPage == target && calls == old(calls) + [LoadPreviousPage, ScheduleRefresh]
        else if target != old(currentPage) then
          currentPage == target && calls == old(calls) + [LoadExactPage(target + 1), ScheduleRefresh]
        else
          currentPage == old(currentPage) && calls == old(calls)
    {
      var targetPage := page + 1;
      var step: seq<HostCall> := [];
      if rows != paging.pageSize {
        step := [SetPageSize(rows), ResetPaging, ScheduleRefresh];
        currentPage := 1;
      } else if targetPage > currentPage && WithinTotalPages(targetPage, paging.totalResultCount, rows) {
        step := [LoadNextPage, ScheduleRefresh];
        currentPage := targetPage;
      } else if targetPage < currentPage && targetPage >= 0 {
        step := [LoadPreviousPage, ScheduleRefresh];
        currentPage := targetPage;
      } else if targetPage != currentPage {
        step := [LoadExactPage(targetPage + 1), ScheduleRefresh];
        currentPage := targetPage;
      }
      LogCalls(step);
    }

    /** Appends calls that start and clear no timer. */
    method LogCalls(step: seq<HostCall>)
      requires Valid()
      requires forall i :: 0 <= i < |step| ==> !step[i].StartInterval? && !step[i].ClearInterval?
      modifies this`calls
      ensures Valid() && calls == old(calls) + step
    {
      var i := 0;
      while i < |step|
        invariant 0 <= i <= |step|
        invariant Valid() && calls == old(calls) + step[..i]
      {
        LiveIntervalsAppend(calls, step[i]);
        assert step[..i + 1] == step[..i] + [step[i]];
        calls := calls + [step[i]];
        i := i + 1;
      }
      assert step[..|step|] == step;
    }

    /** DataGrid.clearRefreshInterval: clears the running interval, if any. */
    method ClearRefreshInterval()
      requires Valid()
      modifies this`intervalId, this`calls
      ensures Valid() && intervalId == None
      ensures old(intervalId).Some? ==> calls == old(calls) + [ClearInterval(old(intervalId).value)]
      ensures old(intervalId).None? ==> calls == old(calls)
    {
      if intervalId.Some? {
        LiveIntervalsAppend(calls, ClearInterval(intervalId.value));
        calls := calls + [ClearInterval(intervalId.value)];
        intervalId := None;
      }
    }

    /**
     * DataGrid.checkAndStartInterval: while a refresh is needed exactly one interval runs (an
     * already running one is kept); once none is needed the interval is cleared.
     */
    method CheckAndStartInterval()
      requires Valid()
      modifies this`intervalId, this`nextHandle, this`calls
      ensures Valid()
      ensures intervalId.Some? <==> needsRefresh
      ensures LiveIntervals(calls) == if needsRefresh then {intervalId.value} else {}
      ensures needsRefresh && old(intervalId).Some? ==> intervalId == old(intervalId) && calls == old(calls)
      ensures needsRefresh && old(intervalId).None? ==>
        intervalId == Some(old(nextHandle)) && calls == old(calls) + [StartInterval(old(nextHandle))]
      ensures !needsRefresh && old(intervalId).Some? ==> calls == old(calls) + [ClearInterval(old(intervalId).value)]
      ensures !needsRefresh && old(intervalId).None? ==> calls == old(calls)
    {
      if needsRefresh {
        if intervalId.None? {
          LiveIntervalsAppend(calls, StartInterval(nextHandle));
          calls := calls + [StartInterval(nextHandle)];
          intervalId := Some(nextHandle);
          nextHandle := nextHandle + 1;
        }
      } else {
        ClearRefreshInterval();
      }
    }

    /** DataGrid.componentWillUnmount: after teardown no interval timer is left running. */
    method ComponentWillUnmount()
      requires Valid()
      modifies this`intervalId, this`calls
      ensures Valid() && intervalId == None && LiveIntervals(calls) == {}
    {
      ClearRefreshInterval();
    }
  }
}
