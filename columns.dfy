/** Dataset columns and the grid's header comparison (DataGrid.areColumnsEqual). */
module Columns {

  /**
   * A dataset column: the fields of the host's column metadata that the grid reads, and the rest
   * of that metadata (`order`, `visualSizeFactor`, `isHidden`, `isPrimary`, `disableSorting`, ...)
   * as text, which only a whole-object comparison sees.
   */
  datatype Column = Column(name: string, displayName: string, alias: string, dataType: string,
                           others: map<string, string>)

  /** The column names, in column order. */
  function NameSeq(columns: seq<Column>): (names: seq<string>)
    ensures |names| == |columns| && forall i :: 0 <= i < |columns| ==> names[i] == columns[i].name
  {
    seq(|columns|, i requires 0 <= i < |columns| => columns[i].name)
  }

  /** The set of column names. */
  function Names(columns: seq<Column>): (names: set<string>)
    ensures forall n :: n in names <==> exists i :: 0 <= i < |columns| && columns[i].name == n
  {
    set i | 0 <= i < |columns| :: columns[i].name
  }

  /** The names of a non-empty list are those of all but its last column, plus the last one's. */
  lemma NamesSnoc(columns: seq<Column>)
    requires |columns| > 0
    ensures Names(columns) == Names(columns[..|columns| - 1]) + {columns[|columns| - 1].name}
  {
    var init := columns[..|columns| - 1];
    forall n | n in Names(columns) ensures n in Names(init) + {columns[|columns| - 1].name} {
      var i :| 0 <= i < |columns| && columns[i].name == n;
      if i < |init| { assert init[i].name == n; }
    }
    forall n | n in Names(init) ensures n in Names(columns) {
      var i :| 0 <= i < |init| && init[i].name == n;
      assert columns[i].name == n;
    }
  }

  /** What the header shows of each column: its name and its display name. */
  function Headers(columns: seq<Column>): (h: seq<(string, string)>)
    ensures |h| == |columns|
    ensures forall i :: 0 <= i < |columns| ==> h[i] == (columns[i].name, columns[i].displayName)
  {
    seq(|columns|, i requires 0 <= i < |columns| => (columns[i].name, columns[i].displayName))
  }

  /**
   * DataGrid.areColumnsEqual: the lists have the same length and agree on `name` and
   * `displayName` at every position; aliases and data types are not compared.
   */
  method AreColumnsEqual(current: seq<Column>, next: seq<Column>) returns (equal: bool)
    ensures equal <==> (|current| == |next| &&
      forall i :: 0 <= i < |current| ==>
        current[i].name == next[i].name && current[i].displayName == next[i].displayName)
    ensures equal <==> Headers(current) == Headers(next)
  {
    if |current| != |next| {
      return false;
    }
    var i := 0;
    while i < |current|
      invariant 0 <= i <= |current|
      invariant forall j :: 0 <= j < i ==>
        current[j].name == next[j].name && current[j].displayName == next[j].displayName
    {
      if current[i].name != next[i].name || current[i].displayName != next[i].displayName {
        assert Headers(current)[i] != Headers(next)[i];
        return false;
      }
      i := i + 1;
    }
    assert Headers(current) == Headers(next);
    return true;
  }

  /** Changing only aliases, data types and the other metadata leaves the headers equal. */
  lemma HeadersIgnoreOtherFields(a: seq<Column>, aliases: seq<string>, types: seq<string>, others: seq<map<string, string>>)
    requires |aliases| == |a| && |types| == |a| && |others| == |a|
    ensures Headers(a) == Headers(seq(|a|, i requires 0 <= i < |a| =>
      Column(a[i].name, a[i].displayName, aliases[i], types[i], others[i])))
  {
  }
}
