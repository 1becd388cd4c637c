// The clause merge builds for one source row of CDataCacheContainer.merge:
// one equality filter per join column, on the row's value in that column.

module JoinClause {
  import opened Base
  import opened MetaData
  import opened DataRow
  import opened Filters
  import opened FilterClause
  import opened RowSets

  /** The cells of the row under the cursor, or none when the cursor is on no row. */
  function CurrentCells(rs: RowSet): (cells: seq<Value>)
    reads rs, if 1 <= rs.cursor <= |rs.list| then {rs.list[rs.cursor - 1]} else {}
    reads if 1 <= rs.cursor <= |rs.list| then {rs.list[rs.cursor - 1].data} else {}
    ensures 1 <= rs.cursor <= |rs.list| ==> cells == rs.list[rs.cursor - 1].data[..]
    ensures !(1 <= rs.cursor <= |rs.list|) ==> cells == []
  {
    if 1 <= rs.cursor <= |rs.list| then rs.list[rs.cursor - 1].data[..] else []
  }

  /** getObject(name) succeeds on these cells: the name is a column and the cells reach it. */
  predicate Reaches(s: Schema, cells: seq<Value>, name: string) {
    name in s.columnNames && ColumnIndex(s, name).value < |cells|
  }

  /** The named column's cell. */
  function CellOf(s: Schema, cells: seq<Value>, name: string): Value
    requires Reaches(s, cells, name)
  {
    cells[ColumnIndex(s, name).value]
  }

  /** f is the non-negated equality filter on the name holding the name's cell. */
  predicate JoinFilterOf(f: Filter, s: Schema, cells: seq<Value>, name: string) {
    Reaches(s, cells, name) && f.columnName == name && f.kind == EqualsKind([CellOf(s, cells, name)], false)
  }

  /** Filter k is the join filter of name k, for every filter there is. */
  predicate JoinFilters(fs: seq<Filter>, s: Schema, cells: seq<Value>, names: seq<string>) {
    |fs| <= |names| && forall k :: 0 <= k < |fs| ==> JoinFilterOf(fs[k], s, cells, names[k])
  }

  /** Appending the join filter of the next name keeps the filters and names in step. */
  lemma JoinFiltersSnoc(fs: seq<Filter>, f: Filter, s: Schema, cells: seq<Value>, names: seq<string>)
    requires JoinFilters(fs, s, cells, names) && |fs| < |names| && JoinFilterOf(f, s, cells, names[|fs|])
    ensures JoinFilters(fs + [f], s, cells, names)
  {
  }

  /** new EqualsFilter(name, {value}) for the current source row's value in the named column. */
  method JoinFilter(mergeFrom: RowSet, name: string) returns (r: Result<Filter>, ghost v: Value)
    ensures var s := mergeFrom.metaData.Snapshot();
      var cells := CurrentCells(mergeFrom);
      (r.Ok? <==> Reaches(s, cells, name)) &&
      (r.Ok? ==> (CellOf(s, cells, name) == v && fresh(r.value) &&
                  r.value.columnName == name && r.value.columnIndex == -1 && r.value.metaDefinition == null &&
                  r.value.kind == EqualsKind([v], false)))
  {
    var cell := mergeFrom.GetObjectByName(name);
    if cell.Err? {
      return Err(cell.error), Null;
    }
    v := cell.value;
    r := Filter.CreateEquals(Some(name), Some([cell.value]), false);
  }

  /** One turn of the loop below: the join filter of the next name added to the clause, or getObject's failure. */
  method AddJoinFilter(clause: Clause, mergeFrom: RowSet, join: seq<string>, ghost s: Schema, ghost cells: seq<Value>)
    returns (r: Result<()>)
    requires clause.Valid() && clause.primaryKeyFilter == null
    requires JoinFilters(clause.filterList, s, cells, join) && |clause.filterList| < |join|
    requires s == mergeFrom.metaData.Snapshot() && cells == CurrentCells(mergeFrom)
    modifies clause
    ensures var n := old(|clause.filterList|);
      (r.Ok? <==> Reaches(s, cells, join[n])) &&
      (r.Ok? ==> (clause.Valid() && clause.primaryKeyFilter == null && JoinFilters(clause.filterList, s, cells, join) &&
                  |clause.filterList| == n + 1 && clause.filterList[..n] == old(clause.filterList) &&
                  fresh(clause.filterList[n])))
  {
    var eq, v := JoinFilter(mergeFrom, join[|clause.filterList|]);
    if eq.Err? {
      return Err(eq.error);
    }
    ghost var before := clause.filterList;
    r := clause.AddFilter(eq.value);
    JoinFiltersSnoc(before, eq.value, s, cells, join);
    assert clause.filterList[..|before|] == before;
  }

  /** The clause of merge for the current source row: an equality filter per join column on the row's value. */
  method OneClausePerJoin(mergeFrom: RowSet, join: seq<string>) returns (r: Result<Clause>)
    requires |join| >= 1
    ensures var s := mergeFrom.metaData.Snapshot();
      var cells := CurrentCells(mergeFrom);
      (r.Ok? <==> forall k :: 0 <= k < |join| ==> Reaches(s, cells, join[k])) &&
      (r.Ok? ==> (fresh(r.value) && r.value.Valid() && r.value.Size() == |join| &&
                  r.value.primaryKeyFilter == null && |r.value.filterList| == |join| &&
                  JoinFilters(r.value.filterList, s, cells, join)))
    ensures r.Ok? ==> forall k :: 0 <= k < |r.value.filterList| ==> fresh(r.value.filterList[k])
  {
    ghost var s := mergeFrom.metaData.Snapshot();
    ghost var cells := CurrentCells(mergeFrom);
    var clause := new Clause();
    var i := 0;
    while i < |join|
      invariant 0 <= i <= |join|
      invariant fresh(clause) && clause.Valid() && clause.primaryKeyFilter == null && |clause.filterList| == i
      invariant JoinFilters(clause.filterList, s, cells, join)
      invariant forall k :: 0 <= k < i ==> fresh(clause.filterList[k])
    {
      var added := AddJoinFilter(clause, mergeFrom, join, s, cells);
      if added.Err? {
        return Err(added.error);
      }
      i := i + 1;
    }
    return Ok(clause);
  }
}
