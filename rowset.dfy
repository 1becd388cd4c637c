/**
 * CDataRowSet: an ordered list of rows, shared by reference with the
 * container they came from, and a 1-based cursor with JDBC-like moves
 * (0 is before the first row, n + 1 after the last).
 */
module RowSets {
  import opened Base
  import opened MetaData
  import opened DataRow
  import opened Comparator
  import opened RowSort

  /** The outcome of a cursor move: what the move returns and where the cursor ends. */
  datatype Move = Move(moved: bool, cursor: int)

  /** next(): past the end nothing happens; otherwise one step, true iff it lands on a row. */
  function NextMove(cursor: int, n: nat): (m: Move)
    ensures 0 <= cursor <= n + 1 ==> 0 <= m.cursor <= n + 1
    ensures cursor > n ==> m == Move(false, cursor)
    ensures cursor <= n ==> m.cursor == cursor + 1 && (m.moved <==> m.cursor <= n)
  {
    if cursor > n then Move(false, cursor)
    else if cursor + 1 > n then Move(false, cursor + 1)
    else Move(true, cursor + 1)
  }

  /** previous(): at 0 nothing happens; otherwise one step back, true iff it lands on a row. */
  function PreviousMove(cursor: int): (m: Move)
    ensures cursor == 0 ==> m == Move(false, 0)
    ensures cursor != 0 ==> m.cursor == cursor - 1 && (m.moved <==> m.cursor != 0)
    ensures 0 <= cursor ==> 0 <= m.cursor <= cursor
  {
    if cursor == 0 then Move(false, cursor)
    else if cursor - 1 == 0 then Move(false, cursor - 1)
    else Move(true, cursor - 1)
  }

  /** first(): false with the cursor kept on an empty set, otherwise row 1. */
  function FirstMove(cursor: int, n: nat): (m: Move)
    ensures n == 0 ==> m == Move(false, cursor)
    ensures n > 0 ==> m == Move(true, 1)
  {
    if n == 0 then Move(false, cursor) else Move(true, 1)
  }

  /** last(): false with the cursor kept on an empty set, otherwise row n. */
  function LastMove(cursor: int, n: nat): (m: Move)
    ensures n == 0 ==> m == Move(false, cursor)
    ensures n > 0 ==> m == Move(true, n)
  {
    if n == 0 then Move(false, cursor) else Move(true, n)
  }

  /** absolute(row): succeeds only for a row in 1..n; on failure the cursor stays. */
  function AbsoluteMove(cursor: int, n: nat, row: int): (m: Move)
    ensures m.moved <==> 1 <= row <= n
    ensures m.cursor == if m.moved then row else cursor
  {
    if row > n || row < 1 then Move(false, cursor) else Move(true, row)
  }

  /** relative(k): succeeds only when cursor + k is a row in 1..n; on failure the cursor stays. */
  function RelativeMove(cursor: int, n: nat, k: int): (m: Move)
    ensures m.moved <==> 1 <= cursor + k <= n
    ensures m.cursor == if m.moved then cursor + k else cursor
  {
    if cursor + k > n || cursor + k < 1 then Move(false, cursor) else Move(true, cursor + k)
  }

  /** A successful next() is undone by previous(), which reports a row unless it is back at 0. */
  lemma NextThenPrevious(cursor: int, n: nat)
    requires 0 <= cursor <= n + 1 && NextMove(cursor, n).moved
    ensures PreviousMove(NextMove(cursor, n).cursor) == Move(cursor != 0, cursor)
  {
  }

  /** absolute(r) and relative(r - cursor) land in the same place. */
  lemma AbsoluteIsRelative(cursor: int, n: nat, row: int)
    ensures AbsoluteMove(cursor, n, row) == RelativeMove(cursor, n, row - cursor)
  {
  }

  /** Each row paired with a snapshot of its cells. */
  function KeyedRows(rows: seq<Row>): (r: seq<Keyed<Row>>)
    reads set i | 0 <= i < |rows| :: rows[i]
    reads set i | 0 <= i < |rows| :: rows[i].data
    ensures |r| == |rows| && forall i :: 0 <= i < |rows| ==> r[i] == Keyed(rows[i], rows[i].data[..])
  {
    if rows == [] then [] else [Keyed(rows[0], rows[0].data[..])] + KeyedRows(rows[1..])
  }

  function Items<T>(s: seq<Keyed<T>>): (r: seq<T>)
    ensures |r| == |s| && forall i :: 0 <= i < |s| ==> r[i] == s[i].item
  {
    if s == [] then [] else [s[0].item] + Items(s[1..])
  }

  /** The comparator sortByColumn builds: the named columns and their declared types. */
  function SortComparator(s: Schema, columnNames: Option<seq<string>>): Result<Comparator>
  {
    match ColumnIndices(s, columnNames)
    case Err(e) => Err(e)
    case Ok(idx) =>
      match ColumnTypesAt(s, Some(idx))
      case Err(e) => Err(e)
      case Ok(types) =>
        NewComparator(Some(idx), Some(seq(|types|, i requires 0 <= i < |types| => Some(types[i]))))
  }

  /** sortByColumn once the cursor check has passed: sort ascending, then reverse when descending. */
  function SortPlan(s: Schema, columnNames: Option<seq<string>>, rows: seq<Keyed<Row>>, ascending: bool): Result<seq<Keyed<Row>>>
  {
    match SortComparator(s, columnNames)
    case Err(e) => Err(e)
    case Ok(c) =>
      match Sort(By(c), rows)
      case Err(e) => Err(e)
      case Ok(t) => Ok(if ascending then t else Reverse(t))
  }

  /** Without a column to sort by, the comparator cannot be built. */
  lemma SortWithoutColumnsFails(s: Schema, rows: seq<Keyed<Row>>, ascending: bool)
    ensures SortPlan(s, None, rows, ascending).Err? && SortPlan(s, Some([]), rows, ascending).Err?
  {
  }

  /**
   * A successful sort permutes the rows; ascending, neighbours compare at
   * most 0; descending, the result is exactly the reverse of the ascending one.
   */
  lemma SortPlanOrders(s: Schema, columnNames: Option<seq<string>>, rows: seq<Keyed<Row>>)
    requires SortPlan(s, columnNames, rows, true).Ok?
    ensures SortComparator(s, columnNames).Ok? && WellFormed(SortComparator(s, columnNames).value)
    ensures multiset(SortPlan(s, columnNames, rows, true).value) == multiset(rows)
    ensures Sorted(By(SortComparator(s, columnNames).value), SortPlan(s, columnNames, rows, true).value)
    ensures SortPlan(s, columnNames, rows, false) == Ok(Reverse(SortPlan(s, columnNames, rows, true).value))
  {
    var c := SortComparator(s, columnNames).value;
    ByLaws(c);
    SortPermutes(By(c), rows);
    SortSorted(By(c), rows);
  }

  class RowSet {
    const metaData: RowMetaData
    var list: seq<Row>
    var cursor: int

    /** The cursor never leaves 0..n+1. */
    ghost predicate Valid()
      reads this
    {
      0 <= cursor <= |list| + 1
    }

    constructor Init(m: RowMetaData)
      ensures metaData == m && list == [] && cursor == 0
    {
      metaData := m;
      list := [];
      cursor := 0;
    }

    /** CDataRowSet(metaData): null metadata fails; otherwise an empty set before its first row. */
    static method Create(m: RowMetaData?) returns (r: Result<RowSet>)
      ensures r.Err? <==> m == null
      ensures r.Ok? ==> (fresh(r.value) && r.value.Valid() &&
        r.value.metaData == m && r.value.list == [] && r.value.cursor == 0)
    {
      if m == null {
        return Err(NullArgument("Meta data object cannot be null."));
      }
      var rs := new RowSet.Init(m);
      return Ok(rs);
    }

    function Size(): (n: nat)
      reads this
      ensures n == |list|
    {
      |list|
    }

    /**
     * addData: a null or empty batch does nothing; a null row or a row whose
     * width differs from the schema fails with nothing added; otherwise the
     * rows follow the existing ones in order.
     */
    method AddData(rows: Option<seq<Row?>>) returns (r: Result<()>)
      requires Valid()
      modifies this
      ensures Valid() && cursor == old(cursor)
      ensures r.Err? <==> rows.Some? && !Sound(rows.value, |metaData.columnNames|)
      ensures r.Err? ==> r.error == CorruptRow
      ensures r.Err? || rows.None? ==> list == old(list)
      ensures r.Ok? && rows.Some? ==> list == old(list) + rows.value
    {
      if rows.None? || |rows.value| < 1 {
        return Ok(());
      }
      var batch := rows.value;
      var i := 0;
      while i < |batch|
        invariant 0 <= i <= |batch| && unchanged(this)
        invariant forall k :: 0 <= k < i ==> batch[k] != null && batch[k].data.Length == |metaData.columnNames|
      {
        if batch[i] == null || batch[i].data.Length != |metaData.columnNames| {
          return Err(CorruptRow);
        }
        i := i + 1;
      }
      var j := 0;
      ghost var start := list;
      while j < |batch|
        invariant 0 <= j <= |batch| && cursor == old(cursor) && Valid()
        invariant list == start + batch[..j]
      {
        assert batch[..j + 1] == batch[..j] + [batch[j]];
        list := list + [batch[j]];
        j := j + 1;
      }
      assert batch[..j] == batch;
      return Ok(());
    }

    /**
     * sortByColumn: fails unless the cursor is before the first row;
     * otherwise the list becomes the sort plan's result over the rows' cells.
     */
    method SortByColumn(columnNames: Option<seq<string>>, ascending: bool) returns (r: Result<()>)
      requires Valid()
      modifies this
      ensures Valid() && cursor == old(cursor)
      ensures old(cursor) > 0 ==> r == Err(CursorNotAtStart) && list == old(list)
      ensures old(cursor) <= 0 ==>
        var plan := SortPlan(metaData.Snapshot(), columnNames, old(KeyedRows(list)), ascending);
        (r.Ok? <==> plan.Ok?) &&
        (r.Ok? ==> list == Items(plan.value)) &&
        (r.Err? ==> r.error == plan.error && list == old(list))
    {
      if cursor > 0 {
        return Err(CursorNotAtStart);
      }
      var keyed := KeyedRows(list);
      var schema := metaData.Snapshot();
      ghost var plan := SortPlan(schema, columnNames, keyed, ascending);
      var comparator := SortComparator(schema, columnNames);
      if comparator.Err? {
        assert plan == Err(comparator.error);
        return Err(comparator.error);
      }
      var sorted := Sort(By(comparator.value), keyed);
      if sorted.Err? {
        assert plan == Err(sorted.error);
        return Err(sorted.error);
      }
      var ordered := if ascending then sorted.value else Reverse(sorted.value);
      assert plan == Ok(ordered);
      SortPlanLength(schema, columnNames, keyed, ascending);
      list := Items(ordered);
      r := Ok(());
    }

    function IsBeforeFirst(): (b: bool) reads this ensures b <==> cursor == 0 { cursor == 0 }
    function IsAfterLast(): (b: bool) reads this ensures b <==> cursor > |list| { cursor > |list| }
    function IsFirst(): (b: bool) reads this ensures b <==> cursor == 1 { cursor == 1 }
    /** isLast: note that an empty set at cursor 0 also counts as "last". */
    function IsLast(): (b: bool) reads this ensures b <==> cursor == |list| { cursor == |list| }

    method BeforeFirst()
      modifies this
      ensures cursor == 0 && list == old(list)
    {
      cursor := 0;
    }

    /** reset: the same as beforeFirst. */
    method Reset()
      modifies this
      ensures cursor == 0 && list == old(list)
    {
      cursor := 0;
    }

    method AfterLast()
      modifies this
      ensures cursor == |list| + 1 && list == old(list)
    {
      cursor := |list| + 1;
    }

    method First() returns (b: bool)
      requires Valid()
      modifies this
      ensures Valid() && list == old(list)
      ensures Move(b, cursor) == FirstMove(old(cursor), |list|)
    {
      if |list| == 0 {
        return false;
      }
      cursor := 1;
      return true;
    }

    method Last() returns (b: bool)
      requires Valid()
      modifies this
      ensures Valid() && list == old(list)
      ensures Move(b, cursor) == LastMove(old(cursor), |list|)
    {
      if |list| == 0 {
        return false;
      }
      cursor := |list|;
      return true;
    }

    method Previous() returns (b: bool)
      requires Valid()
      modifies this
      ensures Valid() && list == old(list)
      ensures Move(b, cursor) == PreviousMove(old(cursor))
    {
      if cursor == 0 {
        return false;
      }
      cursor := cursor - 1;
      if cursor == 0 {
        return false;
      }
      return true;
    }

    method Next() returns (b: bool)
      requires Valid()
      modifies this
      ensures Valid() && list == old(list)
      ensures Move(b, cursor) == NextMove(old(cursor), |list|)
    {
      if cursor > |list| {
        return false;
      }
      cursor := cursor + 1;
      if cursor > |list| {
        return false;
      }
      return true;
    }

    method Absolute(row: int) returns (b: bool)
      requires Valid()
      modifies this
      ensures Valid() && list == old(list)
      ensures Move(b, cursor) == AbsoluteMove(old(cursor), |list|, row)
    {
      if row > |list| || row < 1 {
        return false;
      }
      cursor := row;
      return true;
    }

    method Relative(numRows: int) returns (b: bool)
      requires Valid()
      modifies this
      ensures Valid() && list == old(list)
      ensures Move(b, cursor) == RelativeMove(old(cursor), |list|, numRows)
    {
      if cursor + numRows > |list| || cursor + numRows < 1 {
        return false;
      }
      cursor := cursor + numRows;
      return true;
    }

    /** getCurrentRow: the row under the cursor, or an error when the cursor is not on a row. */
    method GetCurrentRow() returns (r: Result<Row>)
      ensures r.Ok? <==> 1 <= cursor <= |list|
      ensures r.Ok? ==> r.value == list[cursor - 1]
      ensures r.Err? ==> r.error == InvalidCursor(cursor)
    {
      if cursor < 1 || cursor > |list| {
        return Err(InvalidCursor(cursor));
      }
      return Ok(list[cursor - 1]);
    }

    /** getObject(int): the cell of the current row, with both the cursor and the bounds checked. */
    method GetObject(columnIndex: int) returns (r: Result<Value>)
      ensures r.Ok? <==> 1 <= cursor <= |list| && 0 <= columnIndex < list[cursor - 1].data.Length
      ensures r.Ok? ==> r.value == list[cursor - 1].data[columnIndex]
    {
      var row := GetCurrentRow();
      if row.Err? {
        return Err(row.error);
      }
      r := row.value.GetValue(columnIndex);
    }

    /** getObject(String): the column is looked up by name first; an unknown name fails. */
    method GetObjectByName(columnName: string) returns (r: Result<Value>)
      ensures columnName !in metaData.columnNames ==> r == Err(UnknownColumn(columnName))
      ensures columnName in metaData.columnNames ==>
        var idx := ColumnIndex(metaData.Snapshot(), columnName).value;
        (r.Ok? <==> 1 <= cursor <= |list| && idx < list[cursor - 1].data.Length) &&
        (r.Ok? ==> r.value == list[cursor - 1].data[idx])
    {
      var idx := ColumnIndex(metaData.Snapshot(), columnName);
      if idx.Err? {
        return Err(idx.error);
      }
      r := GetObject(idx.value);
    }

    /** setValue(int, value): writes one cell of the current row object and nothing else. */
    method SetValue(columnIndex: int, value: Value) returns (r: Result<()>)
      modifies if 1 <= cursor <= |list| then {list[cursor - 1].data} else {}
      ensures r.Ok? <==> 1 <= cursor <= |list| && 0 <= columnIndex < list[cursor - 1].data.Length
      ensures r.Ok? ==> list[cursor - 1].data[..] == old(list[cursor - 1].data[..])[columnIndex := value]
      ensures r.Err? && 1 <= cursor <= |list| ==> list[cursor - 1].data[..] == old(list[cursor - 1].data[..])
    {
      var row := GetCurrentRow();
      if row.Err? {
        return Err(row.error);
      }
      r := row.value.SetValue(columnIndex, value);
    }

    /** setValue(String, value): an unknown name fails before anything is written. */
    method SetValueByName(columnName: string, value: Value) returns (r: Result<()>)
      modifies if 1 <= cursor <= |list| then {list[cursor - 1].data} else {}
      ensures columnName !in metaData.columnNames ==> r == Err(UnknownColumn(columnName))
      ensures columnName in metaData.columnNames ==>
        var idx := ColumnIndex(metaData.Snapshot(), columnName).value;
        (r.Ok? <==> 1 <= cursor <= |list| && idx < list[cursor - 1].data.Length) &&
        (r.Ok? ==> list[cursor - 1].data[..] == old(list[cursor - 1].data[..])[idx := value])
      ensures r.Err? && 1 <= cursor <= |list| ==> list[cursor - 1].data[..] == old(list[cursor - 1].data[..])
    {
      var idx := ColumnIndex(metaData.Snapshot(), columnName);
      if idx.Err? {
        return Err(idx.error);
      }
      r := SetValue(idx.value, value);
    }

    /**
     * getColumnValues: no rows give no values (whatever the name); otherwise
     * an unknown name fails, and so does a row too short for the column.
     */
    method GetColumnValues(columnName: string) returns (r: Result<seq<Value>>)
      ensures list == [] ==> r == Ok([])
      ensures list != [] && columnName !in metaData.columnNames ==> r == Err(UnknownColumn(columnName))
      ensures list != [] && columnName in metaData.columnNames ==>
        var idx := ColumnIndex(metaData.Snapshot(), columnName).value;
        (r.Ok? <==> forall i :: 0 <= i < |list| ==> idx < list[i].data.Length) &&
        (r.Ok? ==> |r.value| == |list| && forall i :: 0 <= i < |list| ==> r.value[i] == list[i].data[idx])
    {
      var rows := list;
      if |rows| < 1 {
        return Ok([]);
      }
      var colIndex := ColumnIndex(metaData.Snapshot(), columnName);
      if colIndex.Err? {
        return Err(colIndex.error);
      }
      var idx := colIndex.value;
      var values: seq<Value> := [];
      var i := 0;
      while i < |rows|
        invariant 0 <= i <= |rows|
        invariant |values| == i && forall k :: 0 <= k < i ==> idx < rows[k].data.Length && values[k] == rows[k].data[idx]
      {
        var v := rows[i].GetValue(idx);
        if v.Err? {
          return Err(v.error);
        }
        values := values + [v.value];
        i := i + 1;
      }
      return Ok(values);
    }

    /** new CDataRowSet(m) followed by addData(rows). */
    static method Added(m: RowMetaData, rows: seq<Row>) returns (r: Result<RowSet>)
      ensures r.Ok? <==> Sound(rows, |m.columnNames|)
      ensures r.Err? ==> r.error == CorruptRow
      ensures r.Ok? ==> fresh(r.value) && r.value.Valid() && r.value.metaData == m && r.value.cursor == 0 && r.value.list == rows
    {
      var rowset := new RowSet.Init(m);
      var added := rowset.AddData(Some(rows));
      if added.Err? {
        return Err(added.error);
      }
      return Ok(rowset);
    }

    /** A fresh row set over m holding rows as Listing lists them: addData, then sortByColumn when a sort list is given. */
    static method Listed(m: RowMetaData, rows: seq<Row>, sort: Option<seq<string>>, ascending: bool) returns (r: Result<RowSet>)
      ensures r.Ok? <==> old(Listing(m.Snapshot(), rows, sort, ascending)).Ok?
      ensures r.Err? ==> r.error == old(Listing(m.Snapshot(), rows, sort, ascending)).error
      ensures r.Ok? ==> (fresh(r.value) && r.value.Valid() && r.value.metaData == m && r.value.cursor == 0 &&
        r.value.list == old(Listing(m.Snapshot(), rows, sort, ascending)).value)
    {
      ghost var keyed := KeyedRows(rows);
      var added := Added(m, rows);
      if added.Err? {
        return Err(added.error);
      }
      var rowset := added.value;
      if sort.Some? && |sort.value| > 0 {
        assert KeyedRows(rowset.list) == keyed;
        var sorted := rowset.SortByColumn(sort, ascending);
        if sorted.Err? {
          return Err(sorted.error);
        }
      }
      return Ok(rowset);
    }
  }

  /** A listing has one entry per row. */
  lemma ListingLength(s: Schema, rows: seq<Row>, sort: Option<seq<string>>, ascending: bool)
    requires Listing(s, rows, sort, ascending).Ok?
    ensures |Listing(s, rows, sort, ascending).value| == |rows|
  {
    ListingPermutes(s, rows, sort, ascending);
    assert |multiset(Listing(s, rows, sort, ascending).value)| == |multiset(rows)|;
  }

  /** Either direction, a successful sort plan is a permutation of the rows. */
  lemma SortPlanPermutes(s: Schema, columnNames: Option<seq<string>>, rows: seq<Keyed<Row>>, ascending: bool)
    requires SortPlan(s, columnNames, rows, ascending).Ok?
    ensures multiset(SortPlan(s, columnNames, rows, ascending).value) == multiset(rows)
  {
    SortPlanOrders(s, columnNames, rows);
    if !ascending {
      ReversePermutes(SortPlan(s, columnNames, rows, true).value);
    }
  }

  /** Items of two permutations of each other are permutations of each other. */
  lemma {:induction false} ItemsPermute<T>(a: seq<Keyed<T>>, b: seq<Keyed<T>>)
    requires multiset(a) == multiset(b)
    ensures multiset(Items(a)) == multiset(Items(b))
  {
    if a == [] {
      assert |b| == |multiset(b)| == 0;
    } else {
      var x := a[0];
      assert x in multiset(b);
      var k :| 0 <= k < |b| && b[k] == x;
      var tail, rest := a[1..], b[..k] + b[k + 1..];
      assert a == [x] + tail;
      assert multiset(a) == multiset(tail) + multiset{x};
      SplitAt(b, k);
      Cancel(multiset(tail), multiset(rest), x);
      ItemsPermute(tail, rest);
      ItemsSplitAt(b, k);
      assert Items(a) == [x.item] + Items(tail);
      Cons(x.item, Items(tail));
      assert multiset(Items(b)) == multiset(Items(rest)) + multiset{x.item};
    }
  }

  lemma Around<U>(s: seq<U>, k: nat)
    requires k < |s|
    ensures s == s[..k] + ([s[k]] + s[k + 1..])
  {
    assert s == s[..k] + [s[k]] + s[k + 1..];
  }

  lemma Cons<U>(y: U, s: seq<U>)
    ensures multiset([y] + s) == multiset(s) + multiset{y}
  {
  }

  lemma SplitAt<U>(s: seq<U>, k: nat)
    requires k < |s|
    ensures multiset(s) == multiset(s[..k] + s[k + 1..]) + multiset{s[k]}
  {
    assert s == s[..k] + [s[k]] + s[k + 1..];
  }

  lemma Cancel<U>(p: multiset<U>, q: multiset<U>, x: U)
    requires p + multiset{x} == q + multiset{x}
    ensures p == q
  {
    assert p == (p + multiset{x}) - multiset{x};
    assert q == (q + multiset{x}) - multiset{x};
  }

  lemma ItemsSplitAt<T>(s: seq<Keyed<T>>, k: nat)
    requires k < |s|
    ensures multiset(Items(s)) == multiset(Items(s[..k] + s[k + 1..])) + multiset{s[k].item}
  {
    var front, back := s[..k], s[k + 1..];
    Around(s, k);
    ItemsAppend(front, [s[k]] + back);
    ItemsAppend([s[k]], back);
    ItemsAppend(front, back);
    var f, b := Items(front), Items(back);
    assert Items(s) == f + ([s[k].item] + b);
    assert Items(front + back) == f + b;
    assert multiset(f + ([s[k].item] + b)) == multiset(f) + multiset{s[k].item} + multiset(b);
  }

  lemma ItemsAppend<T>(p: seq<Keyed<T>>, q: seq<Keyed<T>>)
    ensures Items(p + q) == Items(p) + Items(q)
  {
    var l, r := Items(p + q), Items(p) + Items(q);
    assert |l| == |r|;
    forall i | 0 <= i < |l| ensures l[i] == r[i] {
      if i < |p| {
        assert (p + q)[i] == p[i];
      } else {
        assert (p + q)[i] == q[i - |p|];
      }
    }
  }

  /** A successful sort plan keeps the number of rows. */
  lemma SortPlanLength(s: Schema, columnNames: Option<seq<string>>, rows: seq<Keyed<Row>>, ascending: bool)
    requires SortPlan(s, columnNames, rows, ascending).Ok?
    ensures |SortPlan(s, columnNames, rows, ascending).value| == |rows|
  {
    SortPermutes(By(SortComparator(s, columnNames).value), rows);
    var t := Sort(By(SortComparator(s, columnNames).value), rows).value;
    assert |multiset(t)| == |multiset(rows)|;
  }

  /**
   * The row set getAll and get build from rows: a row whose width differs
   * from the schema is refused, then the rows are sorted when a non-empty
   * sort list is given.
   */
  function Listing(s: Schema, rows: seq<Row>, sort: Option<seq<string>>, ascending: bool): Result<seq<Row>>
    reads set i | 0 <= i < |rows| :: rows[i], set i | 0 <= i < |rows| :: rows[i].data
  {
    if !Sound(rows, |s.columnNames|) then Err(CorruptRow)
    else if sort.None? || |sort.value| == 0 then Ok(rows)
    else
      match SortPlan(s, sort, KeyedRows(rows), ascending)
      case Err(e) => Err(e)
      case Ok(p) => Ok(Items(p))
  }

  /** A listing is a permutation of rows of the schema's width; unsorted, it is the rows themselves. */
  lemma ListingPermutes(s: Schema, rows: seq<Row>, sort: Option<seq<string>>, ascending: bool)
    requires Listing(s, rows, sort, ascending).Ok?
    ensures multiset(Listing(s, rows, sort, ascending).value) == multiset(rows)
    ensures forall i :: 0 <= i < |rows| ==> rows[i].data.Length == |s.columnNames|
    ensures sort.None? || |sort.value| == 0 ==> Listing(s, rows, sort, ascending).value == rows
  {
    if sort.Some? && |sort.value| > 0 {
      var k := KeyedRows(rows);
      SortPlanPermutes(s, sort, k, ascending);
      ItemsPermute(SortPlan(s, sort, k, ascending).value, k);
      assert Items(k) == rows;
    }
  }
}
