/**
 * CRowMetaData: the ordered column names and types of a table, its primary
 * key columns (Java null = None) and the column-name -> position label map.
 * The queries are pure functions of a Schema value; the class RowMetaData
 * holds the fields the constructor sets and addColumns replaces.
 */
module MetaData {
  import opened Base

  const COMPOSITE_KEY_DELIMITER: string := ":"

  datatype Schema = Schema(
    columnNames: seq<string>,
    columnTypes: seq<JClass>,
    primaryKeyColumns: Option<seq<string>>)

  /**
   * The label map built by putting names[i] -> i for i = 0, 1, ...: a later
   * duplicate overwrites an earlier one.
   */
  function Labels(names: seq<string>): map<string, nat>
  {
    if names == [] then map[]
    else Labels(names[..|names| - 1])[names[|names| - 1] := |names| - 1]
  }

  /** Every name is mapped, to the position of its LAST occurrence. */
  lemma {:induction false} LabelsSpec(names: seq<string>, k: string)
    ensures k in Labels(names) <==> k in names
    ensures k in Labels(names) ==>
      var i := Labels(names)[k];
      i < |names| && names[i] == k && forall j :: i < j < |names| ==> names[j] != k
  {
    if names != [] {
      var p := names[..|names| - 1];
      LabelsSpec(p, k);
      assert names == p + [names[|names| - 1]];
    }
  }

  /** With no duplicate names, the column at position i is labelled i. */
  lemma LabelsOfDistinct(names: seq<string>, i: nat)
    requires i < |names|
    requires forall a, b :: 0 <= a < b < |names| ==> names[a] != names[b]
    ensures names[i] in Labels(names) && Labels(names)[names[i]] == i
  {
    LabelsSpec(names, names[i]);
  }

  /** Two different labelled names never share a position. */
  lemma LabelsInjective(names: seq<string>, a: string, b: string)
    requires a in Labels(names) && b in Labels(names) && a != b
    ensures Labels(names)[a] != Labels(names)[b]
  {
    LabelsSpec(names, a);
    LabelsSpec(names, b);
  }

  function NumberColumns(s: Schema): nat {
    |s.columnNames|
  }

  /** containsColumn: false for null, otherwise whether the label map has the name. */
  function ContainsColumn(s: Schema, name: Option<string>): (r: bool)
    ensures r <==> name.Some? && name.value in s.columnNames
  {
    LabelsSpec(s.columnNames, if name.Some? then name.value else "");
    name.Some? && name.value in Labels(s.columnNames)
  }

  /** getColumnIndex: the labelled position, or an error for an absent name. */
  function ColumnIndex(s: Schema, name: string): (r: Result<nat>)
    ensures r.Ok? <==> name in s.columnNames
    ensures r.Ok? ==> r.value < |s.columnNames| && s.columnNames[r.value] == name
    ensures r.Err? ==> r.error == UnknownColumn(name)
  {
    LabelsSpec(s.columnNames, name);
    if ContainsColumn(s, Some(name)) then Ok(Labels(s.columnNames)[name]) else Err(UnknownColumn(name))
  }

  /** getColumnIndices: positions in argument order; empty for a null or empty argument. */
  function ColumnIndices(s: Schema, names: Option<seq<string>>): (r: Result<seq<nat>>)
    ensures names.None? || names.value == [] ==> r == Ok([])
    ensures r.Ok? <==> names.None? || forall i :: 0 <= i < |names.value| ==> names.value[i] in s.columnNames
    ensures r.Ok? && names.Some? ==>
      |r.value| == |names.value| &&
      forall i :: 0 <= i < |names.value| ==> Ok(r.value[i]) == ColumnIndex(s, names.value[i])
  {
    if names.None? || |names.value| < 1 then Ok([]) else IndicesOf(s, names.value)
  }

  function IndicesOf(s: Schema, names: seq<string>): (r: Result<seq<nat>>)
    ensures r.Ok? <==> forall i :: 0 <= i < |names| ==> names[i] in s.columnNames
    ensures r.Ok? ==> (|r.value| == |names| &&
      forall i :: 0 <= i < |names| ==> Ok(r.value[i]) == ColumnIndex(s, names[i]))
    ensures r.Err? ==> exists i :: 0 <= i < |names| && r == Err(UnknownColumn(names[i]))
  {
    if names == [] then Ok([])
    else match ColumnIndex(s, names[0])
      case Err(e) => Err(e)
      case Ok(i) =>
        match IndicesOf(s, names[1..])
        case Err(e) => assert names[1..][0] == names[1]; Err(e)
        case Ok(rest) => Ok([i] + rest)
  }

  /** getPrimaryKeyColumnIndices: a null primary key array throws. */
  function PrimaryKeyColumnIndices(s: Schema): (r: Result<seq<nat>>)
    ensures s.primaryKeyColumns.None? ==> r == Err(NullPointer)
    ensures s.primaryKeyColumns.Some? ==> r == IndicesOf(s, s.primaryKeyColumns.value)
  {
    if s.primaryKeyColumns.None? then Err(NullPointer) else IndicesOf(s, s.primaryKeyColumns.value)
  }

  /** getColumnTypeCls: columnTypes[i], with Java's array bounds check. */
  function ColumnTypeAt(s: Schema, i: int): (r: Result<JClass>)
    ensures r.Ok? <==> 0 <= i < |s.columnTypes|
    ensures r.Ok? ==> r.value == s.columnTypes[i]
  {
    if 0 <= i < |s.columnTypes| then Ok(s.columnTypes[i]) else Err(IndexOutOfBounds(|s.columnTypes|, i))
  }

  /** getColumnType(name) */
  function ColumnType(s: Schema, name: string): (r: Result<JClass>)
    requires |s.columnNames| == |s.columnTypes|
    ensures r.Ok? <==> name in s.columnNames
    ensures r.Ok? ==> r.value == s.columnTypes[ColumnIndex(s, name).value]
  {
    match ColumnIndex(s, name)
    case Err(e) => Err(e)
    case Ok(i) => ColumnTypeAt(s, i)
  }

  /** getColumnTypes(int[]): the types at the given positions; empty for null or empty. */
  function ColumnTypesAt(s: Schema, idxs: Option<seq<int>>): (r: Result<seq<JClass>>)
    ensures idxs.None? || idxs.value == [] ==> r == Ok([])
    ensures r.Ok? <==> idxs.None? || forall i :: 0 <= i < |idxs.value| ==> 0 <= idxs.value[i] < |s.columnTypes|
    ensures r.Ok? && idxs.Some? ==> (|r.value| == |idxs.value| &&
      forall i :: 0 <= i < |idxs.value| ==> r.value[i] == s.columnTypes[idxs.value[i]])
  {
    if idxs.None? || |idxs.value| < 1 then Ok([]) else TypesAt(s, idxs.value)
  }

  function TypesAt(s: Schema, idxs: seq<int>): (r: Result<seq<JClass>>)
    ensures r.Ok? <==> forall i :: 0 <= i < |idxs| ==> 0 <= idxs[i] < |s.columnTypes|
    ensures r.Ok? ==> |r.value| == |idxs| && forall i :: 0 <= i < |idxs| ==> r.value[i] == s.columnTypes[idxs[i]]
  {
    if idxs == [] then Ok([])
    else match ColumnTypeAt(s, idxs[0])
      case Err(e) => Err(e)
      case Ok(t) =>
        match TypesAt(s, idxs[1..])
        case Err(e) => assert idxs[1..][0] == idxs[1]; Err(e)
        case Ok(rest) => Ok([t] + rest)
  }

  /** CDataRow.getValue's bounds check. */
  function ValueAt(row: seq<Value>, i: int): (r: Result<Value>)
    ensures r.Ok? <==> 0 <= i < |row|
    ensures r.Ok? ==> r.value == row[i]
    ensures r.Err? ==> r.error == IndexOutOfBounds(|row|, i)
  {
    if |row| <= i || i < 0 then Err(IndexOutOfBounds(|row|, i)) else Ok(row[i])
  }

  /**
   * createPrimaryKey: a null row fails; one primary key column gives that
   * column's raw value; otherwise the composite string key.
   */
  function CreatePrimaryKey(s: Schema, row: Option<seq<Value>>, show: Value -> string): (r: Result<Value>)
  {
    if row.None? then Err(NullArgument("row"))
    else if s.primaryKeyColumns.None? then Err(NullPointer)
    else if |s.primaryKeyColumns.value| == 1 then
      match ColumnIndex(s, s.primaryKeyColumns.value[0])
      case Err(e) => Err(e)
      case Ok(i) => ValueAt(row.value, i)
    else
      match CompositeKey(s, row.value, s.primaryKeyColumns.value, show)
      case Err(e) => Err(e)
      case Ok(k) => Ok(Str(k))
  }

  /**
   * The composite key loop: for each key column with a non-null value, its
   * string, followed by the delimiter unless it is the last key column.
   */
  function CompositeKey(s: Schema, row: seq<Value>, pk: seq<string>, show: Value -> string): (r: Result<string>)
    decreases |pk|
  {
    if pk == [] then Ok("")
    else
      match ColumnIndex(s, pk[0])
      case Err(e) => Err(e)
      case Ok(i) =>
        match ValueAt(row, i)
        case Err(e) => Err(e)
        case Ok(v) =>
          match CompositeKey(s, row, pk[1..], show)
          case Err(e) => Err(e)
          case Ok(rest) =>
            var part := if v == Null then "" else show(v) + (if |pk| > 1 then COMPOSITE_KEY_DELIMITER else "");
            Ok(part + rest)
  }

  /** The key columns resolve and the row is wide enough: the key derivation cannot fail. */
  predicate KeyReadable(s: Schema, row: seq<Value>) {
    s.primaryKeyColumns.Some? &&
    |row| == |s.columnNames| &&
    forall p :: p in s.primaryKeyColumns.value ==> p in s.columnNames
  }

  lemma {:induction false} CompositeKeyOk(s: Schema, row: seq<Value>, pk: seq<string>, show: Value -> string)
    requires |row| == |s.columnNames| && forall p :: p in pk ==> p in s.columnNames
    ensures CompositeKey(s, row, pk, show).Ok?
    decreases |pk|
  {
    if pk != [] {
      assert pk[0] in pk;
      forall p | p in pk[1..] ensures p in s.columnNames { assert p in pk; }
      CompositeKeyOk(s, row, pk[1..], show);
    }
  }

  /** createPrimaryKey succeeds on every row of the schema's width. */
  lemma CreatePrimaryKeyOk(s: Schema, row: seq<Value>, show: Value -> string)
    requires KeyReadable(s, row)
    ensures CreatePrimaryKey(s, Some(row), show).Ok?
  {
    var pk := s.primaryKeyColumns.value;
    if |pk| == 1 { assert pk[0] in pk; } else { CompositeKeyOk(s, row, pk, show); }
  }

  /** A null row fails; a single primary key column yields its raw value, null included. */
  lemma SingleColumnKey(s: Schema, row: seq<Value>, show: Value -> string)
    requires s.primaryKeyColumns.Some? && |s.primaryKeyColumns.value| == 1
    requires s.primaryKeyColumns.value[0] in s.columnNames && |row| == |s.columnNames|
    ensures CreatePrimaryKey(s, None, show) == Err(NullArgument("row"))
    ensures CreatePrimaryKey(s, Some(row), show) == Ok(row[ColumnIndex(s, s.primaryKeyColumns.value[0]).value])
  {
  }

  /** One turn of the composite key loop: this column's part, then the rest of the key. */
  lemma CompositeKeyStep(s: Schema, row: seq<Value>, pk: seq<string>, show: Value -> string, i: nat,
                         part: string, rest: string)
    requires pk != [] && ColumnIndex(s, pk[0]) == Ok(i) && i < |row|
    requires part == if row[i] == Null then "" else show(row[i]) + (if |pk| > 1 then COMPOSITE_KEY_DELIMITER else "")
    requires CompositeKey(s, row, pk[1..], show) == Ok(rest)
    ensures CompositeKey(s, row, pk, show) == Ok(part + rest)
  {
  }

  /** The key of a row over two key columns: each non-null part, with the delimiter after the first. */
  lemma TwoColumnKey(n1: string, n2: string, a: Value, b: Value, show: Value -> string)
    requires n1 != n2
    ensures var s := Schema([n1, n2], [StringClass, StringClass], Some([n1, n2]));
      CreatePrimaryKey(s, Some([a, b]), show) ==
      Ok(Str((if a == Null then "" else show(a) + COMPOSITE_KEY_DELIMITER) + (if b == Null then "" else show(b))))
  {
    var pk := [n1, n2];
    var s := Schema(pk, [StringClass, StringClass], Some(pk));
    LabelsOfDistinct(pk, 0);
    LabelsOfDistinct(pk, 1);
    var r := [a, b];
    var second := if b == Null then "" else show(b);
    assert [n2][1..] == [] && pk[1..] == [n2];
    assert second + "" == second;
    CompositeKeyStep(s, r, [n2], show, 1, second, "");
    CompositeKeyStep(s, r, pk, show, 0, if a == Null then "" else show(a) + COMPOSITE_KEY_DELIMITER, second);
  }

  /** Two key columns: ("x","y") -> "x:y". */
  lemma CompositeExampleTwo(show: Value -> string)
    requires show(Str("x")) == "x" && show(Str("y")) == "y"
    ensures var s := Schema(["a", "b"], [StringClass, StringClass], Some(["a", "b"]));
      CreatePrimaryKey(s, Some([Str("x"), Str("y")]), show) == Ok(Str("x:y"))
  {
    TwoColumnKey("a", "b", Str("x"), Str("y"), show);
    assert "x" + ":" + "y" == "x:y";
  }

  /** The key of a row over three key columns: each non-null part, with the delimiter after the first two. */
  lemma ThreeColumnKey(n1: string, n2: string, n3: string, a: Value, b: Value, c: Value, show: Value -> string)
    requires n1 != n2 && n1 != n3 && n2 != n3
    ensures var s := Schema([n1, n2, n3], [StringClass, StringClass, StringClass], Some([n1, n2, n3]));
      CreatePrimaryKey(s, Some([a, b, c]), show) ==
      Ok(Str((if a == Null then "" else show(a) + COMPOSITE_KEY_DELIMITER) +
             ((if b == Null then "" else show(b) + COMPOSITE_KEY_DELIMITER) + (if c == Null then "" else show(c)))))
  {
    var pk := [n1, n2, n3];
    var s := Schema(pk, [StringClass, StringClass, StringClass], Some(pk));
    LabelsOfDistinct(pk, 0);
    LabelsOfDistinct(pk, 1);
    LabelsOfDistinct(pk, 2);
    var r := [a, b, c];
    var third := if c == Null then "" else show(c);
    var second := if b == Null then "" else show(b) + COMPOSITE_KEY_DELIMITER;
    assert [n3][1..] == [] && [n2, n3][1..] == [n3] && pk[1..] == [n2, n3];
    assert third + "" == third;
    CompositeKeyStep(s, r, [n3], show, 2, third, "");
    CompositeKeyStep(s, r, [n2, n3], show, 1, second, third);
    CompositeKeyStep(s, r, pk, show, 0, if a == Null then "" else show(a) + COMPOSITE_KEY_DELIMITER, second + third);
  }

  /** A null middle component contributes nothing: ("x",null,"z") -> "x:z". */
  lemma CompositeExampleNullMiddle(show: Value -> string)
    requires show(Str("x")) == "x" && show(Str("z")) == "z"
    ensures var s := Schema(["a", "b", "c"], [StringClass, StringClass, StringClass], Some(["a", "b", "c"]));
      CreatePrimaryKey(s, Some([Str("x"), Null, Str("z")]), show) == Ok(Str("x:z"))
  {
    ThreeColumnKey("a", "b", "c", Str("x"), Null, Str("z"), show);
    assert "x" + ":" + ("" + "z") == "x:z";
  }

  /** A null last component leaves the delimiter before it: ("x","y",null) -> "x:y:". */
  lemma CompositeExampleNullLast(show: Value -> string)
    requires show(Str("x")) == "x" && show(Str("y")) == "y"
    ensures var s := Schema(["a", "b", "c"], [StringClass, StringClass, StringClass], Some(["a", "b", "c"]));
      CreatePrimaryKey(s, Some([Str("x"), Str("y"), Null]), show) == Ok(Str("x:y:"))
  {
    ThreeColumnKey("a", "b", "c", Str("x"), Str("y"), Null, show);
    assert "x" + ":" + ("y" + ":" + "") == "x:y:";
  }

  /** Composite keys are not injective: ("a:b","c") and ("a","b:c") get the same key. */
  lemma CompositeKeyCollision(show: Value -> string)
    requires forall t :: show(Str(t)) == t
    ensures var s := Schema(["p", "q"], [StringClass, StringClass], Some(["p", "q"]));
      CreatePrimaryKey(s, Some([Str("a:b"), Str("c")]), show) ==
      CreatePrimaryKey(s, Some([Str("a"), Str("b:c")]), show)
  {
    TwoColumnKey("p", "q", Str("a:b"), Str("c"), show);
    TwoColumnKey("p", "q", Str("a"), Str("b:c"), show);
    assert show(Str("a:b")) == "a:b" && show(Str("c")) == "c" && show(Str("a")) == "a" && show(Str("b:c")) == "b:c";
    assert "a:b" + ":" + "c" == "a" + ":" + "b:c";
  }

  /**
   * equals: false for a null target or a target whose names, types or primary
   * key array is null; a length mismatch is false; a null primary key on this
   * side throws after the length checks; otherwise element-wise equality.
   */
  function MetaEquals(self: Schema, target: Option<Schema>): Result<bool>
  {
    if target.None? then Ok(false)
    else
      var t := target.value;
      if t.primaryKeyColumns.None? then Ok(false)
      else if |t.columnNames| != |self.columnNames| || |t.columnTypes| != |self.columnTypes| then Ok(false)
      else if self.primaryKeyColumns.None? then Err(NullPointer)
      else if |t.primaryKeyColumns.value| != |self.primaryKeyColumns.value| then Ok(false)
      else Ok(NamesTypesEqual(self, t) && PkEqual(self.primaryKeyColumns.value, t.primaryKeyColumns.value))
  }

  /** The name/type loop of equals: every position has equal name and equal type. */
  predicate NamesTypesEqual(a: Schema, b: Schema)
    requires |a.columnNames| == |b.columnNames| && |a.columnTypes| == |b.columnTypes|
  {
    forall i :: 0 <= i < |b.columnNames| ==>
      b.columnNames[i] == a.columnNames[i] && (i < |a.columnTypes| ==> b.columnTypes[i] == a.columnTypes[i])
  }

  /** The primary key loop of equals. */
  predicate PkEqual(a: seq<string>, b: seq<string>)
    requires |a| == |b|
  {
    forall i :: 0 <= i < |b| ==> b[i] == a[i]
  }

  /** For schemas whose names and types line up, equals holds exactly for identical schemas with a primary key array. */
  lemma {:induction false} MetaEqualsIff(a: Schema, b: Schema)
    requires |a.columnNames| == |a.columnTypes| && |b.columnNames| == |b.columnTypes|
    requires a.primaryKeyColumns.Some? || b.primaryKeyColumns.None? || |a.columnNames| != |b.columnNames|
    ensures MetaEquals(a, Some(b)).Ok?
    ensures MetaEquals(a, Some(b)).value <==> a == b && b.primaryKeyColumns.Some?
  {
    if MetaEquals(a, Some(b)) == Ok(true) {
      assert a.columnNames == b.columnNames;
      assert a.columnTypes == b.columnTypes;
      assert a.primaryKeyColumns.value == b.primaryKeyColumns.value;
    }
  }

  /** A schema without a primary key array is not equal even to itself. */
  lemma NoKeyNeverEqual(a: Schema)
    requires a.primaryKeyColumns.None?
    ensures MetaEquals(a, Some(a)) == Ok(false)
  {
  }

  /**
   * The mutable holder of a schema. Valid() ties the label map to the names
   * and says every primary key column is a column.
   */
  class RowMetaData {
    var columnNames: seq<string>
    var columnTypes: seq<JClass>
    var primaryKeyColumns: Option<seq<string>>
    var labelMap: map<string, nat>

    ghost predicate Valid()
      reads this
    {
      |columnNames| == |columnTypes| &&
      labelMap == Labels(columnNames) &&
      (primaryKeyColumns.Some? ==> forall p :: p in primaryKeyColumns.value ==> p in columnNames)
    }

    /** The schema these fields currently describe. */
    function Snapshot(): Schema
      reads this
    {
      Schema(columnNames, columnTypes, primaryKeyColumns)
    }

    constructor Init(names: seq<string>, types: seq<JClass>, pk: Option<seq<string>>, labels: map<string, nat>)
      ensures columnNames == names && columnTypes == types && primaryKeyColumns == pk && labelMap == labels
    {
      columnNames := names;
      columnTypes := types;
      primaryKeyColumns := pk;
      labelMap := labels;
    }

    /** The constructor: null or unequal arrays fail, then any primary key column that is not a column. */
    static method Create(names: Option<seq<string>>, types: Option<seq<JClass>>, pk: Option<seq<string>>)
      returns (r: Result<RowMetaData>)
      ensures r.Err? <==>
        names.None? || types.None? || |names.value| != |types.value| ||
        (pk.Some? && exists p :: p in pk.value && p !in names.value)
      ensures r.Ok? ==> (fresh(r.value) && r.value.Valid() &&
        r.value.Snapshot() == Schema(names.value, types.value, pk))
    {
      if names.None? || types.None? {
        return Err(NullArgument("column names and column types"));
      }
      if |names.value| != |types.value| {
        return Err(LengthMismatch("columnNames, columnTypes"));
      }
      var cols := names.value;
      var labels: map<string, nat> := map[];
      var i := 0;
      while i < |cols|
        invariant 0 <= i <= |cols|
        invariant labels == Labels(cols[..i])
      {
        assert cols[..i + 1][..i] == cols[..i];
        labels := labels[cols[i] := i];
        i := i + 1;
      }
      assert cols[..i] == cols;
      if pk.Some? {
        var j := 0;
        while j < |pk.value|
          invariant 0 <= j <= |pk.value|
          invariant forall k :: 0 <= k < j ==> pk.value[k] in cols
        {
          LabelsSpec(cols, pk.value[j]);
          if pk.value[j] !in labels {
            return Err(UnknownColumn(pk.value[j]));
          }
          j := j + 1;
        }
      }
      var m := new RowMetaData.Init(cols, types.value, pk, labels);
      return Ok(m);
    }

    /**
     * addColumns: null or unequal arrays fail, so does a name that is already
     * a column; otherwise the new names and types follow the old ones.
     */
    method AddColumns(addNames: Option<seq<string>>, addTypes: Option<seq<JClass>>) returns (r: Result<()>)
      requires Valid()
      modifies this
      ensures Valid()
      ensures r.Err? <==>
        addNames.None? || addTypes.None? || |addNames.value| != |addTypes.value| ||
        exists n :: n in addNames.value && n in old(columnNames)
      ensures r.Err? ==> unchanged(this)
      ensures r.Ok? ==>
        columnNames == old(columnNames) + addNames.value &&
        columnTypes == old(columnTypes) + addTypes.value &&
        primaryKeyColumns == old(primaryKeyColumns)
    {
      if addNames.None? || addTypes.None? || |addNames.value| != |addTypes.value| {
        return Err(NullArgument("column name and column type"));
      }
      var add := addNames.value;
      var i := 0;
      while i < |add|
        invariant 0 <= i <= |add|
        invariant forall k :: 0 <= k < i ==> add[k] !in columnNames
        invariant unchanged(this)
      {
        LabelsSpec(columnNames, add[i]);
        if add[i] in labelMap {
          return Err(DuplicateColumn(add[i]));
        }
        i := i + 1;
      }
      var newNames := columnNames + add;
      var newTypes := columnTypes + addTypes.value;
      var newLabels := labelMap;
      var j := 0;
      while j < |newNames|
        invariant 0 <= j <= |newNames|
        invariant newLabels == labelMap + Labels(newNames[..j])
        invariant unchanged(this)
      {
        assert newNames[..j + 1][..j] == newNames[..j];
        newLabels := newLabels[newNames[j] := j];
        j := j + 1;
      }
      assert newNames[..j] == newNames;
      LabelsCovered(columnNames, newNames);
      columnNames := newNames;
      columnTypes := newTypes;
      labelMap := newLabels;
      forall p | primaryKeyColumns.Some? && p in primaryKeyColumns.value ensures p in columnNames {
        assert p in old(columnNames);
      }
      return Ok(());
    }
  }

  /** Re-labelling every name of a longer list overrides every old label. */
  lemma LabelsCovered(old_: seq<string>, names: seq<string>)
    requires |old_| <= |names| && old_ == names[..|old_|]
    ensures Labels(old_) + Labels(names) == Labels(names)
  {
    forall k | k in Labels(old_) ensures k in Labels(names) {
      LabelsSpec(old_, k);
      LabelsSpec(names, k);
      assert names[Labels(old_)[k]] == k;
    }
  }

  /** After addColumns, column i of the added ones sits at position |old| + i, when the added names are distinct. */
  lemma AddedColumnPosition(oldNames: seq<string>, add: seq<string>, i: nat)
    requires i < |add|
    requires forall n :: n in add ==> n !in oldNames
    requires forall a, b :: 0 <= a < b < |add| ==> add[a] != add[b]
    ensures add[i] in Labels(oldNames + add) && Labels(oldNames + add)[add[i]] == |oldNames| + i
  {
    var names := oldNames + add;
    assert names[|oldNames| + i] == add[i];
    LabelsSpec(names, add[i]);
    var p := Labels(names)[add[i]];
    assert p >= |oldNames| + i;
    assert names[p] == add[p - |oldNames|];
  }
}
