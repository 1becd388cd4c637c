/**
 * CDataRow: a row of cells held in an array that the row owns by reference.
 * The array can be replaced (ensureCardinality, setRawData) and written in
 * place (setValue); every access is bounds-checked.
 */
module DataRow {
  import opened Base
  import opened MetaData

  /** A row of length n: n null cells. */
  function Nulls(n: nat): (r: seq<Value>)
    ensures |r| == n && forall i :: 0 <= i < n ==> r[i] == Null
  {
    seq(n, _ => Null)
  }

  /**
   * toMap's result: each column name is mapped to the cell at its labelled
   * position; a name whose position lies beyond the row is skipped.
   */
  function RowMap(s: Schema, cells: seq<Value>): map<string, Value>
  {
    NamesMap(s, s.columnNames, cells)
  }

  /** The part of RowMap contributed by the names ns. */
  function NamesMap(s: Schema, ns: seq<string>, cells: seq<Value>): map<string, Value>
  {
    map n | n in ns && n in s.columnNames && ColumnIndex(s, n).value < |cells| :: cells[ColumnIndex(s, n).value]
  }

  /** A row as wide as its distinct-named schema maps every column name to its own cell. */
  lemma RowMapOfDistinct(s: Schema, cells: seq<Value>, i: nat)
    requires |cells| == |s.columnNames| && i < |cells|
    requires forall a, b :: 0 <= a < b < |s.columnNames| ==> s.columnNames[a] != s.columnNames[b]
    ensures s.columnNames[i] in RowMap(s, cells) && RowMap(s, cells)[s.columnNames[i]] == cells[i]
  {
    LabelsOfDistinct(s.columnNames, i);
  }

  /** The keys of toMap are exactly the column names whose position the row covers. */
  lemma RowMapKeys(s: Schema, cells: seq<Value>, n: string)
    ensures n in RowMap(s, cells) <==> n in s.columnNames && ColumnIndex(s, n).value < |cells|
  {
  }

  /** Every row of the batch is present and as wide as the schema (the cardinality check of addData). */
  predicate Sound(batch: seq<Row?>, width: nat)
    reads set i | 0 <= i < |batch| && batch[i] != null :: batch[i]
  {
    forall i :: 0 <= i < |batch| ==> batch[i] != null && batch[i].data.Length == width
  }

  class Row {
    var data: array<Value>

    /** The no-argument constructor: a zero-length row. */
    constructor Empty()
      ensures fresh(data) && data.Length == 0
    {
      data := new Value[0];
    }

    constructor Init(a: array<Value>)
      ensures data == a
    {
      data := a;
    }

    /** CDataRow(int): fewer than one column fails, otherwise that many null cells. */
    static method WithColumns(numColumns: int) returns (r: Result<Row>)
      ensures r.Err? <==> numColumns < 1
      ensures r.Ok? ==> fresh(r.value) && fresh(r.value.data) && r.value.data[..] == Nulls(numColumns)
    {
      if numColumns < 1 {
        return Err(IllegalArgument("Number of columns in row must be greater than 0."));
      }
      var a := new Value[numColumns](_ => Null);
      var row := new Row.Init(a);
      return Ok(row);
    }

    /** CDataRow(Object[]): a null array fails; otherwise the row uses the caller's array itself. */
    static method FromArray(a: array?<Value>) returns (r: Result<Row>)
      ensures r.Err? <==> a == null
      ensures r.Ok? ==> fresh(r.value) && r.value.data == a
    {
      if a == null {
        return Err(NullArgument("row"));
      }
      var row := new Row.Init(a);
      return Ok(row);
    }

    /**
     * ensureCardinality: grows the row to size cells, keeping the old cells
     * and filling the rest with null; never shrinks. A size equal to the
     * length still swaps in a fresh copy.
     */
    method EnsureCardinality(size: int)
      modifies this
      ensures size < 1 || size < old(data.Length) ==> data == old(data)
      ensures !(size < 1 || size < old(data.Length)) ==>
        fresh(data) && data[..] == old(data[..]) + Nulls(size - old(data.Length))
    {
      if size < 1 || size < data.Length {
        return;
      }
      var ensured := new Value[size](_ => Null);
      var i := 0;
      while i < data.Length
        invariant 0 <= i <= data.Length <= size
        invariant unchanged(this) && unchanged(data)
        invariant ensured[..i] == data[..i]
        invariant forall k :: i <= k < size ==> ensured[k] == Null
      {
        ensured[i] := data[i];
        i := i + 1;
      }
      assert ensured[..] == data[..] + Nulls(size - data.Length);
      data := ensured;
    }

    /** getNumberColumns */
    function NumberColumns(): (n: nat)
      reads this
      ensures n == data.Length
    {
      data.Length
    }

    /** getValue: the cell at i, or an out-of-bounds error. */
    method GetValue(columnIndex: int) returns (r: Result<Value>)
      ensures r.Ok? <==> 0 <= columnIndex < data.Length
      ensures r.Ok? ==> r.value == data[columnIndex]
      ensures r == ValueAt(data[..], columnIndex)
    {
      if data.Length <= columnIndex || columnIndex < 0 {
        return Err(IndexOutOfBounds(data.Length, columnIndex));
      }
      return Ok(data[columnIndex]);
    }

    /** setValue: writes cell i in place, or fails out of bounds with nothing changed. */
    method SetValue(columnIndex: int, value: Value) returns (r: Result<()>)
      modifies data
      ensures r.Ok? <==> 0 <= columnIndex < data.Length
      ensures r.Ok? ==> data[..] == old(data[..])[columnIndex := value]
      ensures r.Err? ==> data[..] == old(data[..])
    {
      if data.Length <= columnIndex || columnIndex < 0 {
        return Err(IndexOutOfBounds(data.Length, columnIndex));
      }
      data[columnIndex] := value;
      return Ok(());
    }

    /** setRawData: a null array fails; otherwise the row adopts the caller's array. */
    method SetRawData(a: array?<Value>) returns (r: Result<()>)
      modifies this
      ensures r.Err? <==> a == null
      ensures r.Err? ==> r.error.NullArgument? && data == old(data)
      ensures r.Ok? ==> data == a
    {
      if a == null {
        return Err(NullArgument("row"));
      }
      data := a;
      return Ok(());
    }

    /**
     * toMap: an empty map for null metadata; otherwise every column name
     * whose position the row covers, mapped to its cell.
     */
    method ToMap(metaData: RowMetaData?) returns (m: map<string, Value>)
      requires metaData != null ==> metaData.Valid()
      ensures metaData == null ==> m == map[]
      ensures metaData != null ==> m == RowMap(metaData.Snapshot(), data[..])
    {
      if metaData == null {
        return map[];
      }
      var s := metaData.Snapshot();
      var names := metaData.columnNames;
      m := map[];
      var i := 0;
      while i < |names|
        invariant 0 <= i <= |names|
        invariant m == NamesMap(s, names[..i], data[..])
      {
        assert names[..i + 1] == names[..i] + [names[i]];
        assert names[i] in s.columnNames;
        var idx := ColumnIndex(s, names[i]);
        if idx.value < data.Length {
          m := m[names[i] := data[idx.value]];
        }
        i := i + 1;
      }
      assert names[..i] == names;
    }
  }
}
