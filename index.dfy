/**
 * CDataCacheIndex and its one implementation CDataCacheNonUniqueIndex: a
 * secondary index on one column, mapping each cell value seen in that column
 * to the rows holding it, in the order the rows were indexed. The buckets
 * hold the container's own row objects.
 */
module CacheIndex {
  import opened Base
  import opened MetaData
  import opened DataRow

  type Buckets = map<Value, seq<Row>>

  /** The bucket of a key; a key never seen has none. */
  function Bucket(b: Buckets, key: Value): seq<Row> {
    if key in b then b[key] else []
  }

  /** Indexing one row: it goes to the end of its value's bucket, which is created on first sight. */
  function Append(b: Buckets, key: Value, row: Row): Buckets
  {
    b[key := Bucket(b, key) + [row]]
  }

  /** Indexing rows one after the other, rows[i] under the value keys[i]. */
  function IndexAll(b: Buckets, keys: seq<Value>, rows: seq<Row>): Buckets
    requires |keys| == |rows|
  {
    if rows == [] then b
    else Append(IndexAll(b, keys[..|keys| - 1], rows[..|rows| - 1]), keys[|keys| - 1], rows[|rows| - 1])
  }

  /** The rows, in order, whose value is v. */
  function Select(keys: seq<Value>, rows: seq<Row>, v: Value): seq<Row>
    requires |keys| == |rows|
  {
    if rows == [] then []
    else Select(keys[..|keys| - 1], rows[..|rows| - 1], v) + (if keys[|keys| - 1] == v then [rows[|rows| - 1]] else [])
  }

  /**
   * What indexing a batch does to the buckets: a value has a bucket iff it
   * had one or occurs in the batch, and its bucket is the old bucket
   * followed by the batch's rows with that value, in order.
   */
  lemma {:induction false} IndexAllSpec(b: Buckets, keys: seq<Value>, rows: seq<Row>, v: Value)
    requires |keys| == |rows|
    ensures v in IndexAll(b, keys, rows) <==> v in b || v in keys
    ensures Bucket(IndexAll(b, keys, rows), v) == Bucket(b, v) + Select(keys, rows, v)
  {
    if rows != [] {
      var n := |rows| - 1;
      assert keys == keys[..n] + [keys[n]] && rows == rows[..n] + [rows[n]];
      IndexAllSpec(b, keys[..n], rows[..n], v);
      IndexAllStep(b, keys[..n], rows[..n], keys[n], rows[n], v);
    }
  }

  /** The inductive step of IndexAllSpec: one more row at the end of the batch. */
  lemma IndexAllStep(b: Buckets, keys: seq<Value>, rows: seq<Row>, k: Value, row: Row, v: Value)
    requires |keys| == |rows|
    requires v in IndexAll(b, keys, rows) <==> v in b || v in keys
    requires Bucket(IndexAll(b, keys, rows), v) == Bucket(b, v) + Select(keys, rows, v)
    ensures v in IndexAll(b, keys + [k], rows + [row]) <==> v in b || v in keys + [k]
    ensures Bucket(IndexAll(b, keys + [k], rows + [row]), v) == Bucket(b, v) + Select(keys + [k], rows + [row], v)
  {
    BatchSnoc(b, keys, rows, k, row, v);
    AppendSpec(IndexAll(b, keys, rows), k, row, v);
  }

  /** IndexAll and Select over a batch with one more row at its end. */
  lemma BatchSnoc(b: Buckets, keys: seq<Value>, rows: seq<Row>, k: Value, row: Row, v: Value)
    requires |keys| == |rows|
    ensures IndexAll(b, keys + [k], rows + [row]) == Append(IndexAll(b, keys, rows), k, row)
    ensures Select(keys + [k], rows + [row], v) == Select(keys, rows, v) + (if k == v then [row] else [])
  {
    assert (keys + [k])[..|keys|] == keys;
    assert (rows + [row])[..|rows|] == rows;
  }

  /** One Append: the key gains a bucket, and only its bucket grows, by the row. */
  lemma AppendSpec(b: Buckets, key: Value, row: Row, v: Value)
    ensures v in Append(b, key, row) <==> v in b || v == key
    ensures Bucket(Append(b, key, row), v) == Bucket(b, v) + (if key == v then [row] else [])
  {
  }

  /** Every indexed row lands in the bucket of its own value. */
  lemma {:induction false} IndexedRowsAreFound(b: Buckets, keys: seq<Value>, rows: seq<Row>, i: nat)
    requires |keys| == |rows| && i < |rows|
    ensures rows[i] in Bucket(IndexAll(b, keys, rows), keys[i])
  {
    IndexAllSpec(b, keys, rows, keys[i]);
    SelectContains(keys, rows, i);
  }

  lemma {:induction false} SelectContains(keys: seq<Value>, rows: seq<Row>, i: nat)
    requires |keys| == |rows| && i < |rows|
    ensures rows[i] in Select(keys, rows, keys[i])
  {
    var n := |rows| - 1;
    if i < n {
      SelectContains(keys[..n], rows[..n], i);
    }
  }

  /** get(Object[]): the buckets of the keys, one after the other, duplicates kept. */
  function Gather(b: Buckets, keys: seq<Value>): seq<Row>
  {
    if keys == [] then [] else Gather(b, keys[..|keys| - 1]) + Bucket(b, keys[|keys| - 1])
  }

  /** A row is gathered iff it is in the bucket of one of the keys. */
  lemma {:induction false} GatherMembers(b: Buckets, keys: seq<Value>, x: Row)
    ensures x in Gather(b, keys) <==> exists i :: 0 <= i < |keys| && x in Bucket(b, keys[i])
  {
    if keys != [] {
      var n := |keys| - 1;
      assert keys == keys[..n] + [keys[n]];
      GatherMembers(b, keys[..n], x);
      GatherMembersStep(b, keys[..n], keys[n], x);
    }
  }

  /** The step of GatherMembers: one more key at the end. */
  lemma GatherMembersStep(b: Buckets, keys: seq<Value>, k: Value, x: Row)
    requires x in Gather(b, keys) <==> exists i :: 0 <= i < |keys| && x in Bucket(b, keys[i])
    ensures x in Gather(b, keys + [k]) <==> exists i :: 0 <= i < |keys + [k]| && x in Bucket(b, (keys + [k])[i])
  {
    var ks := keys + [k];
    assert ks[..|keys|] == keys;
    assert Gather(b, ks) == Gather(b, keys) + Bucket(b, k);
    if x in Gather(b, keys) {
      var i :| 0 <= i < |keys| && x in Bucket(b, keys[i]);
      assert ks[i] == keys[i];
    }
    if exists i :: 0 <= i < |ks| && x in Bucket(b, ks[i]) {
      var i :| 0 <= i < |ks| && x in Bucket(b, ks[i]);
      if i < |keys| {
        assert ks[i] == keys[i];
      }
    }
  }

  /** The bucket lookups of two key lists add up. */
  lemma {:induction false} GatherAppend(b: Buckets, k1: seq<Value>, k2: seq<Value>)
    ensures Gather(b, k1 + k2) == Gather(b, k1) + Gather(b, k2)
  {
    if k2 == [] {
      assert k1 + k2 == k1;
    } else {
      var n := |k2| - 1;
      GatherAppend(b, k1, k2[..n]);
      assert (k1 + k2)[..|k1 + k2| - 1] == k1 + k2[..n];
      assert (k1 + k2)[|k1 + k2| - 1] == k2[n];
    }
  }

  /** Every row of rows is at least c + 1 cells wide. */
  ghost predicate Covers(rows: seq<Row>, c: nat)
    reads rows
  {
    forall i :: 0 <= i < |rows| ==> c < rows[i].data.Length
  }

  /** The cells of column c of the rows. */
  function CellsAt(rows: seq<Row>, c: nat): (r: seq<Value>)
    requires Covers(rows, c)
    reads rows, set r | r in rows :: r.data
    ensures |r| == |rows| && forall i :: 0 <= i < |rows| ==> r[i] == rows[i].data[c]
  {
    if rows == [] then [] else CellsAt(rows[..|rows| - 1], c) + [rows[|rows| - 1].data[c]]
  }

  /** Indexing one more row extends the fold by one Append. */
  lemma IndexStep(b: Buckets, keys: seq<Value>, rows: seq<Row>, v: Value)
    requires |keys| < |rows|
    ensures IndexAll(b, keys + [v], rows[..|keys| + 1]) == Append(IndexAll(b, keys, rows[..|keys|]), v, rows[|keys|])
  {
    var i := |keys|;
    assert rows[..i + 1][..i] == rows[..i];
    assert (keys + [v])[..i] == keys;
  }

  /** Cells read one by one from a prefix of the rows are that prefix's CellsAt. */
  lemma PrefixCells(rs: seq<Row>, i: nat, c: nat, cells: seq<Value>)
    requires i <= |rs| && |cells| == i
    requires forall k :: 0 <= k < i ==> c < rs[k].data.Length
    requires forall k :: 0 <= k < i ==> cells[k] == rs[k].data[c]
    ensures Covers(rs[..i], c) && CellsAt(rs[..i], c) == cells
  {
    var p := rs[..i];
    assert forall k :: 0 <= k < i ==> p[k] == rs[k];
    var cs := CellsAt(p, c);
    assert forall k :: 0 <= k < i ==> cs[k] == cells[k];
  }

  /** Where indexing stops: the first row too short to hold column c, or |rows| when none is. */
  ghost function FirstShort(rows: seq<Row>, c: nat): (k: nat)
    reads rows
    ensures k <= |rows| && Covers(rows[..k], c)
  {
    if rows == [] then 0
    else if c >= rows[0].data.Length then 0
    else
      var k := FirstShort(rows[1..], c);
      assert forall i :: 0 <= i < k ==> rows[1..][..k][i] == rows[..k + 1][i + 1];
      1 + k
  }

  /** Indexing stops short exactly at a row too narrow for the column, and runs through when every row is wide enough. */
  lemma {:induction false} FirstShortCovers(rows: seq<Row>, c: nat)
    ensures FirstShort(rows, c) < |rows| ==> c >= rows[FirstShort(rows, c)].data.Length
    ensures FirstShort(rows, c) == |rows| <==> Covers(rows, c)
  {
    if rows != [] && c < rows[0].data.Length {
      FirstShortCovers(rows[1..], c);
      if Covers(rows, c) {
        assert Covers(rows[1..], c) by {
          forall i | 0 <= i < |rows| - 1 ensures c < rows[1..][i].data.Length {
            assert rows[1..][i] == rows[i + 1];
          }
        }
      }
    }
  }

  /** The stopping point is the first short row after a covered prefix. */
  lemma {:induction false} FirstShortAt(rows: seq<Row>, c: nat, i: nat)
    requires i <= |rows| && Covers(rows[..i], c)
    requires i < |rows| ==> c >= rows[i].data.Length
    ensures FirstShort(rows, c) == i
  {
    if i > 0 {
      assert rows[0] == rows[..i][0];
      assert rows[1..][..i - 1] == rows[..i][1..];
      FirstShortAt(rows[1..], c, i - 1);
    }
  }

  /**
   * The loop of index over a bucket map: each row's cell is read and the row
   * appended to that cell's bucket, until a row too short for the column
   * stops it with the failure.
   */
  method IndexRows(start: Buckets, rs: seq<Row>, c: nat) returns (b: Buckets, failure: Option<Error>, ghost k: nat)
    ensures k == FirstShort(rs, c)
    ensures failure.None? <==> k == |rs|
    ensures b == IndexAll(start, CellsAt(rs[..k], c), rs[..k])
    ensures failure.Some? ==> failure.value == IndexOutOfBounds(rs[k].data.Length, c)
  {
    b := start;
    ghost var cells: seq<Value> := [];
    var i := 0;
    while i < |rs|
      invariant 0 <= i <= |rs| && |cells| == i
      invariant forall k :: 0 <= k < i ==> c < rs[k].data.Length
      invariant forall k :: 0 <= k < i ==> cells[k] == rs[k].data[c]
      invariant b == IndexAll(start, cells, rs[..i])
    {
      var v := rs[i].GetValue(c);
      if v.Err? {
        PrefixCells(rs, i, c, cells);
        FirstShortAt(rs, c, i);
        return b, Some(v.error), i;
      }
      IndexStep(start, cells, rs, v.value);
      b := Append(b, v.value, rs[i]);
      cells := cells + [v.value];
      i := i + 1;
    }
    PrefixCells(rs, i, c, cells);
    FirstShortAt(rs, c, i);
    return b, None, i;
  }

  /**
   * A non-unique index on columnName (at position columnIndex): cell value
   * -> rows with that value, plus the count of rows indexed.
   */
  class NonUniqueIndex {
    const columnName: string
    const columnIndex: nat
    var buckets: Buckets
    var numElements: int

    constructor Init(name: string, index: nat)
      ensures columnName == name && columnIndex == index && buckets == map[] && numElements == 0
    {
      columnName := name;
      columnIndex := index;
      buckets := map[];
      numElements := 0;
    }

    /** The CDataCacheIndex constructor: a null column name or a negative index fails. */
    static method Create(name: Option<string>, index: int) returns (r: Result<NonUniqueIndex>)
      ensures r.Err? <==> name.None? || index < 0
      ensures r.Ok? ==> (fresh(r.value) && r.value.columnName == name.value && r.value.columnIndex == index &&
        r.value.buckets == map[] && r.value.numElements == 0)
    {
      if name.None? {
        return Err(NullArgument("Indexed column name cannot be null."));
      }
      if index < 0 {
        return Err(IllegalArgument("Indexed column index must be a valid index number (>0)."));
      }
      var x := new NonUniqueIndex.Init(name.value, index);
      return Ok(x);
    }

    function ColumnName(): (n: string) ensures n == columnName { columnName }
    function ColumnIndex(): (i: nat) ensures i == columnIndex { columnIndex }

    /** contains: the key has a bucket. */
    function Contains(key: Value): (b: bool)
      reads this
      ensures b <==> key in buckets
    {
      key in buckets
    }

    /** get(Object): null or a key without a bucket gives no rows, otherwise the bucket in order. */
    function Get(key: Value): (rs: seq<Row>)
      reads this
      ensures key == Null ==> rs == []
      ensures key != Null ==> rs == Bucket(buckets, key)
    {
      if key == Null then [] else Bucket(buckets, key)
    }

    /** get(Object[]): null or no keys give nothing, otherwise the concatenated buckets. */
    method GetMany(keys: Option<seq<Value>>) returns (rs: seq<Row>)
      ensures keys.None? ==> rs == []
      ensures keys.Some? ==> rs == Gather(buckets, keys.value)
    {
      if keys.None? || |keys.value| < 1 {
        return [];
      }
      var ks := keys.value;
      var all: seq<Row> := [];
      var i := 0;
      while i < |ks|
        invariant 0 <= i <= |ks|
        invariant all == Gather(buckets, ks[..i])
      {
        assert ks[..i + 1][..i] == ks[..i];
        if ks[i] in buckets {
          all := all + buckets[ks[i]];
        }
        i := i + 1;
      }
      assert ks[..i] == ks;
      return all;
    }

    /**
     * index: null or no rows change nothing. Otherwise each row in turn is
     * appended to the bucket of its cell; a row too short for the column
     * fails, leaving the rows before it indexed and the count unchanged;
     * when all succeed the count grows by the number of rows.
     */
    method Index(rows: Option<seq<Row>>) returns (r: Result<()>)
      modifies this
      ensures rows.None? || rows.value == [] ==> r.Ok? && buckets == old(buckets) && numElements == old(numElements)
      ensures rows.Some? ==> (
        var rs := rows.value;
        var k := old(FirstShort(rs, columnIndex));
        (r.Ok? <==> k == |rs|) &&
        buckets == IndexAll(old(buckets), old(CellsAt(rs[..k], columnIndex)), rs[..k]) &&
        numElements == old(numElements) + (if r.Ok? then |rs| else 0))
    {
      if rows.None? || |rows.value| < 1 {
        assert rows.Some? ==> rows.value[..0] == [];
        return Ok(());
      }
      var rs := rows.value;
      var b, failure, k := IndexRows(buckets, rs, columnIndex);
      assert k == old(FirstShort(rs, columnIndex)) && b == IndexAll(old(buckets), old(CellsAt(rs[..k], columnIndex)), rs[..k]);
      buckets := b;
      if failure.Some? {
        return Err(failure.value);
      }
      numElements := numElements + |rs|;
      return Ok(());
    }

    /** update: a full rebuild; what is left depends only on the new rows. */
    method Update(rows: Option<seq<Row>>) returns (r: Result<()>)
      modifies this
      ensures rows.None? || rows.value == [] ==> r.Ok? && buckets == map[] && numElements == 0
      ensures rows.Some? ==> (
        var rs := rows.value;
        var k := old(FirstShort(rs, columnIndex));
        (r.Ok? <==> k == |rs|) &&
        buckets == IndexAll(map[], old(CellsAt(rs[..k], columnIndex)), rs[..k]) &&
        numElements == (if r.Ok? then |rs| else 0))
    {
      buckets := map[];
      numElements := 0;
      if rows.Some? {
        ghost var k := FirstShort(rows.value, columnIndex);
        assert k == old(FirstShort(rows.value, columnIndex));
        assert CellsAt(rows.value[..k], columnIndex) == old(CellsAt(rows.value[..k], columnIndex));
      }
      r := Index(rows);
    }
  }

  /** get(null) gives nothing, but a null inside get(Object[]) finds the rows whose cell is null. */
  lemma NullKeyAsymmetry(x: NonUniqueIndex)
    ensures x.Get(Null) == []
    ensures Gather(x.buckets, [Null]) == Bucket(x.buckets, Null)
  {
    assert [Null][..0] == [];
  }
}
