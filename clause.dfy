/**
 * The filter clause of net/casper/data/model/filters/CDataFilterClause.java:
 * a list of filters ANDed together, plus a one-shot planner that promotes a
 * primary-key equality filter and remembers equality filters on indexed
 * columns, so that match can start from a primary-key or an index lookup
 * instead of a full scan.
 *
 * The container the clause calls back is given as a Lookup value: the
 * container's key -> row map and the buckets of its registered indexes.
 */
module FilterClause {
  import opened Base
  import opened MetaData
  import opened DataRow
  import opened Filters
  import opened CacheIndex

  /** What the clause may ask the container: primary-key hits and index buckets by column name. */
  datatype Lookup = Lookup(store: map<Value, Row>, indexes: map<string, Buckets>)

  /**
   * getPrimaryKeyMatches: the stored rows for the non-null keys, in the
   * order of the keys, with misses dropped.
   */
  function PkMatches(store: map<Value, Row>, keys: seq<Value>): (r: seq<Row>)
    ensures |r| <= |keys|
    ensures forall i :: 0 <= i < |r| ==> r[i] in store.Values
    ensures forall k :: 0 <= k < |keys| && keys[k] != Null && keys[k] in store ==> store[keys[k]] in r
  {
    if keys == [] then []
    else
      var n := |keys| - 1;
      var prefix := PkMatches(store, keys[..n]);
      assert forall i :: 0 <= i < n ==> keys[..n][i] == keys[i];
      if keys[n] != Null && keys[n] in store then prefix + [store[keys[n]]] else prefix
  }

  /** Hits keep the order of their keys: the hits of a + b are the hits of a, then those of b. */
  lemma {:induction false} PkMatchesAppend(store: map<Value, Row>, a: seq<Value>, b: seq<Value>)
    ensures PkMatches(store, a + b) == PkMatches(store, a) + PkMatches(store, b)
    decreases |b|
  {
    if b == [] {
      assert a + b == a;
    } else {
      var n := |b| - 1;
      assert (a + b)[..|a| + n] == a + b[..n];
      assert (a + b)[|a| + n] == b[n];
      PkMatchesAppend(store, a, b[..n]);
    }
  }

  /** An equality filter on the given column. */
  predicate EqualsOn(f: Filter, column: string) {
    f.kind.EqualsKind? && f.columnName == column
  }

  /** The position of the first equality filter on the column, or the length when there is none. */
  function PkPosition(fs: seq<Filter>, column: string): (p: nat)
    ensures p <= |fs|
    ensures forall j :: 0 <= j < p ==> !EqualsOn(fs[j], column)
    ensures p < |fs| ==> EqualsOn(fs[p], column)
  {
    if fs == [] then 0
    else if EqualsOn(fs[0], column) then 0
    else 1 + PkPosition(fs[1..], column)
  }

  /** Whether the list holds an equality filter at all. */
  predicate HasEquals(fs: seq<Filter>) {
    exists j :: 0 <= j < |fs| && fs[j].kind.EqualsKind?
  }

  /** The indexed equality filters by column name, and the order in which the columns were first put. */
  datatype Recorded = Recorded(filters: map<string, Filter>, order: seq<string>)

  /** Whether a record is consistent: its order lists its columns, each once. */
  ghost predicate RecordedOk(rec: Recorded) {
    (forall c :: c in rec.filters <==> c in rec.order) &&
    (forall i, j :: 0 <= i < j < |rec.order| ==> rec.order[i] != rec.order[j])
  }

  /** One step of the index loop: an equality filter on an indexed column is put under its column name. */
  function Note(rec: Recorded, f: Filter, indexes: map<string, Buckets>): Recorded {
    if f.kind.EqualsKind? && f.columnName in indexes then
      Recorded(rec.filters[f.columnName := f],
               if f.columnName in rec.filters then rec.order else rec.order + [f.columnName])
    else rec
  }

  /** The index loop over a whole list, from a starting record. */
  function NoteAll(rec: Recorded, fs: seq<Filter>, indexes: map<string, Buckets>): Recorded
  {
    if fs == [] then rec else Note(NoteAll(rec, fs[..|fs| - 1], indexes), fs[|fs| - 1], indexes)
  }

  /** An indexed equality filter on column c. */
  predicate IndexedOn(f: Filter, c: string, indexes: map<string, Buckets>) {
    EqualsOn(f, c) && c in indexes
  }

  /**
   * What the index loop records: a column is recorded iff it was already or
   * an indexed equality filter on it is in the list; the recorded filter is the
   * last such filter; the order stays consistent.
   */
  lemma {:induction false} NoteAllSpec(rec: Recorded, fs: seq<Filter>, indexes: map<string, Buckets>, c: string)
    requires RecordedOk(rec)
    ensures var out := NoteAll(rec, fs, indexes);
      RecordedOk(out) &&
      (c in out.filters <==> c in rec.filters || exists j :: 0 <= j < |fs| && IndexedOn(fs[j], c, indexes)) &&
      (forall j :: (0 <= j < |fs| && IndexedOn(fs[j], c, indexes) &&
                    (forall k :: j < k < |fs| ==> !IndexedOn(fs[k], c, indexes))) ==> out.filters[c] == fs[j]) &&
      ((forall j :: 0 <= j < |fs| ==> !IndexedOn(fs[j], c, indexes)) ==> c !in out.filters || out.filters[c] == rec.filters[c])
  {
    if fs != [] {
      var n := |fs| - 1;
      var pre := fs[..n];
      assert fs == pre + [fs[n]];
      NoteAllSpec(rec, pre, indexes, c);
      NoteAllSpecStep(rec, pre, fs[n], indexes, c);
    }
    NoteAllOrder(rec, fs, indexes);
  }

  /** What one step of the index loop does to column c. */
  lemma NoteOn(rec: Recorded, f: Filter, indexes: map<string, Buckets>, c: string)
    ensures var out := Note(rec, f, indexes);
      (IndexedOn(f, c, indexes) ==> c in out.filters && out.filters[c] == f) &&
      (!IndexedOn(f, c, indexes) ==> (c in out.filters <==> c in rec.filters) &&
                                      (c in rec.filters ==> out.filters[c] == rec.filters[c]))
  {
  }

  /** The column-c part of NoteAllSpec for pre + [f], given it for pre. */
  lemma NoteAllSpecStep(rec: Recorded, pre: seq<Filter>, f: Filter, indexes: map<string, Buckets>, c: string)
    requires var mid := NoteAll(rec, pre, indexes);
      (c in mid.filters <==> c in rec.filters || exists j :: 0 <= j < |pre| && IndexedOn(pre[j], c, indexes)) &&
      (forall j :: (0 <= j < |pre| && IndexedOn(pre[j], c, indexes) &&
                    (forall k :: j < k < |pre| ==> !IndexedOn(pre[k], c, indexes))) ==> mid.filters[c] == pre[j]) &&
      ((forall j :: 0 <= j < |pre| ==> !IndexedOn(pre[j], c, indexes)) ==> c !in mid.filters || mid.filters[c] == rec.filters[c])
    ensures var fs := pre + [f]; var out := NoteAll(rec, fs, indexes);
      (c in out.filters <==> c in rec.filters || exists j :: 0 <= j < |fs| && IndexedOn(fs[j], c, indexes)) &&
      (forall j :: (0 <= j < |fs| && IndexedOn(fs[j], c, indexes) &&
                    (forall k :: j < k < |fs| ==> !IndexedOn(fs[k], c, indexes))) ==> out.filters[c] == fs[j]) &&
      ((forall j :: 0 <= j < |fs| ==> !IndexedOn(fs[j], c, indexes)) ==> c !in out.filters || out.filters[c] == rec.filters[c])
  {
    var fs := pre + [f];
    var n := |pre|;
    assert fs[..n] == pre;
    var mid := NoteAll(rec, pre, indexes);
    assert NoteAll(rec, fs, indexes) == Note(mid, f, indexes);
    NoteOn(mid, f, indexes, c);
    assert forall j :: 0 <= j < n ==> pre[j] == fs[j];
    if exists j :: 0 <= j < |fs| && IndexedOn(fs[j], c, indexes) {
      var j :| 0 <= j < |fs| && IndexedOn(fs[j], c, indexes);
      if j < n { assert IndexedOn(pre[j], c, indexes); }
    }
  }

  lemma {:induction false} NoteAllOrder(rec: Recorded, fs: seq<Filter>, indexes: map<string, Buckets>)
    requires RecordedOk(rec)
    ensures RecordedOk(NoteAll(rec, fs, indexes))
  {
    if fs != [] {
      var n := |fs| - 1;
      NoteAllOrder(rec, fs[..n], indexes);
    }
  }

  /**
   * The first recorded column is the column of the first indexed equality
   * filter in the list, when nothing was recorded before.
   */
  lemma {:induction false} FirstRecordedIsFirstIndexed(fs: seq<Filter>, indexes: map<string, Buckets>, j: nat)
    requires j < |fs| && fs[j].kind.EqualsKind? && fs[j].columnName in indexes
    requires forall k :: 0 <= k < j ==> !(fs[k].kind.EqualsKind? && fs[k].columnName in indexes)
    ensures var out := NoteAll(Recorded(map[], []), fs, indexes);
      |out.order| > 0 && out.order[0] == fs[j].columnName
  {
    var n := |fs| - 1;
    if n == j {
      NoEarlierNotes(fs[..n], indexes);
    } else {
      FirstRecordedIsFirstIndexed(fs[..n], indexes, j);
      var mid := NoteAll(Recorded(map[], []), fs[..n], indexes);
      assert |mid.order| > 0;
    }
  }

  /** With no indexed equality filter in the list, nothing is recorded. */
  lemma {:induction false} NoEarlierNotes(fs: seq<Filter>, indexes: map<string, Buckets>)
    requires forall k :: 0 <= k < |fs| ==> !(fs[k].kind.EqualsKind? && fs[k].columnName in indexes)
    ensures NoteAll(Recorded(map[], []), fs, indexes) == Recorded(map[], [])
  {
    if fs != [] {
      NoEarlierNotes(fs[..|fs| - 1], indexes);
    }
  }

  /** What planning leaves: its outcome, the filter list, the promoted filter and the record. */
  datatype Planning = Planning(result: Result<()>, list: seq<Filter>, promoted: Filter?, rec: Recorded)

  /** The primary-key array the planner reads: none without a meta definition. */
  function PkColumnsOf(m: RowMetaData?): Option<seq<string>>
    reads m
  {
    if m == null then None else m.primaryKeyColumns
  }

  /**
   * optimizeOrder on the clause's fields: nothing once a filter is promoted;
   * a missing key array fails; an empty list is left alone; with no key
   * column an equality filter fails on pkColumns[0]; otherwise the first
   * equality filter on the single key column is promoted and the rest of the
   * list is recorded against the indexes.
   */
  function PlanOf(promoted: Filter?, pkColumns: Option<seq<string>>, fs: seq<Filter>, rec: Recorded,
                  indexes: map<string, Buckets>): Planning
  {
    if promoted != null then Planning(Ok(()), fs, promoted, rec)
    else if pkColumns.None? then Planning(Err(NullPointer), fs, null, rec)
    else if |fs| == 0 then Planning(Ok(()), fs, null, rec)
    else if |pkColumns.value| == 0 && HasEquals(fs) then Planning(Err(IndexOutOfBounds(0, 0)), fs, null, rec)
    else
      var p := if |pkColumns.value| == 1 then PkPosition(fs, pkColumns.value[0]) else |fs|;
      var rest := if p < |fs| then fs[..p] + fs[p + 1..] else fs;
      Planning(Ok(()), rest, if p < |fs| then fs[p] else null, NoteAll(rec, rest, indexes))
  }

  /** Planning fails iff nothing is promoted yet and the key array is missing, or empty while an equality filter is listed. */
  lemma PlanOfFails(promoted: Filter?, pkColumns: Option<seq<string>>, fs: seq<Filter>, rec: Recorded,
                    indexes: map<string, Buckets>)
    ensures PlanOf(promoted, pkColumns, fs, rec, indexes).result.Err? <==>
      promoted == null && (pkColumns.None? || (|pkColumns.value| == 0 && HasEquals(fs)))
  {
  }

  /**
   * Planning moves at most one filter out of the list, and only into the
   * promoted slot: the filters, promoted one included, are the same.
   */
  lemma PlanOfKeepsFilters(promoted: Filter?, pkColumns: Option<seq<string>>, fs: seq<Filter>, rec: Recorded,
                           indexes: map<string, Buckets>)
    ensures var p := PlanOf(promoted, pkColumns, fs, rec, indexes);
      multiset(p.list) + (if p.promoted != null && promoted == null then multiset{p.promoted} else multiset{}) == multiset(fs) &&
      (promoted != null ==> p.promoted == promoted)
  {
    var p := PlanOf(promoted, pkColumns, fs, rec, indexes);
    if promoted == null && pkColumns.Some? && |fs| > 0 && !(|pkColumns.value| == 0 && HasEquals(fs)) {
      var k := if |pkColumns.value| == 1 then PkPosition(fs, pkColumns.value[0]) else |fs|;
      if k < |fs| {
        assert p.list == fs[..k] + fs[k + 1..] && p.promoted == fs[k];
        RemoveAtMultiset(fs, k);
      }
    }
  }

  /** Taking one element out of a list and adding it back gives the same multiset. */
  lemma RemoveAtMultiset<T>(s: seq<T>, k: nat)
    requires k < |s|
    ensures multiset(s[..k] + s[k + 1..]) + multiset{s[k]} == multiset(s)
  {
    assert s == s[..k] + [s[k]] + s[k + 1..];
  }

  /**
   * With a single key column, the promoted filter is the first equality
   * filter on it, and no equality filter on it comes before in the list.
   */
  lemma PlanOfPromotesFirst(pkColumn: string, fs: seq<Filter>, rec: Recorded, indexes: map<string, Buckets>)
    ensures var p := PlanOf(null, Some([pkColumn]), fs, rec, indexes);
      (p.promoted != null <==> exists j :: 0 <= j < |fs| && EqualsOn(fs[j], pkColumn)) &&
      (p.promoted != null ==> var k := PkPosition(fs, pkColumn);
        p.promoted == fs[k] && EqualsOn(fs[k], pkColumn) && forall j :: 0 <= j < k ==> !EqualsOn(fs[j], pkColumn))
  {
  }

  // ---------------------------------------------------------------------
  // The AND scan of match, on values.

  /** A filter as the scan sees it when match starts. */
  datatype Probe = Probe(kind: FilterKind, columnIndex: int, columnName: string)

  /** The filters' probes. */
  function Probes(fs: seq<Filter>): (ps: seq<Probe>)
    reads fs
    ensures |ps| == |fs|
    ensures forall j :: 0 <= j < |fs| ==> ps[j] == Probe(fs[j].kind, fs[j].columnIndex, fs[j].columnName)
  {
    if fs == [] then [] else Probes(fs[..|fs| - 1]) + [Probe(fs[|fs| - 1].kind, fs[|fs| - 1].columnIndex, fs[|fs| - 1].columnName)]
  }

  /** One row against the filters in order: the first false stops, the first failure propagates. */
  function RowPasses(ps: seq<Probe>, meta: Option<Schema>, cells: seq<Value>): Result<bool>
  {
    if ps == [] then Ok(true)
    else
      match Matches(ps[0].kind, ps[0].columnIndex, meta, ps[0].columnName, cells)
      case Err(e) => Err(e)
      case Ok(b) => if !b then Ok(false) else RowPasses(ps[1..], meta, cells)
  }

  /** A row passes iff every filter matches it. */
  lemma {:induction false} RowPassesAll(ps: seq<Probe>, meta: Option<Schema>, cells: seq<Value>)
    ensures RowPasses(ps, meta, cells) == Ok(true) <==>
      forall j :: 0 <= j < |ps| ==> Matches(ps[j].kind, ps[j].columnIndex, meta, ps[j].columnName, cells) == Ok(true)
  {
    if ps != [] {
      RowPassesAll(ps[1..], meta, cells);
      assert forall j :: 1 <= j < |ps| ==> ps[1..][j - 1] == ps[j];
    }
  }

  /** A row fails only through a filter that fails on it, every filter before it matching. */
  lemma {:induction false} RowFailsAt(ps: seq<Probe>, meta: Option<Schema>, cells: seq<Value>)
    requires RowPasses(ps, meta, cells).Err?
    ensures exists j :: (0 <= j < |ps| &&
      Matches(ps[j].kind, ps[j].columnIndex, meta, ps[j].columnName, cells) == Err(RowPasses(ps, meta, cells).error) &&
      forall k :: 0 <= k < j ==> Matches(ps[k].kind, ps[k].columnIndex, meta, ps[k].columnName, cells) == Ok(true))
  {
    var m := Matches(ps[0].kind, ps[0].columnIndex, meta, ps[0].columnName, cells);
    if m.Ok? {
      RowFailsAt(ps[1..], meta, cells);
      var j :| 0 <= j < |ps[1..]| &&
        Matches(ps[1..][j].kind, ps[1..][j].columnIndex, meta, ps[1..][j].columnName, cells) == Err(RowPasses(ps[1..], meta, cells).error) &&
        forall k :: 0 <= k < j ==> Matches(ps[1..][k].kind, ps[1..][k].columnIndex, meta, ps[1..][k].columnName, cells) == Ok(true);
      assert forall k :: 1 <= k <= j + 1 ==> ps[1..][k - 1] == ps[k];
      assert Matches(ps[j + 1].kind, ps[j + 1].columnIndex, meta, ps[j + 1].columnName, cells) == Err(RowPasses(ps, meta, cells).error);
    }
  }

  /** The scan over all candidate rows: the rows that pass, in order, or the first failure. */
  function Scan(rows: seq<Row>, cells: seq<seq<Value>>, ps: seq<Probe>, meta: Option<Schema>): (r: Result<seq<Row>>)
    requires |cells| == |rows|
    ensures r.Ok? ==> |r.value| <= |rows|
  {
    if rows == [] then Ok([])
    else
      var n := |rows| - 1;
      match Scan(rows[..n], cells[..n], ps, meta)
      case Err(e) => Err(e)
      case Ok(acc) =>
        match RowPasses(ps, meta, cells[n])
        case Err(e) => Err(e)
        case Ok(b) => Ok(if b then acc + [rows[n]] else acc)
  }

  /** The scan fails iff some candidate row makes a filter fail. */
  lemma {:induction false} ScanOk(rows: seq<Row>, cells: seq<seq<Value>>, ps: seq<Probe>, meta: Option<Schema>)
    requires |cells| == |rows|
    ensures Scan(rows, cells, ps, meta).Ok? <==> forall i :: 0 <= i < |rows| ==> RowPasses(ps, meta, cells[i]).Ok?
  {
    if rows != [] {
      var n := |rows| - 1;
      var pr, pc := rows[..n], cells[..n];
      ScanOk(pr, pc, ps, meta);
      var prev := Scan(pr, pc, ps, meta);
      var here := RowPasses(ps, meta, cells[n]);
      assert Scan(rows, cells, ps, meta).Ok? <==> prev.Ok? && here.Ok?;
      assert forall i :: 0 <= i < n ==> pc[i] == cells[i];
    }
  }

  /** A successful scan keeps exactly the candidates that pass every filter. */
  lemma {:induction false} ScanMembers(rows: seq<Row>, cells: seq<seq<Value>>, ps: seq<Probe>, meta: Option<Schema>, x: Row)
    requires |cells| == |rows|
    requires Scan(rows, cells, ps, meta).Ok?
    ensures x in Scan(rows, cells, ps, meta).value <==>
      exists i :: 0 <= i < |rows| && rows[i] == x && RowPasses(ps, meta, cells[i]) == Ok(true)
  {
    if rows != [] {
      var n := |rows| - 1;
      assert Scan(rows[..n], cells[..n], ps, meta).Ok?;
      ScanMembers(rows[..n], cells[..n], ps, meta, x);
      ScanMembersStep(rows, cells, ps, meta, x);
    }
  }

  /** The inductive step of ScanMembers, one direction at a time. */
  lemma ScanMembersStep(rows: seq<Row>, cells: seq<seq<Value>>, ps: seq<Probe>, meta: Option<Schema>, x: Row)
    requires |cells| == |rows| > 0
    requires Scan(rows, cells, ps, meta).Ok?
    requires var n := |rows| - 1;
      Scan(rows[..n], cells[..n], ps, meta).Ok? &&
      (x in Scan(rows[..n], cells[..n], ps, meta).value <==>
        exists i :: 0 <= i < n && rows[..n][i] == x && RowPasses(ps, meta, cells[..n][i]) == Ok(true))
    ensures x in Scan(rows, cells, ps, meta).value <==>
      exists i :: 0 <= i < |rows| && rows[i] == x && RowPasses(ps, meta, cells[i]) == Ok(true)
  {
    var n := |rows| - 1;
    var here := RowPasses(ps, meta, cells[n]);
    assert here.Ok?;
    var prev := Scan(rows[..n], cells[..n], ps, meta).value;
    assert Scan(rows, cells, ps, meta).value == if here.value then prev + [rows[n]] else prev;
    if x in prev {
      ScanKeptBefore(rows, cells, ps, meta, x);
    } else {
      ScanNotKeptBefore(rows, cells, ps, meta, x);
    }
  }

  lemma ScanKeptBefore(rows: seq<Row>, cells: seq<seq<Value>>, ps: seq<Probe>, meta: Option<Schema>, x: Row)
    requires |cells| == |rows| > 0
    requires var n := |rows| - 1;
      Scan(rows[..n], cells[..n], ps, meta).Ok? && x in Scan(rows[..n], cells[..n], ps, meta).value &&
      (x in Scan(rows[..n], cells[..n], ps, meta).value ==>
        exists i :: 0 <= i < n && rows[..n][i] == x && RowPasses(ps, meta, cells[..n][i]) == Ok(true))
    ensures exists i :: 0 <= i < |rows| && rows[i] == x && RowPasses(ps, meta, cells[i]) == Ok(true)
  {
    var n := |rows| - 1;
    var i :| 0 <= i < n && rows[..n][i] == x && RowPasses(ps, meta, cells[..n][i]) == Ok(true);
    assert rows[i] == x && cells[i] == cells[..n][i];
  }

  lemma ScanNotKeptBefore(rows: seq<Row>, cells: seq<seq<Value>>, ps: seq<Probe>, meta: Option<Schema>, x: Row)
    requires |cells| == |rows| > 0
    requires var n := |rows| - 1;
      Scan(rows[..n], cells[..n], ps, meta).Ok? && x !in Scan(rows[..n], cells[..n], ps, meta).value &&
      ((exists i :: 0 <= i < n && rows[..n][i] == x && RowPasses(ps, meta, cells[..n][i]) == Ok(true)) ==>
        x in Scan(rows[..n], cells[..n], ps, meta).value)
    ensures (exists i :: 0 <= i < |rows| && rows[i] == x && RowPasses(ps, meta, cells[i]) == Ok(true)) <==>
      rows[|rows| - 1] == x && RowPasses(ps, meta, cells[|rows| - 1]) == Ok(true)
  {
    var n := |rows| - 1;
    assert forall i :: 0 <= i < n ==> rows[..n][i] == rows[i] && cells[..n][i] == cells[i];
    if exists i :: 0 <= i < |rows| && rows[i] == x && RowPasses(ps, meta, cells[i]) == Ok(true) {
      var i :| 0 <= i < |rows| && rows[i] == x && RowPasses(ps, meta, cells[i]) == Ok(true);
      assert i == n;
    }
  }

  /** One more candidate row: the scan of the longer prefix from the shorter one. */
  lemma ScanStep(rows: seq<Row>, cells: seq<seq<Value>>, ps: seq<Probe>, meta: Option<Schema>, i: nat)
    requires |cells| == |rows| && i < |rows|
    requires Scan(rows[..i], cells[..i], ps, meta).Ok?
    ensures var acc := Scan(rows[..i], cells[..i], ps, meta).value;
      var b := RowPasses(ps, meta, cells[i]);
      Scan(rows[..i + 1], cells[..i + 1], ps, meta) ==
        (if b.Err? then Err(b.error) else Ok(if b.value then acc + [rows[i]] else acc))
  {
    assert rows[..i + 1][..i] == rows[..i];
    assert cells[..i + 1][..i] == cells[..i];
  }

  /** A failure on a prefix is the failure of the whole scan. */
  lemma {:induction false} ScanErrSticks(rows: seq<Row>, cells: seq<seq<Value>>, ps: seq<Probe>, meta: Option<Schema>, k: nat)
    requires |cells| == |rows| && k <= |rows|
    requires Scan(rows[..k], cells[..k], ps, meta).Err?
    ensures Scan(rows, cells, ps, meta) == Scan(rows[..k], cells[..k], ps, meta)
  {
    if k < |rows| {
      var n := |rows| - 1;
      assert rows[..n][..k] == rows[..k] && cells[..n][..k] == cells[..k];
      ScanErrSticks(rows[..n], cells[..n], ps, meta, k);
    } else {
      assert rows[..k] == rows && cells[..k] == cells;
    }
  }

  /** With no filters, the scan keeps every candidate. */
  lemma {:induction false} ScanNoFilters(rows: seq<Row>, cells: seq<seq<Value>>, meta: Option<Schema>)
    requires |cells| == |rows|
    ensures Scan(rows, cells, [], meta) == Ok(rows)
  {
    if rows != [] {
      var n := |rows| - 1;
      ScanNoFilters(rows[..n], cells[..n], meta);
      assert rows[..n] + [rows[n]] == rows;
    }
  }

  /** The cells of each row. */
  function RowCells(rows: seq<Row>): (r: seq<seq<Value>>)
    reads rows, set x | x in rows :: x.data
    ensures |r| == |rows|
    ensures forall i :: 0 <= i < |rows| ==> r[i] == rows[i].data[..]
  {
    if rows == [] then [] else RowCells(rows[..|rows| - 1]) + [rows[|rows| - 1].data[..]]
  }

  /**
   * Each live filter still decides what its probe decided: its index is the
   * one match started with or the one resolution stored.
   */
  ghost predicate Settled(fs: seq<Filter>, ps: seq<Probe>, meta: Option<Schema>)
    reads fs
  {
    |fs| == |ps| &&
    (forall j, k :: 0 <= j < |fs| && 0 <= k < |fs| && fs[j] == fs[k] ==> ps[j] == ps[k]) &&
    forall j :: 0 <= j < |fs| ==>
      fs[j].kind == ps[j].kind && fs[j].columnName == ps[j].columnName &&
      (fs[j].columnIndex == ps[j].columnIndex ||
       fs[j].columnIndex == IndexAfter(ps[j].kind, ps[j].columnIndex, meta, ps[j].columnName))
  }

  /** A resolved index decides like the unresolved one, and resolving it again keeps it. */
  lemma ResolveAgain(kind: FilterKind, columnIndex: int, meta: Option<Schema>, name: string, cells: seq<Value>)
    ensures var i := IndexAfter(kind, columnIndex, meta, name);
      Matches(kind, i, meta, name, cells) == Matches(kind, columnIndex, meta, name, cells) &&
      IndexAfter(kind, i, meta, name) == i
  {
    if EffectiveIndex(kind, columnIndex, meta, name).Ok? {
      ResolutionIdempotent(kind, columnIndex, meta, name, cells);
    }
  }
  /** qs is ps with some column indexes resolved the way doesMatch resolves them. */
  predicate ResolvedFrom(ps: seq<Probe>, qs: seq<Probe>, meta: Option<Schema>) {
    |ps| == |qs| &&
    forall j :: 0 <= j < |ps| ==>
      qs[j].kind == ps[j].kind && qs[j].columnName == ps[j].columnName &&
      (qs[j].columnIndex == ps[j].columnIndex || qs[j].columnIndex == IndexAfter(ps[j].kind, ps[j].columnIndex, meta, ps[j].columnName))
  }

  /** Resolved probes decide a row exactly as the unresolved ones do. */
  lemma {:induction false} RowPassesResolved(ps: seq<Probe>, qs: seq<Probe>, meta: Option<Schema>, cells: seq<Value>)
    requires ResolvedFrom(ps, qs, meta)
    ensures RowPasses(qs, meta, cells) == RowPasses(ps, meta, cells)
  {
    if ps != [] {
      ResolveAgain(ps[0].kind, ps[0].columnIndex, meta, ps[0].columnName, cells);
      assert ResolvedFrom(ps[1..], qs[1..], meta) by {
        assert forall j :: 0 <= j < |ps| - 1 ==> ps[1..][j] == ps[j + 1] && qs[1..][j] == qs[j + 1];
      }
      RowPassesResolved(ps[1..], qs[1..], meta, cells);
    }
  }

  /** Resolved probes select the same rows. */
  lemma {:induction false} ScanResolved(rows: seq<Row>, cells: seq<seq<Value>>, ps: seq<Probe>, qs: seq<Probe>, meta: Option<Schema>)
    requires |cells| == |rows| && ResolvedFrom(ps, qs, meta)
    ensures Scan(rows, cells, qs, meta) == Scan(rows, cells, ps, meta)
  {
    if rows != [] {
      var n := |rows| - 1;
      ScanResolved(rows[..n], cells[..n], ps, qs, meta);
      RowPassesResolved(ps, qs, meta, cells[n]);
    }
  }

  /** After match has run, the filters' own fields still give the scan's answer. */
  lemma SettledScan(fs: seq<Filter>, ps: seq<Probe>, meta: Option<Schema>, rows: seq<Row>, cells: seq<seq<Value>>)
    requires Settled(fs, ps, meta) && |cells| == |rows|
    ensures Scan(rows, cells, Probes(fs), meta) == Scan(rows, cells, ps, meta)
  {
    ScanResolved(rows, cells, ps, Probes(fs), meta);
  }


  /**
   * The candidate rows of match: primary-key hits for a promoted filter,
   * else the index buckets of the first recorded indexed filter, else all rows.
   * The promoted or indexed filter's negation is not consulted.
   */
  function Candidates(pk: Option<FilterKind>, rec: Recorded, container: Option<Lookup>, rows: seq<Row>): Result<seq<Row>>
  {
    if pk.Some? then
      if !pk.value.EqualsKind? then Err(ClassCast)
      else if container.None? then Err(NullPointer)
      else Ok(PkMatches(container.value.store, pk.value.matchValues))
    else if |rec.order| > 0 && rec.order[0] in rec.filters then
      var f := rec.filters[rec.order[0]];
      if container.None? || f.columnName !in container.value.indexes || !f.kind.EqualsKind? then Err(NullPointer)
      else Ok(Gather(container.value.indexes[f.columnName], f.kind.matchValues))
    else Ok(rows)
  }

  /** A negated promoted filter yields the same candidates as the plain one. */
  lemma PkNegationIgnored(values: seq<Value>, rec: Recorded, container: Lookup, rows: seq<Row>)
    ensures Candidates(Some(EqualsKind(values, true)), rec, Some(container), rows) ==
            Candidates(Some(EqualsKind(values, false)), rec, Some(container), rows)
    ensures Candidates(Some(EqualsKind(values, true)), rec, Some(container), rows) ==
            Ok(PkMatches(container.store, values))
  {
  }

  /**
   * The clause. filterList, metaDef, container, primaryKeyFilter and
   * indexFilters are the source's fields; indexOrder is the order in which
   * the indexFilters keys were first put, which stands for the HashMap's
   * key-set order.
   */
  class Clause {
    var filterList: seq<Filter>
    var metaDef: RowMetaData?
    var container: Option<Lookup>
    var primaryKeyFilter: Filter?
    var indexFilters: map<string, Filter>
    var indexOrder: seq<string>

    /** The planner's fields as a record. */
    function Planned(): (rec: Recorded)
      reads this
      ensures rec.filters == indexFilters && rec.order == indexOrder
    {
      Recorded(indexFilters, indexOrder)
    }

    ghost predicate Valid()
      reads this
    {
      RecordedOk(Planned()) && (primaryKeyFilter != null ==> primaryKeyFilter.kind.EqualsKind?)
    }

    constructor ()
      ensures Valid()
      ensures filterList == [] && metaDef == null && container.None? && primaryKeyFilter == null
      ensures indexFilters == map[] && indexOrder == []
    {
      filterList := [];
      metaDef := null;
      container := None;
      primaryKeyFilter := null;
      indexFilters := map[];
      indexOrder := [];
    }

    /** size(): the list length, plus one for a promoted filter. */
    function Size(): (n: nat)
      reads this
      ensures n == |filterList| + (if primaryKeyFilter != null then 1 else 0)
      ensures n == |AllFilters()|
    {
      |AllFilters()|
    }

    /** getAllFilters(): the promoted filter first, then the list. */
    function AllFilters(): (fs: seq<Filter>)
      reads this
      ensures primaryKeyFilter == null ==> fs == filterList
      ensures primaryKeyFilter != null ==> fs == [primaryKeyFilter] + filterList
    {
      if primaryKeyFilter == null then filterList else [primaryKeyFilter] + filterList
    }

    /** addFilter: null is refused; anything else is appended. */
    method AddFilter(filter: Filter?) returns (r: Result<()>)
      requires Valid()
      modifies this
      ensures Valid()
      ensures filter == null ==> r.Err? && filterList == old(filterList)
      ensures filter != null ==> r.Ok? && filterList == old(filterList) + [filter]
      ensures metaDef == old(metaDef) && container == old(container) && primaryKeyFilter == old(primaryKeyFilter)
      ensures indexFilters == old(indexFilters) && indexOrder == old(indexOrder)
    {
      if filter == null {
        return Err(NullArgument("Filter to add to clause cannot be null."));
      }
      filterList := filterList + [filter];
      return Ok(());
    }

    method SetMetaDefinition(m: RowMetaData?)
      requires Valid()
      modifies this
      ensures Valid()
      ensures metaDef == m
      ensures filterList == old(filterList) && container == old(container) && primaryKeyFilter == old(primaryKeyFilter)
      ensures indexFilters == old(indexFilters) && indexOrder == old(indexOrder)
    {
      metaDef := m;
    }

    /** getFilter(idx): positions of the list only; the promoted filter is not reachable here. */
    method GetFilter(idx: int) returns (r: Result<Filter>)
      ensures r.Ok? <==> 0 <= idx < |filterList|
      ensures r.Ok? ==> r.value == filterList[idx]
      ensures r.Err? && idx >= |filterList| ==> r.error.IllegalArgument?
      ensures r.Err? && idx < 0 ==> r.error == IndexOutOfBounds(|filterList|, idx)
    {
      if idx >= |filterList| {
        return Err(IllegalArgument("The filter requested doesn't exist exist in the indices provided."));
      }
      if idx < 0 {
        return Err(IndexOutOfBounds(|filterList|, idx));
      }
      return Ok(filterList[idx]);
    }

    /**
     * setCacheContainerCallbackOptimization followed by optimizeOrder. The
     * planner runs once: with a promoted filter it does nothing. A missing
     * meta definition or primary-key array fails; with a single key column
     * the first equality filter on it is moved out of the list; with no key
     * column at all, the first equality filter met fails on pkColumns[0].
     * The remaining equality filters on indexed columns are recorded.
     */
    method SetCacheContainerCallbackOptimization(lookup: Lookup) returns (r: Result<()>)
      requires Valid()
      modifies this
      ensures Valid()
      ensures container == Some(lookup) && metaDef == old(metaDef)
      ensures var p := old(PlanOf(primaryKeyFilter, PkColumnsOf(metaDef), filterList, Planned(), lookup.indexes));
        r == p.result && filterList == p.list && primaryKeyFilter == p.promoted && Planned() == p.rec
      ensures Size() == old(Size())
    {
      container := Some(lookup);
      if primaryKeyFilter != null {
        return Ok(());
      }
      if metaDef == null || metaDef.primaryKeyColumns.None? {
        return Err(NullPointer);
      }
      var pkColumns := metaDef.primaryKeyColumns.value;
      var optimizePk := |pkColumns| <= 1;
      if |filterList| > 0 {
        if optimizePk {
          var idx := FirstPkCandidate(filterList, pkColumns);
          if idx < |filterList| {
            if |pkColumns| == 0 {
              return Err(IndexOutOfBounds(0, 0));
            }
            primaryKeyFilter := filterList[idx];
            filterList := filterList[..idx] + filterList[idx + 1..];
          }
        }
        RecordIndexed(lookup);
      }
      return Ok(());
    }

    /**
     * The pk-promotion loop of optimizeOrder: the position of the first
     * equality filter on the key column. With no key column, the loop stops at
     * the first equality filter, where reading pkColumns[0] fails.
     */
    static method FirstPkCandidate(fs: seq<Filter>, pkColumns: seq<string>) returns (idx: nat)
      requires |pkColumns| <= 1
      ensures idx <= |fs|
      ensures |pkColumns| == 0 ==> (idx < |fs| <==> HasEquals(fs))
      ensures |pkColumns| == 1 ==> idx == PkPosition(fs, pkColumns[0])
    {
      idx := 0;
      while idx < |fs| && !(fs[idx].kind.EqualsKind? && (|pkColumns| == 0 || fs[idx].columnName == pkColumns[0]))
        invariant 0 <= idx <= |fs|
        invariant forall j :: 0 <= j < idx ==> !fs[j].kind.EqualsKind? || (|pkColumns| > 0 && fs[j].columnName != pkColumns[0])
      {
        idx := idx + 1;
      }
      if |pkColumns| == 1 && idx < |fs| {
        PkPositionUnique(fs, pkColumns[0], idx);
      }
    }

    /** The index loop of optimizeOrder: each equality filter on an indexed column is recorded under its name. */
    method RecordIndexed(lookup: Lookup)
      requires RecordedOk(Planned())
      modifies this
      ensures Planned() == NoteAll(old(Planned()), filterList, lookup.indexes)
      ensures RecordedOk(Planned())
      ensures filterList == old(filterList) && primaryKeyFilter == old(primaryKeyFilter)
      ensures metaDef == old(metaDef) && container == old(container)
    {
      var i := 0;
      while i < |filterList|
        invariant 0 <= i <= |filterList|
        invariant filterList == old(filterList) && primaryKeyFilter == old(primaryKeyFilter)
        invariant metaDef == old(metaDef) && container == old(container)
        invariant Planned() == NoteAll(old(Planned()), filterList[..i], lookup.indexes)
        invariant RecordedOk(Planned())
      {
        assert filterList[..i + 1][..i] == filterList[..i];
        var f := filterList[i];
        if f.kind.EqualsKind? && f.columnName in lookup.indexes {
          if f.columnName !in indexFilters {
            indexOrder := indexOrder + [f.columnName];
          }
          indexFilters := indexFilters[f.columnName := f];
        }
        NoteAllOrder(old(Planned()), filterList[..i + 1], lookup.indexes);
        i := i + 1;
      }
      assert filterList[..|filterList|] == filterList;
    }

    /**
     * match: the candidate rows, filtered by every filter still in the list,
     * each filter given the clause's meta definition first. Each filter's
     * index is resolved at most once, so every row sees the same decision.
     */
    method Match(crows: seq<Row>) returns (r: Result<seq<Row>>)
      requires Valid()
      modifies filterList
      ensures primaryKeyFilter == null && |filterList| == 0 ==> r == Ok(crows)
      ensures !(primaryKeyFilter == null && |filterList| == 0) ==>
        var pk := if primaryKeyFilter == null then None else Some(primaryKeyFilter.kind);
        var cands := Candidates(pk, Planned(), container, crows);
        (cands.Err? ==> r == Err(cands.error)) &&
        (cands.Ok? ==> r == Scan(cands.value, old(RowCells(cands.value)), old(Probes(filterList)), old(MetaOf(metaDef))))
      ensures forall j :: 0 <= j < |filterList| ==>
        filterList[j].metaDefinition == old(filterList[j].metaDefinition) || filterList[j].metaDefinition == metaDef
      ensures Settled(filterList, old(Probes(filterList)), old(MetaOf(metaDef)))
    {
      ghost var ps := Probes(filterList);
      ghost var meta := MetaOf(metaDef);
      if primaryKeyFilter == null && |filterList| < 1 {
        return Ok(crows);
      }
      var pk := if primaryKeyFilter == null then None else Some(primaryKeyFilter.kind);
      var cands := Candidates(pk, Planned(), container, crows);
      if cands.Err? {
        return Err(cands.error);
      }
      r := ScanRows(cands.value, RowCells(cands.value), ps, meta);
    }

    /** The AND scan of match over the candidate rows. */
    method ScanRows(rows: seq<Row>, ghost cells: seq<seq<Value>>, ghost ps: seq<Probe>, ghost meta: Option<Schema>)
      returns (r: Result<seq<Row>>)
      requires cells == RowCells(rows)
      requires Settled(filterList, ps, meta) && meta == MetaOf(metaDef)
      modifies filterList
      ensures r == Scan(rows, cells, ps, meta)
      ensures Settled(filterList, ps, meta)
      ensures forall j :: 0 <= j < |filterList| ==>
        filterList[j].metaDefinition == old(filterList[j].metaDefinition) || filterList[j].metaDefinition == metaDef
    {
      var list: seq<Row> := [];
      var i := 0;
      while i < |rows|
        invariant 0 <= i <= |rows|
        invariant Settled(filterList, ps, meta)
        invariant meta == MetaOf(metaDef)
        invariant forall k :: 0 <= k < |rows| ==> rows[k].data[..] == cells[k]
        invariant Scan(rows[..i], cells[..i], ps, meta) == Ok(list)
        invariant forall j :: 0 <= j < |filterList| ==>
          filterList[j].metaDefinition == old(filterList[j].metaDefinition) || filterList[j].metaDefinition == metaDef
      {
        var next := ScanAt(rows, cells, ps, meta, i, list);
        if next.Err? {
          ScanErrSticks(rows, cells, ps, meta, i + 1);
          return next;
        }
        list := next.value;
        i := i + 1;
      }
      assert rows[..|rows|] == rows && cells[..|rows|] == cells;
      return Ok(list);
    }

    /** One turn of the scan: row i is matched, and kept when it passes. */
    method ScanAt(rows: seq<Row>, ghost cells: seq<seq<Value>>, ghost ps: seq<Probe>, ghost meta: Option<Schema>,
                  i: nat, list: seq<Row>) returns (r: Result<seq<Row>>)
      requires |cells| == |rows| && i < |rows| && rows[i].data[..] == cells[i]
      requires Settled(filterList, ps, meta) && meta == MetaOf(metaDef)
      requires Scan(rows[..i], cells[..i], ps, meta) == Ok(list)
      modifies filterList
      ensures Settled(filterList, ps, meta)
      ensures r == Scan(rows[..i + 1], cells[..i + 1], ps, meta)
      ensures forall j :: 0 <= j < |filterList| ==>
        filterList[j].metaDefinition == old(filterList[j].metaDefinition) || filterList[j].metaDefinition == metaDef
    {
      var passes := RowMatches(rows[i], ps, meta);
      ScanStep(rows, cells, ps, meta, i);
      if passes.Err? {
        return Err(passes.error);
      }
      r := Ok(if passes.value then list + [rows[i]] else list);
    }

    /** The inner loop of match for one row. */
    method RowMatches(row: Row, ghost ps: seq<Probe>, ghost meta: Option<Schema>) returns (r: Result<bool>)
      requires Settled(filterList, ps, meta) && meta == MetaOf(metaDef)
      modifies filterList
      ensures Settled(filterList, ps, meta)
      ensures r == RowPasses(ps, meta, row.data[..])
      ensures forall j :: 0 <= j < |filterList| ==>
        filterList[j].metaDefinition == old(filterList[j].metaDefinition) || filterList[j].metaDefinition == metaDef
    {
      var j := 0;
      while j < |filterList|
        invariant 0 <= j <= |filterList|
        invariant Settled(filterList, ps, meta)
        invariant RowPasses(ps, meta, row.data[..]) == RowPasses(ps[j..], meta, row.data[..])
        invariant forall k :: 0 <= k < |filterList| ==>
          filterList[k].metaDefinition == old(filterList[k].metaDefinition) || filterList[k].metaDefinition == metaDef
      {
        var m := MatchAt(j, row, ps, meta);
        if m.Err? {
          return Err(m.error);
        }
        assert ps[j..][1..] == ps[j + 1..];
        if !m.value {
          return Ok(false);
        }
        j := j + 1;
      }
      return Ok(true);
    }

    /** One turn of that loop: filter j gets the schema and is asked about the row. */
    method MatchAt(j: nat, row: Row, ghost ps: seq<Probe>, ghost meta: Option<Schema>) returns (m: Result<bool>)
      requires j < |filterList| && Settled(filterList, ps, meta) && meta == MetaOf(metaDef)
      modifies filterList
      ensures Settled(filterList, ps, meta)
      ensures m == Matches(ps[j].kind, ps[j].columnIndex, meta, ps[j].columnName, row.data[..])
      ensures forall k :: 0 <= k < |filterList| ==>
        filterList[k].metaDefinition == old(filterList[k].metaDefinition) || filterList[k].metaDefinition == metaDef
    {
      var filter := filterList[j];
      ResolveAgain(ps[j].kind, ps[j].columnIndex, meta, ps[j].columnName, row.data[..]);
      filter.SetMetaDefinition(metaDef);
      m := filter.DoesMatch(row);
      assert forall k :: 0 <= k < |filterList| && filterList[k] == filter ==> ps[k] == ps[j];
    }
  }

  /** PkPosition is the only position satisfying its own characterisation. */
  lemma PkPositionUnique(fs: seq<Filter>, column: string, p: nat)
    requires p < |fs| && EqualsOn(fs[p], column)
    requires forall j :: 0 <= j < p ==> !EqualsOn(fs[j], column)
    ensures PkPosition(fs, column) == p
  {
  }
}
